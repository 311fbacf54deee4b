/** The "combining" edges between two paths to the same deep function: with them the graph contains
    one walk through both paths. */
module Merge {

  type Function = string
  type Path = seq<Function>
  type Edge = (Function, Function)

  // ---------- what find_edges computes ----------

  /** Index of the next occurrence of `e`, or the length when there is none. */
  function NextAt(s: Path, from: nat, e: Function): (k: nat)
    requires from <= |s|
    ensures from <= k <= |s|
    ensures k < |s| ==> s[k] == e
    ensures forall m :: from <= m < k ==> s[m] != e
    decreases |s| - from
  {
    if from == |s| || s[from] == e then from else NextAt(s, from + 1, e)
  }

  /** Edges that let a walk take one of two stretches first and the other one afterwards. */
  function Detour(first1: Function, last1: Function, first2: Function, last2: Function): seq<Edge> {
    [(last2, first1), (last1, first2)]
  }

  /** Edges for the stretch of `s1` that starts at `t1` and ends at `f1`, and `s2[idx2..k]`. */
  function Connect(s1: Path, s2: Path, t1: int, f1: int, idx2: nat, k: nat): seq<Edge>
    requires -1 <= t1 <= f1 < |s1| && (t1 == -1 ==> f1 == -1) && idx2 <= k <= |s2|
  {
    if t1 >= 0 && k > idx2 then Detour(s1[t1], s1[f1], s2[idx2], s2[k - 1]) else []
  }

  /** The edges that the scan adds from index `idx` of `s1` on. */
  function FindFrom(s1: Path, s2: Path, common: Path, idx: nat, t1: int, f1: int, idx2: nat): seq<Edge>
    requires idx <= |s1| && idx2 <= |s2|
    requires -1 <= t1 <= f1 < idx && (t1 == -1 ==> f1 == -1)
    decreases |s1| - idx
  {
    if idx == |s1| then
      if t1 >= 0 then Connect(s1, s2, t1, f1, idx2, NextAt(s2, idx2, s1[idx - 1])) else []
    else if s1[idx] !in common then
      FindFrom(s1, s2, common, idx + 1, if t1 == -1 then idx else t1, idx, idx2)
    else
      var k := NextAt(s2, idx2, s1[idx]);
      Connect(s1, s2, t1, f1, idx2, k) + FindFrom(s1, s2, common, idx + 1, -1, -1, if k < |s2| then k + 1 else k)
  }

  function Shorter(a: Path, b: Path): Path {
    if |a| > |b| then b else a
  }

  function Longer(a: Path, b: Path): Path {
    if |a| > |b| then a else b
  }

  function Filter(a: Path, b: Path): (r: Path)
    ensures forall e :: e in r <==> e in a && e in b
  {
    if a == [] then [] else Filter(a[..|a| - 1], b) + (if a[|a| - 1] in b then [a[|a| - 1]] else [])
  }

  /** Functions of the shorter path that are also in the longer one. */
  function Common(a: Path, b: Path): Path {
    Filter(Shorter(a, b), Longer(a, b))
  }

  predicate Belongs(a: Path, b: Path) {
    forall i :: 0 <= i < |Shorter(a, b)| ==> Shorter(a, b)[i] in Longer(a, b)
  }

  /** The edges that are added for a pair of paths. */
  function PairEdges(a: Path, b: Path): seq<Edge> {
    if Belongs(a, b) then []
    else if Common(a, b) == [] then Detour(b[0], b[|b| - 1], a[0], a[|a| - 1])
    else FindFrom(Shorter(a, b), Longer(a, b), Common(a, b), 0, -1, -1, 0)
  }

  // ---------- the loops of the source ----------

  method BelongRelation(a: Path, b: Path) returns (r: bool)
    ensures r == Belongs(a, b)
  {
    var s1, s2 := a, b;
    if |a| > |b| {
      s1, s2 := b, a;
    }
    r := true;
    for i := 0 to |s1|
      invariant r == forall j :: 0 <= j < i ==> s1[j] in s2
    {
      if s1[i] !in s2 {
        r := false;
      }
    }
    assert s1 == Shorter(a, b) && s2 == Longer(a, b);
  }

  method CommonElements(a: Path, b: Path) returns (common: Path)
    ensures common == Common(a, b)
  {
    common := [];
    var s1, s2 := a, b;
    if |a| > |b| {
      s1, s2 := b, a;
    }
    for i := 0 to |s1|
      invariant common == Filter(s1[..i], s2)
    {
      assert s1[..i + 1][..i] == s1[..i];
      if s1[i] in s2 {
        common := common + [s1[i]];
      }
    }
    assert s1[..|s1|] == s1;
  }

  /** The two-index merge. -1 stands for "not set"; the variable `i` keeps its value between the inner
      loops, and `idx2` moves past the place where the inner loop stopped. */
  method FindEdges(seq1: Path, seq2: Path, common: Path) returns (edges: seq<Edge>)
    ensures edges == FindFrom(Shorter(seq1, seq2), Longer(seq1, seq2), common, 0, -1, -1, 0)
  {
    hide FindFrom, Connect, NextAt;
    edges := [];
    var s1, s2 := seq1, seq2;
    if |seq1| > |seq2| {
      s1, s2 := seq2, seq1;
    }
    var f1, t1, f2, t2, idx2, i := -1, -1, -1, -1, 0, -1;
    ghost var all := FindFrom(s1, s2, common, 0, -1, -1, 0);
    for idx := 0 to |s1|
      invariant 0 <= idx2 <= |s2| && i == idx2 - 1 && f2 == t2 == -1
      invariant -1 <= t1 <= f1 < idx && (t1 == -1 ==> f1 == -1)
      invariant edges + FindFrom(s1, s2, common, idx, t1, f1, idx2) == all
    {
      var e := s1[idx];
      FindUnfold(s1, s2, common, idx, t1, f1, idx2);
      if e !in common {
        if t1 == -1 {
          t1 := idx;
        }
        f1 := idx;
      } else {
        ghost var k := NextAt(s2, idx2, e);
        ghost var rest := FindFrom(s1, s2, common, idx + 1, -1, -1, if k < |s2| then k + 1 else k);
        ghost var joined := Connect(s1, s2, t1, f1, idx2, k);
        Associative(edges, joined, rest);
        t2, f2, i := ScanSecond(s2, idx2, e, i);
        edges := AddDetour(edges, s1, s2, t1, f1, t2, f2, idx2, k);
        idx2 := i + 1;
        f1, f2, t1, t2 := -1, -1, -1, -1;
      }
    }
    FindUnfold(s1, s2, common, |s1|, t1, f1, idx2);
    assert edges + [] == edges;
    if t1 >= 0 && f1 >= 0 {
      if idx2 > |s2| - 1 {
        assert Connect(s1, s2, t1, f1, idx2, idx2) == [] by { NoStretch(s1, s2, t1, f1, idx2); }
        return;
      }
      ghost var k := NextAt(s2, idx2, s1[|s1| - 1]);
      t2, f2, i := ScanSecond(s2, idx2, s1[|s1| - 1], i);
      edges := AddDetour(edges, s1, s2, t1, f1, t2, f2, idx2, k);
    }
  }

  lemma FindUnfold(s1: Path, s2: Path, common: Path, idx: nat, t1: int, f1: int, idx2: nat)
    requires idx <= |s1| && idx2 <= |s2|
    requires -1 <= t1 <= f1 < idx && (t1 == -1 ==> f1 == -1)
    ensures FindFrom(s1, s2, common, idx, t1, f1, idx2) ==
      if idx == |s1| then
        if t1 >= 0 then Connect(s1, s2, t1, f1, idx2, NextAt(s2, idx2, s1[idx - 1])) else []
      else if s1[idx] !in common then
        FindFrom(s1, s2, common, idx + 1, if t1 == -1 then idx else t1, idx, idx2)
      else
        var k := NextAt(s2, idx2, s1[idx]);
        Connect(s1, s2, t1, f1, idx2, k) + FindFrom(s1, s2, common, idx + 1, -1, -1, if k < |s2| then k + 1 else k)
  {
    hide NextAt, Connect;
  }

  lemma NoStretch(s1: Path, s2: Path, t1: int, f1: int, idx2: nat)
    requires -1 <= t1 <= f1 < |s1| && (t1 == -1 ==> f1 == -1) && idx2 <= |s2|
    ensures Connect(s1, s2, t1, f1, idx2, idx2) == []
  {
  }

  lemma Associative(a: seq<Edge>, b: seq<Edge>, c: seq<Edge>)
    ensures (a + b) + c == a + (b + c)
  {
  }

  /** Adds the two edges when both stretches are there. */
  method AddDetour(edges: seq<Edge>, s1: Path, s2: Path, t1: int, f1: int, t2: int, f2: int, ghost idx2: nat, ghost k: nat)
    returns (r: seq<Edge>)
    requires -1 <= t1 <= f1 < |s1| && (t1 == -1 ==> f1 == -1) && idx2 <= k <= |s2|
    requires (k > idx2 ==> t2 == idx2 && f2 == k - 1) && (k == idx2 ==> t2 == f2 == -1)
    ensures r == edges + Connect(s1, s2, t1, f1, idx2, k)
  {
    r := edges;
    if f2 >= 0 && t2 >= 0 && t1 >= 0 && f1 >= 0 {
      r := r + [(s2[f2], s1[t1])];
      r := r + [(s1[f1], s2[t2])];
    }
  }

  /** The inner loop: the stretch of `s2` from `idx2` up to `e`, as first and last index. The loop
      variable ends on `e`, on the last index, or keeps its value if nothing is left. */
  method ScanSecond(s2: Path, idx2: nat, e: Function, i0: int) returns (t2: int, f2: int, i: int)
    requires idx2 <= |s2| && i0 == idx2 - 1
    ensures var k := NextAt(s2, idx2, e);
      && (k > idx2 ==> t2 == idx2 && f2 == k - 1)
      && (k == idx2 ==> t2 == f2 == -1)
      && i == if k < |s2| then k else |s2| - 1
  {
    t2, f2, i := -1, -1, i0;
    while i + 1 < |s2|
      invariant idx2 - 1 <= i < |s2|
      invariant i >= idx2 ==> t2 == idx2 && f2 == i
      invariant i == idx2 - 1 ==> t2 == f2 == -1
      invariant NextAt(s2, idx2, e) == NextAt(s2, i + 1, e)
    {
      i := i + 1;
      if s2[i] != e {
        if t2 == -1 {
          t2 := i;
        }
        f2 := i;
      } else {
        break;
      }
    }
  }

  // ---------- walks ----------

  /** Consecutive functions of `w` are joined by edges of `g`. */
  ghost predicate Chain(g: set<Edge>, w: Path) {
    forall i :: 0 <= i < |w| - 1 ==> (w[i], w[i + 1]) in g
  }

  function Without(p: Path): Path
    requires p != []
  {
    p[..|p| - 1]
  }

  function EdgesOfPath(p: Path): set<Edge> {
    if |p| < 2 then {} else EdgesOfPath(Without(p)) + {(p[|p| - 2], p[|p| - 1])}
  }

  /** The edges of a path are the pairs of consecutive functions. */
  lemma {:induction false} PathIsChain(g: set<Edge>, p: Path)
    requires EdgesOfPath(p) <= g
    ensures Chain(g, p)
  {
    if |p| >= 2 {
      PathIsChain(g, Without(p));
      forall i | 0 <= i < |p| - 1 ensures (p[i], p[i + 1]) in g {
        if i < |p| - 2 {
          assert (Without(p)[i], Without(p)[i + 1]) in g;
        }
      }
    }
  }

  lemma ChainJoins(g: set<Edge>, a: Path, b: Path)
    requires Chain(g, a) && Chain(g, b)
    requires a != [] && b != [] ==> (a[|a| - 1], b[0]) in g
    ensures Chain(g, a + b)
  {
  }

  lemma ChainSlices(g: set<Edge>, w: Path, i: nat, j: nat)
    requires Chain(g, w) && i <= j <= |w|
    ensures Chain(g, w[i..j])
  {
    forall k | 0 <= k < j - i - 1 ensures (w[i..j][k], w[i..j][k + 1]) in g {
      assert (w[i + k], w[i + k + 1]) in g;
    }
  }

  /** No function is repeated. */
  ghost predicate Simple(r: Path) {
    forall i, j :: 0 <= i < j < |r| ==> r[i] != r[j]
  }

  /** A path without the repetition of a start function that calls itself. */
  function Undoubled(p: Path): Path {
    if |p| >= 2 && p[0] == p[1] then p[1..] else p
  }

  /** The functions that the paths share occur in the same order in both. */
  ghost predicate SameOrder(a: Path, b: Path) {
    forall i, j, p, q :: 0 <= i < |a| && 0 <= j < |a| && 0 <= p < |b| && 0 <= q < |b| && a[i] == b[p] && a[j] == b[q]
      ==> (i < j <==> p < q)
  }

  ghost predicate Covers(w: Path, a: Path) {
    forall e :: e in a ==> e in w
  }

  /** Index of the next function of `s1` that is also in `s2`. */
  function NextShared(s1: Path, s2: Path, from: nat): (c: nat)
    requires from <= |s1|
    ensures from <= c <= |s1|
    ensures c < |s1| ==> s1[c] in s2
    ensures forall m :: from <= m < c ==> s1[m] !in s2
    decreases |s1| - from
  {
    if from == |s1| || s1[from] in s2 then from else NextShared(s1, s2, from + 1)
  }

  /** Both stretches, one of them first. */
  function Both(a: Path, b: Path, swapped: bool): Path {
    if swapped then b + a else a + b
  }

  /** Both paths from the positions `i` and `j` on, stretch by stretch. The stretch of `s2` goes first where
      the index of the shared function behind it is in `swaps`. */
  function Merged(s1: Path, s2: Path, i: nat, j: nat, swaps: set<nat>): Path
    requires i <= |s1| && j <= |s2|
    decreases |s1| - i
  {
    var c := NextShared(s1, s2, i);
    if c == |s1| then Both(s1[i..], s2[j..], c in swaps)
    else
      var k := NextAt(s2, j, s1[c]);
      if k == |s2| then s1[i..] + s2[j..]
      else Both(s1[i..c], s2[j..k], c in swaps) + [s1[c]] + Merged(s1, s2, c + 1, k + 1, swaps)
  }

  /** `i` and `j` are the starts, or lie right behind a shared function. */
  ghost predicate Aligned(s1: Path, s2: Path, i: nat, j: nat) {
    && i <= |s1| && j <= |s2|
    && ((i == 0 && j == 0) || (i > 0 && j > 0 && s1[i - 1] == s2[j - 1]))
  }

  /** In paths of the same order the next shared function lies ahead in both. */
  lemma SharedAhead(s1: Path, s2: Path, i: nat, j: nat)
    requires SameOrder(s1, s2) && Aligned(s1, s2, i, j)
    ensures var c := NextShared(s1, s2, i); c < |s1| ==> NextAt(s2, j, s1[c]) < |s2|
  {
    var c := NextShared(s1, s2, i);
    if c < |s1| {
      var q :| 0 <= q < |s2| && s2[q] == s1[c];
      if i > 0 {
        assert s1[i - 1] == s2[j - 1] && i - 1 < c;
        assert j - 1 < q;
      }
    }
  }

  lemma {:induction false} MergedCovers(s1: Path, s2: Path, i: nat, j: nat, swaps: set<nat>)
    requires SameOrder(s1, s2) && Aligned(s1, s2, i, j)
    ensures Covers(Merged(s1, s2, i, j, swaps), s1[i..]) && Covers(Merged(s1, s2, i, j, swaps), s2[j..])
    decreases |s1| - i
  {
    hide NextAt, NextShared, SameOrder, Covers, Merged, Both;
    var c := NextShared(s1, s2, i);
    SharedAhead(s1, s2, i, j);
    MergedUnfold(s1, s2, i, j, swaps);
    if c < |s1| {
      var k := NextAt(s2, j, s1[c]);
      MergedCovers(s1, s2, c + 1, k + 1, swaps);
      CoversStretches(s1[i..c], s2[j..k], s1[c], Merged(s1, s2, c + 1, k + 1, swaps), s1[c + 1..], s2[k + 1..], c in swaps);
      SplitAround(s1, i, c);
      SplitAround(s2, j, k);
    } else {
      CoversBoth(s1[i..], s2[j..], c in swaps);
    }
  }

  lemma MergedUnfold(s1: Path, s2: Path, i: nat, j: nat, swaps: set<nat>)
    requires i <= |s1| && j <= |s2|
    ensures var c := NextShared(s1, s2, i);
      Merged(s1, s2, i, j, swaps) ==
        if c == |s1| then Both(s1[i..], s2[j..], c in swaps)
        else if NextAt(s2, j, s1[c]) == |s2| then s1[i..] + s2[j..]
        else Both(s1[i..c], s2[j..NextAt(s2, j, s1[c])], c in swaps) + [s1[c]] + Merged(s1, s2, c + 1, NextAt(s2, j, s1[c]) + 1, swaps)
  {
    hide NextAt, NextShared, Both;
  }

  lemma SplitAround(s: Path, i: nat, c: nat)
    requires i <= c < |s|
    ensures s[i..] == s[i..c] + [s[c]] + s[c + 1..]
  {
  }

  lemma CoversBoth(a: Path, b: Path, swapped: bool)
    ensures Covers(Both(a, b, swapped), a) && Covers(Both(a, b, swapped), b)
  {
  }

  lemma CoversStretches(a: Path, b: Path, e: Function, rest: Path, a': Path, b': Path, swapped: bool)
    requires Covers(rest, a') && Covers(rest, b')
    ensures var w := Both(a, b, swapped) + [e] + rest; Covers(w, a + [e] + a') && Covers(w, b + [e] + b')
  {
  }

  /** Within a stretch the scan only moves its marks. */
  lemma {:induction false} FindInStretch(s1: Path, s2: Path, common: Path, i: nat, idx: nat, j: nat)
    requires i <= |s1| && i <= idx <= NextShared(s1, s2, i) && j <= |s2|
    requires forall e :: e in s1 ==> (e in common <==> e in s2)
    ensures FindFrom(s1, s2, common, i, -1, -1, j)
      == FindFrom(s1, s2, common, idx, if i < idx then i else -1, if i < idx then idx - 1 else -1, j)
    decreases idx
  {
    if i < idx {
      FindInStretch(s1, s2, common, i, idx - 1, j);
      FindUnfold(s1, s2, common, idx - 1, if i < idx - 1 then i else -1, if i < idx - 1 then idx - 2 else -1, j);
    }
  }

  /** The edges that the scan adds for one pair of stretches, and those that it adds later. A shared
      function that is not found ahead ends the stretch of the second path with the path. */
  lemma FindStretch(s1: Path, s2: Path, common: Path, i: nat, j: nat)
    requires i <= |s1| && j <= |s2|
    requires forall e :: e in s1 ==> (e in common <==> e in s2)
    ensures var c, found := NextShared(s1, s2, i), FindFrom(s1, s2, common, i, -1, -1, j);
      if c == |s1| then
        found == if i < |s1| && j < |s2| then Detour(s1[i], s1[|s1| - 1], s2[j], s2[|s2| - 1]) else []
      else
        var k := NextAt(s2, j, s1[c]);
        found == (if i < c && j < k then Detour(s1[i], s1[c - 1], s2[j], s2[k - 1]) else [])
             + FindFrom(s1, s2, common, c + 1, -1, -1, if k < |s2| then k + 1 else k)
  {
    hide FindFrom;
    var c := NextShared(s1, s2, i);
    FindInStretch(s1, s2, common, i, c, j);
    FindUnfold(s1, s2, common, c, if i < c then i else -1, if i < c then c - 1 else -1, j);
  }

  /** The functions of `common` are those that the paths share. */
  ghost predicate AreShared(common: Path, s1: Path, s2: Path) {
    forall e :: e in s1 ==> (e in common <==> e in s2)
  }

  lemma OrderedStretch(s1: Path, s2: Path, common: Path, i: nat, j: nat)
    requires SameOrder(s1, s2) && Aligned(s1, s2, i, j)
    requires AreShared(common, s1, s2)
    ensures var c, found := NextShared(s1, s2, i), FindFrom(s1, s2, common, i, -1, -1, j);
      if c == |s1| then
        i < |s1| && j < |s2| ==> found == Detour(s1[i], s1[|s1| - 1], s2[j], s2[|s2| - 1])
      else
        var k := NextAt(s2, j, s1[c]);
        && k < |s2|
        && found == (if i < c && j < k then Detour(s1[i], s1[c - 1], s2[j], s2[k - 1]) else [])
             + FindFrom(s1, s2, common, c + 1, -1, -1, k + 1)
  {
    hide FindFrom, SameOrder, NextShared, NextAt;
    FindStretch(s1, s2, common, i, j);
    SharedAhead(s1, s2, i, j);
  }

  ghost predicate HasAll(g: set<Edge>, edges: seq<Edge>) {
    forall k :: 0 <= k < |edges| ==> edges[k] in g
  }

  lemma HasAllParts(g: set<Edge>, a: seq<Edge>, b: seq<Edge>)
    requires HasAll(g, a + b)
    ensures HasAll(g, a) && HasAll(g, b)
  {
    assert forall k :: 0 <= k < |a| ==> (a + b)[k] == a[k];
    assert forall k :: 0 <= k < |b| ==> (a + b)[|a| + k] == b[k];
  }

  /** The merged paths, followed by the deep function `d`, are a walk that can be entered from the
      shared function in front of them, whichever stretch goes first at every place. */
  lemma {:induction false} MergedWalks(g: set<Edge>, s1: Path, s2: Path, common: Path, d: Function, i: nat, j: nat, swaps: set<nat>)
    requires SameOrder(s1, s2) && Aligned(s1, s2, i, j)
    requires AreShared(common, s1, s2)
    requires Chain(g, s1 + [d]) && Chain(g, s2 + [d])
    requires HasAll(g, FindFrom(s1, s2, common, i, -1, -1, j))
    ensures var w := Merged(s1, s2, i, j, swaps) + [d];
      Chain(g, w) && (i > 0 ==> (s1[i - 1], w[0]) in g)
    decreases |s1| - i
  {
    hide FindFrom, NextAt, NextShared, SameOrder, Merged, Both, Chain, HasAll, Detour, AreShared;
    var c := NextShared(s1, s2, i);
    OrderedStretch(s1, s2, common, i, j);
    MergedUnfold(s1, s2, i, j, swaps);
    if c == |s1| {
      LastEither(g, s1, s2, d, i, j, c in swaps);
    } else {
      var k := NextAt(s2, j, s1[c]);
      var detour := if i < c && j < k then Detour(s1[i], s1[c - 1], s2[j], s2[k - 1]) else [];
      HasAllParts(g, detour, FindFrom(s1, s2, common, c + 1, -1, -1, k + 1));
      MergedWalks(g, s1, s2, common, d, c + 1, k + 1, swaps);
      MiddleEither(g, s1, s2, d, i, j, c, k, Merged(s1, s2, c + 1, k + 1, swaps), c in swaps);
    }
  }

  lemma LastEither(g: set<Edge>, s1: Path, s2: Path, d: Function, i: nat, j: nat, swapped: bool)
    requires Aligned(s1, s2, i, j) && Chain(g, s1 + [d]) && Chain(g, s2 + [d])
    requires i < |s1| && j < |s2| ==> HasAll(g, Detour(s1[i], s1[|s1| - 1], s2[j], s2[|s2| - 1]))
    ensures var w := Both(s1[i..], s2[j..], swapped) + [d];
      Chain(g, w) && (i > 0 ==> (s1[i - 1], w[0]) in g)
  {
    hide Chain, HasAll, Detour;
    if swapped {
      if i < |s1| && j < |s2| {
        DetourTurns(g, s1[i], s1[|s1| - 1], s2[j], s2[|s2| - 1]);
      }
      LastStretch(g, s2, s1, d, j, i);
    } else {
      LastStretch(g, s1, s2, d, i, j);
    }
  }

  lemma MiddleEither(g: set<Edge>, s1: Path, s2: Path, d: Function, i: nat, j: nat, c: nat, k: nat, rest: Path, swapped: bool)
    requires Aligned(s1, s2, i, j) && Chain(g, s1 + [d]) && Chain(g, s2 + [d])
    requires i <= c < |s1| && j <= k < |s2| && s1[c] == s2[k]
    requires HasAll(g, if i < c && j < k then Detour(s1[i], s1[c - 1], s2[j], s2[k - 1]) else [])
    requires Chain(g, rest + [d]) && (s1[c], (rest + [d])[0]) in g
    ensures var w := Both(s1[i..c], s2[j..k], swapped) + [s1[c]] + rest + [d];
      Chain(g, w) && (i > 0 ==> (s1[i - 1], w[0]) in g)
  {
    hide Chain, HasAll, Detour;
    if swapped {
      if i < c && j < k {
        DetourTurns(g, s1[i], s1[c - 1], s2[j], s2[k - 1]);
      }
      MiddleStretch(g, s2, s1, d, j, i, k, c, rest);
    } else {
      MiddleStretch(g, s1, s2, d, i, j, c, k, rest);
    }
  }

  lemma DetourTurns(g: set<Edge>, first1: Function, last1: Function, first2: Function, last2: Function)
    requires HasAll(g, Detour(first1, last1, first2, last2))
    ensures HasAll(g, Detour(first2, last2, first1, last1))
  {
    assert Detour(first1, last1, first2, last2)[0] in g && Detour(first1, last1, first2, last2)[1] in g;
  }

  lemma StepsOf(g: set<Edge>, s: Path, d: Function)
    requires Chain(g, s + [d])
    ensures forall i :: 0 <= i < |s| ==> (s[i], (s + [d])[i + 1]) in g
    ensures Chain(g, s)
  {
    forall i | 0 <= i < |s| ensures (s[i], (s + [d])[i + 1]) in g {
      assert ((s + [d])[i], (s + [d])[i + 1]) in g;
    }
    forall i | 0 <= i < |s| - 1 ensures (s[i], s[i + 1]) in g {
      assert (s[i], (s + [d])[i + 1]) in g;
    }
  }

  lemma LastStretch(g: set<Edge>, s1: Path, s2: Path, d: Function, i: nat, j: nat)
    requires Aligned(s1, s2, i, j) && Chain(g, s1 + [d]) && Chain(g, s2 + [d])
    requires i < |s1| && j < |s2| ==> HasAll(g, Detour(s1[i], s1[|s1| - 1], s2[j], s2[|s2| - 1]))
    ensures var w := s1[i..] + s2[j..] + [d];
      Chain(g, w) && (i > 0 ==> (s1[i - 1], w[0]) in g)
  {
    var a, b := s1[i..], s2[j..];
    StepsOf(g, s1, d);
    StepsOf(g, s2, d);
    ChainSlices(g, s1, i, |s1|);
    ChainSlices(g, s2, j, |s2|);
    if a != [] && b != [] {
      assert Detour(s1[i], s1[|s1| - 1], s2[j], s2[|s2| - 1])[1] in g;
    }
    ChainJoins(g, a, b);
    if b != [] {
      assert (s2[|s2| - 1], (s2 + [d])[|s2|]) in g;
    } else if a != [] {
      assert (s1[|s1| - 1], (s1 + [d])[|s1|]) in g;
    }
    ChainJoins(g, a + b, [d]);
    if i > 0 {
      assert (s1[i - 1], (s1 + [d])[i]) in g && (s2[j - 1], (s2 + [d])[j]) in g;
    }
  }

  lemma MiddleStretch(g: set<Edge>, s1: Path, s2: Path, d: Function, i: nat, j: nat, c: nat, k: nat, rest: Path)
    requires Aligned(s1, s2, i, j) && Chain(g, s1 + [d]) && Chain(g, s2 + [d])
    requires i <= c < |s1| && j <= k < |s2| && s1[c] == s2[k]
    requires i < c && j < k ==> HasAll(g, Detour(s1[i], s1[c - 1], s2[j], s2[k - 1]))
    requires Chain(g, rest + [d]) && (s1[c], (rest + [d])[0]) in g
    ensures var w := s1[i..c] + s2[j..k] + [s1[c]] + rest + [d];
      Chain(g, w) && (i > 0 ==> (s1[i - 1], w[0]) in g)
  {
    var a, b := s1[i..c], s2[j..k];
    StepsOf(g, s1, d);
    StepsOf(g, s2, d);
    ChainSlices(g, s1, i, c);
    ChainSlices(g, s2, j, k);
    if a != [] && b != [] {
      assert Detour(s1[i], s1[c - 1], s2[j], s2[k - 1])[1] in g;
    }
    ChainJoins(g, a, b);
    if b != [] {
      assert (s2[k - 1], s2[k]) in g;
    } else if a != [] {
      assert (s1[c - 1], s1[c]) in g;
    }
    ChainJoins(g, a + b, [s1[c]]);
    if i > 0 {
      assert (s1[i - 1], s1[i]) in g && (s2[j - 1], s2[j]) in g;
    }
    Onward(g, a + b, s1[c], rest, d);
  }

  lemma Onward(g: set<Edge>, front: Path, e: Function, rest: Path, d: Function)
    requires Chain(g, front + [e]) && Chain(g, rest + [d]) && (e, (rest + [d])[0]) in g
    ensures Chain(g, front + [e] + rest + [d]) && (front + [e] + rest + [d])[0] == (front + [e])[0]
  {
    ChainJoins(g, front + [e], rest + [d]);
    assert front + [e] + (rest + [d]) == front + [e] + rest + [d];
  }

  /** For two nested or disjoint paths to the deep function `d`, and for two paths whose shared functions
      occur in the same order: once the pair's edges are in the graph, one walk from the start of one of
      them to `d` visits every function of both, and it is no longer than both together. */
  lemma PairMerges(g: set<Edge>, a: Path, b: Path, d: Function) returns (w: Path)
    requires a != [] && b != [] && (Belongs(a, b) || SameOrder(a, b))
    requires Chain(g, a + [d]) && Chain(g, b + [d]) && HasAll(g, PairEdges(a, b))
    ensures Chain(g, w + [d]) && Covers(w, a) && Covers(w, b)
    ensures w != [] && (w[0] == a[0] || w[0] == b[0]) && |w| <= |a| + |b|
  {
    hide SameOrder, FindFrom, Filter;
    if Belongs(a, b) {
      w := Longer(a, b);
      assert forall e :: e in Shorter(a, b) ==> e in w;
    } else if Common(a, b) == [] {
      w := a + b;
      StepsOf(g, a, d);
      assert PairEdges(a, b)[0] == (a[|a| - 1], b[0]);
      ChainJoins(g, a, b + [d]);
      assert a + (b + [d]) == w + [d];
    } else {
      InBothOrders(a, b);
      w := OrderedMerges(g, Shorter(a, b), Longer(a, b), d, {});
    }
  }

  lemma OrderedMerges(g: set<Edge>, s1: Path, s2: Path, d: Function, swaps: set<nat>) returns (w: Path)
    requires s1 != [] && s2 != [] && SameOrder(s1, s2) && Chain(g, s1 + [d]) && Chain(g, s2 + [d])
    requires HasAll(g, FindFrom(s1, s2, Filter(s1, s2), 0, -1, -1, 0))
    ensures w == Merged(s1, s2, 0, 0, swaps) && Chain(g, w + [d]) && Covers(w, s1) && Covers(w, s2)
    ensures w != [] && (w[0] == s1[0] || w[0] == s2[0]) && |w| <= |s1| + |s2|
  {
    hide SameOrder, FindFrom, NextShared, NextAt, Merged, Filter, Chain;
    w := Merged(s1, s2, 0, 0, swaps);
    MergedWalks(g, s1, s2, Filter(s1, s2), d, 0, 0, swaps);
    MergedCovers(s1, s2, 0, 0, swaps);
    MergedStart(s1, s2, 0, 0, swaps);
    assert s1[0..] == s1 && s2[0..] == s2;
    assert s1[0] in w;
  }

  lemma InBothOrders(a: Path, b: Path)
    requires SameOrder(a, b)
    ensures SameOrder(b, a)
  {
  }

  lemma {:induction false} MergedStart(s1: Path, s2: Path, i: nat, j: nat, swaps: set<nat>)
    requires i <= |s1| && j <= |s2|
    ensures var w := Merged(s1, s2, i, j, swaps);
      && |w| <= |s1| - i + |s2| - j
      && (w != [] ==> (i < |s1| && w[0] == s1[i]) || (j < |s2| && w[0] == s2[j]))
    decreases |s1| - i
  {
    hide Merged, NextShared, NextAt;
    MergedUnfold(s1, s2, i, j, swaps);
    var c := NextShared(s1, s2, i);
    if c < |s1| && NextAt(s2, j, s1[c]) < |s2| {
      MergedStart(s1, s2, c + 1, NextAt(s2, j, s1[c]) + 1, swaps);
    }
  }

  // ---------- paths that share functions in different orders ----------

  lemma NoDetourWhenReversed(a: Function, b: Function, x: Function, y: Function)
    requires a != b && a != x && a != y && b != x && b != y && x != y
    ensures PairEdges([a, b, x], [b, a, y]) == []
  {
    hide FindFrom, Filter;
    var s1, s2 := [a, b, x], [b, a, y];
    var common := Common(s1, s2);
    assert s1[0] == a && s1[1] == b && s2[0] == b && s2[1] == a && s2[2] == y;
    assert x !in s2 && s1[2] == x;
    assert NextAt(s2, 0, a) == 1 && NextAt(s2, 2, b) == 3;
    hide NextAt;
    FindUnfold(s1, s2, common, 0, -1, -1, 0);
    FindUnfold(s1, s2, common, 1, -1, -1, 2);
    FindUnfold(s1, s2, common, 2, -1, -1, 3);
    FindUnfold(s1, s2, common, 3, 2, 2, 3);
    NoStretch(s1, s2, 2, 2, 3);
  }

  /** In a graph in which `x` leads only to `d`, and `d` nowhere, a walk to `d` meets `x` right before `d`. */
  lemma LastBefore(g: set<Edge>, w: Path, x: Function, d: Function)
    requires Chain(g, w) && x in w && w[|w| - 1] == d && x != d
    requires forall f, t :: (f, t) in g ==> (f == x ==> t == d) && f != d
    ensures |w| >= 2 && w[|w| - 2] == x
  {
    var p :| 0 <= p < |w| && w[p] == x;
    assert (w[p], w[p + 1]) in g;
    forall i | 0 <= i < |w| - 1 ensures w[i] != d {
      assert (w[i], w[i + 1]) in g;
    }
  }

  /** For the paths a, b, x and b, a, y no edge is added, and no walk to `d` has both x and y. */
  lemma ReversedOrderFails(a: Function, b: Function, x: Function, y: Function, d: Function)
    requires a != b && a != x && a != y && a != d && b != x && b != y && b != d && x != y && x != d && y != d
    ensures PairEdges([a, b, x], [b, a, y]) == []
    ensures var g := {(a, b), (b, x), (x, d), (b, a), (a, y), (y, d)};
      && Chain(g, [a, b, x] + [d]) && Chain(g, [b, a, y] + [d])
      && !exists w: Path :: Chain(g, w) && x in w && y in w && w[|w| - 1] == d
  {
    NoDetourWhenReversed(a, b, x, y);
    var g := {(a, b), (b, x), (x, d), (b, a), (a, y), (y, d)};
    forall w: Path | Chain(g, w) && x in w && w[|w| - 1] == d ensures y !in w {
      LastBefore(g, w, x, d);
      if y in w {
        LastBefore(g, w, y, d);
      }
    }
  }
}
