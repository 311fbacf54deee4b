/** When the edges of a pair of paths let one walk visit every function of both: exactly. */
module Combining {
  import opened Merge

  // ---------- the condition ----------

  /** Index of the first function of `s1` that is shared but not found ahead in `s2`, or the length. */
  function FirstLost(s1: Path, s2: Path, i: nat, j: nat): (c: nat)
    requires i <= |s1| && j <= |s2|
    ensures i <= c <= |s1| && (c < |s1| ==> s1[c] in s2)
    decreases |s1| - i
  {
    var c := NextShared(s1, s2, i);
    if c == |s1| then |s1|
    else
      var k := NextAt(s2, j, s1[c]);
      if k == |s2| then c else FirstLost(s1, s2, c + 1, k + 1)
  }

  /** Two functions of one path only, behind which the paths share the same functions: no shared function
      leads from one of them to the other. */
  predicate Parallel(s1: Path, s2: Path, i: nat, j: nat)
    requires i < |s1| && j < |s2|
  {
    && s1[i] !in s2 && s2[j] !in s1
    && forall f :: f in s1 && f in s2 ==> (f in s1[i..] <==> f in s2[j..])
  }

  /** The scan of the shorter path finds every shared function ahead in the longer one, or the first that
      it does not find follows a function of the shorter path only, or no parallel functions lie behind it. */
  predicate Combinable(a: Path, b: Path) {
    var s1, s2 := Shorter(a, b), Longer(a, b);
    Linked(s1, s2, FirstLost(s1, s2, 0, 0))
  }

  predicate Linked(s1: Path, s2: Path, c: nat)
    requires c <= |s1|
  {
    || c == |s1|
    || (c > 0 && s1[c - 1] !in s2)
    || forall i, j :: c < i < |s1| && 0 <= j < |s2| ==> !Parallel(s1, s2, i, j)
  }

  // ---------- reachability ----------

  /** A walk of `g` from `x` to `y`. */
  ghost predicate WalkFrom(g: set<Edge>, x: Function, y: Function, w: Path) {
    w != [] && w[0] == x && w[|w| - 1] == y && Chain(g, w)
  }

  ghost predicate Reaches(g: set<Edge>, x: Function, y: Function) {
    exists w :: WalkFrom(g, x, y, w)
  }

  ghost predicate Comparable(g: set<Edge>, x: Function, y: Function) {
    Reaches(g, x, y) || Reaches(g, y, x)
  }

  lemma Join(g: set<Edge>, x: Function, y: Function, z: Function, v: Path, w: Path)
    requires WalkFrom(g, x, y, v) && WalkFrom(g, y, z, w)
    ensures WalkFrom(g, x, z, v + w[1..])
    ensures forall f :: f in v || f in w ==> f in v + w[1..]
  {
    ChainSlices(g, w, 1, |w|);
    if |w| > 1 {
      assert (w[0], w[1]) in g;
    }
    ChainJoins(g, v, w[1..]);
    assert w == [w[0]] + w[1..];
    assert v[|v| - 1] in v;
  }

  lemma ReachesTrans(g: set<Edge>, x: Function, y: Function, z: Function)
    requires Reaches(g, x, y) && Reaches(g, y, z)
    ensures Reaches(g, x, z)
  {
    hide WalkFrom;
    var v :| WalkFrom(g, x, y, v);
    var w :| WalkFrom(g, y, z, w);
    EndsAt(g, y, z, w);
    Join(g, x, y, z, v, w);
    assert WalkFrom(g, x, z, v + w[1..]);
  }

  lemma ReachesAlong(g: set<Edge>, s: Path, i: nat, j: nat)
    requires Chain(g, s) && i <= j < |s|
    ensures Reaches(g, s[i], s[j])
  {
    ChainSlices(g, s, i, j + 1);
    assert WalkFrom(g, s[i], s[j], s[i..j + 1]);
  }

  lemma ReachesEdge(g: set<Edge>, x: Function, y: Function)
    requires (x, y) in g
    ensures Reaches(g, x, y)
  {
    assert WalkFrom(g, x, y, [x, y]);
  }

  // ---------- from pairwise reachability to one walk ----------

  /** Each function reaches the next. */
  ghost predicate Ordered(g: set<Edge>, o: Path) {
    forall i :: 0 <= i < |o| - 1 ==> Reaches(g, o[i], o[i + 1])
  }

  lemma OrderedMore(g: set<Edge>, o: Path, v: Function)
    requires Ordered(g, o) && (o != [] ==> Reaches(g, o[|o| - 1], v))
    ensures Ordered(g, o + [v])
  {
    hide Reaches;
    var p := o + [v];
    forall i | 0 <= i < |p| - 1 ensures Reaches(g, p[i], p[i + 1]) {
      assert i < |o| - 1 ==> Reaches(g, o[i], o[i + 1]);
    }
  }

  lemma OrderedLess(g: set<Edge>, o: Path)
    requires Ordered(g, o) && o != []
    ensures Ordered(g, o[..|o| - 1]) && (|o| > 1 ==> Reaches(g, o[|o| - 2], o[|o| - 1]))
  {
    hide Reaches;
    var p := o[..|o| - 1];
    forall i | 0 <= i < |p| - 1 ensures Reaches(g, p[i], p[i + 1]) {
      assert Reaches(g, o[i], o[i + 1]);
    }
    assert |o| > 1 ==> Reaches(g, o[|o| - 2], o[|o| - 2 + 1]);
  }

  /** A function that is comparable with all others has a place among them. */
  lemma {:induction false} InsertOrdered(g: set<Edge>, o: Path, v: Function) returns (p: Path)
    requires Ordered(g, o) && forall u :: u in o ==> Comparable(g, u, v)
    ensures Ordered(g, p) && p != [] && (forall u :: u in p <==> u in o || u == v)
    ensures p[|p| - 1] == v || (o != [] && p[|p| - 1] == o[|o| - 1])
  {
    hide Reaches, Ordered;
    if o == [] {
      p := [v];
      OrderedMore(g, [], v) by { NothingOrdered(g); }
      assert [] + [v] == [v];
    } else {
      var n := |o| - 1;
      assert o == o[..n] + [o[n]];
      OrderedLess(g, o);
      assert Comparable(g, o[n], v);
      if Reaches(g, o[n], v) {
        p := o + [v];
        OrderedMore(g, o, v);
      } else {
        p := InsertOrdered(g, o[..n], v);
        OrderedMore(g, p, o[n]);
        p := p + [o[n]];
      }
    }
  }

  lemma NothingOrdered(g: set<Edge>)
    ensures Ordered(g, [])
  {
  }

  /** Functions of which any two are comparable can be put in order. */
  lemma {:induction false} PutInOrder(g: set<Edge>, s: Path) returns (o: Path)
    requires forall x, y :: x in s && y in s ==> Comparable(g, x, y)
    ensures Ordered(g, o) && forall u :: u in o <==> u in s
  {
    hide Ordered, Comparable;
    if s == [] {
      o := [];
      NothingOrdered(g);
    } else {
      var n := |s| - 1;
      assert s == s[..n] + [s[n]];
      o := PutInOrder(g, s[..n]);
      o := InsertOrdered(g, o, s[n]);
    }
  }

  lemma {:induction false} WalkThrough(g: set<Edge>, o: Path) returns (w: Path)
    requires Ordered(g, o) && o != []
    ensures WalkFrom(g, o[0], o[|o| - 1], w) && Covers(w, o)
  {
    hide WalkFrom, Ordered;
    var n := |o| - 1;
    OrderedLess(g, o);
    if n == 0 {
      w := [o[0]];
      Stay(g, o[0]);
    } else {
      var v := WalkThrough(g, o[..n]);
      var u :| WalkFrom(g, o[n - 1], o[n], u);
      EndsAt(g, o[n - 1], o[n], u);
      Join(g, o[0], o[n - 1], o[n], v, u);
      w := v + u[1..];
      assert o == o[..n] + [o[n]];
    }
  }

  lemma Stay(g: set<Edge>, x: Function)
    ensures WalkFrom(g, x, x, [x])
  {
  }

  lemma EndsAt(g: set<Edge>, x: Function, y: Function, w: Path)
    requires WalkFrom(g, x, y, w)
    ensures x in w && y in w && w != [] && w[0] == x && w[|w| - 1] == y && Chain(g, w)
  {
  }

  /** When any two functions of two paths to `d` are comparable, one walk from the start of one of them
      to `d` visits all. */
  lemma WalkOverBoth(g: set<Edge>, a: Path, b: Path, d: Function) returns (w: Path)
    requires a != [] && b != [] && Chain(g, a + [d]) && Chain(g, b + [d])
    requires forall x, y :: x in a + b && y in a + b ==> Comparable(g, x, y)
    ensures Chain(g, w + [d]) && Covers(w, a) && Covers(w, b) && w != [] && (w[0] == a[0] || w[0] == b[0])
  {
    hide Comparable, WalkFrom, Ordered, Reaches;
    var o := PutInOrder(g, a + b);
    assert a[0] in a + b;
    var m := WalkThrough(g, o);
    assert o[0] in a + b && o[|o| - 1] in a + b;
    StepsOf(g, a, d);
    StepsOf(g, b, d);
    CoversAll(m, o, a, b);
    w := FromStart(g, if o[0] in a then a else b, m, o[0], o[|o| - 1]);
    w := ToEnd(g, if o[|o| - 1] in a then a else b, d, w, w[0], o[|o| - 1]);
  }

  /** A walk from a function of a path can be made to begin at the start of the path. */
  lemma FromStart(g: set<Edge>, s: Path, m: Path, x: Function, y: Function) returns (w: Path)
    requires Chain(g, s) && x in s && WalkFrom(g, x, y, m)
    ensures WalkFrom(g, s[0], y, w) && Covers(w, m)
    ensures w != [] && w[0] == s[0]
  {
    hide WalkFrom;
    var i :| 0 <= i < |s| && s[i] == x;
    ReachesAlong(g, s, 0, i);
    var front :| WalkFrom(g, s[0], s[i], front);
    EndsAt(g, x, y, m);
    Join(g, s[0], s[i], y, front, m);
    w := front + m[1..];
    EndsAt(g, s[0], y, w);
  }

  /** A walk to a function of a path to `d` can be continued up to `d`. */
  lemma ToEnd(g: set<Edge>, t: Path, d: Function, m: Path, x: Function, y: Function) returns (w: Path)
    requires Chain(g, t + [d]) && y in t && WalkFrom(g, x, y, m)
    ensures Chain(g, w + [d]) && Covers(w, m) && w != [] && w[0] == x
  {
    hide WalkFrom;
    var j :| 0 <= j < |t| && t[j] == y;
    StepsOf(g, t, d);
    ReachesAlong(g, t, j, |t| - 1);
    var back :| WalkFrom(g, t[j], t[|t| - 1], back);
    EndsAt(g, t[j], t[|t| - 1], back);
    Join(g, x, y, t[|t| - 1], m, back);
    w := m + back[1..];
    EndsAt(g, x, t[|t| - 1], w);
    assert (t[|t| - 1], (t + [d])[|t|]) in g;
    ChainJoins(g, w, [d]);
  }

  lemma CoversAll(w: Path, o: Path, a: Path, b: Path)
    requires Covers(w, o) && forall u :: u in o <==> u in a + b
    ensures Covers(w, a) && Covers(w, b)
  {
    forall e | e in a || e in b ensures e in w {
      assert e in a + b;
    }
  }

  // ---------- the scan makes functions comparable ----------

  ghost predicate Joined(g: set<Edge>, s1: Path, s2: Path) {
    Chain(g, s1) && Chain(g, s2)
  }

  /** Both edges of a detour: everything in one stretch reaches everything in the other. */
  lemma DetourCompares(g: set<Edge>, s1: Path, s2: Path, i0: nat, i: nat, c: nat, j0: nat, j: nat, k: nat)
    requires Joined(g, s1, s2) && i0 <= i < c <= |s1| && j0 <= j < k <= |s2|
    requires HasAll(g, Detour(s1[i0], s1[c - 1], s2[j0], s2[k - 1]))
    ensures Reaches(g, s1[i], s2[j])
  {
    hide Reaches;
    assert Detour(s1[i0], s1[c - 1], s2[j0], s2[k - 1])[1] in g;
    ReachesAlong(g, s1, i, c - 1);
    ReachesEdge(g, s1[c - 1], s2[j0]);
    ReachesAlong(g, s2, j0, j);
    ReachesTrans(g, s1[i], s1[c - 1], s2[j0]);
    ReachesTrans(g, s1[i], s2[j0], s2[j]);
  }

  /** From behind a stretch of `s1` back into it: the end of `s2` leads to its first function. */
  lemma BackIntoStretch(g: set<Edge>, s1: Path, s2: Path, i0: nat, c: nat, i: nat, j0: nat, j: nat)
    requires Joined(g, s1, s2) && i0 < c <= i < |s1| && j0 <= j < |s2|
    requires HasAll(g, Detour(s1[i0], s1[c - 1], s2[j0], s2[|s2| - 1]))
    ensures Reaches(g, s2[j], s1[i])
  {
    hide Reaches;
    assert Detour(s1[i0], s1[c - 1], s2[j0], s2[|s2| - 1])[0] in g;
    ReachesAlong(g, s2, j, |s2| - 1);
    ReachesEdge(g, s2[|s2| - 1], s1[i0]);
    ReachesAlong(g, s1, i0, i);
    ReachesTrans(g, s2[j], s2[|s2| - 1], s1[i0]);
    ReachesTrans(g, s2[j], s1[i0], s1[i]);
  }

  /** A shared function between them leads from one function to the other. */
  lemma AcrossShared(g: set<Edge>, s1: Path, s2: Path, i: nat, c: nat, k: nat, j: nat)
    requires Joined(g, s1, s2) && c < |s1| && k < |s2| && s1[c] == s2[k]
    ensures i <= c && k <= j < |s2| ==> Reaches(g, s1[i], s2[j])
    ensures j <= k && c <= i < |s1| ==> Reaches(g, s2[j], s1[i])
  {
    hide Reaches;
    if i <= c && k <= j < |s2| {
      ReachesAlong(g, s1, i, c);
      ReachesAlong(g, s2, k, j);
      ReachesTrans(g, s1[i], s1[c], s2[j]);
    }
    if j <= k && c <= i < |s1| {
      ReachesAlong(g, s2, j, k);
      ReachesAlong(g, s1, c, i);
      ReachesTrans(g, s2[j], s2[k], s1[i]);
    }
  }

  /** Functions that are not parallel are comparable through a shared one. */
  lemma NotParallel(g: set<Edge>, s1: Path, s2: Path, i: nat, j: nat)
    requires Joined(g, s1, s2) && i < |s1| && j < |s2|
    requires s1[i] !in s2 && s2[j] !in s1 && !Parallel(s1, s2, i, j)
    ensures Comparable(g, s1[i], s2[j])
  {
    hide Reaches, Joined;
    var f :| f in s1 && f in s2 && !(f in s1[i..] <==> f in s2[j..]);
    assert s1 == s1[..i] + s1[i..] && s2 == s2[..j] + s2[j..];
    if f in s1[i..] {
      var c :| 0 <= c < |s1| - i && s1[i..][c] == f;
      var k :| 0 <= k < j && s2[k] == f;
      AcrossShared(g, s1, s2, i, i + c, k, j);
    } else {
      var c :| 0 <= c < i && s1[c] == f;
      var k :| 0 <= k < |s2| - j && s2[j..][k] == f;
      AcrossShared(g, s1, s2, i, c, j + k, j);
    }
  }

  lemma EitherWay(g: set<Edge>, x: Function, y: Function)
    ensures Reaches(g, x, y) || Reaches(g, y, x) ==> Comparable(g, x, y)
  {
  }

  /** `i` and `j` are the starts, or lie right behind a function that the scan has matched. */
  ghost predicate Matched(s1: Path, s2: Path, i: nat, j: nat) {
    i <= |s1| && j <= |s2| && ((i == 0 && j == 0) || (i > 0 && j > 0 && s1[i - 1] == s2[j - 1]))
  }

  lemma {:induction false} ScanCompares(g: set<Edge>, s1: Path, s2: Path, common: Path, i0: nat, j0: nat, i: nat, j: nat)
    requires Joined(g, s1, s2) && Matched(s1, s2, i0, j0)
    requires forall e :: e in s1 ==> (e in common <==> e in s2)
    requires HasAll(g, FindFrom(s1, s2, common, i0, -1, -1, j0))
    requires Linked(s1, s2, FirstLost(s1, s2, i0, j0))
    requires i0 <= i < |s1| && j0 <= j < |s2| && s1[i] !in s2 && s2[j] !in s1
    ensures Comparable(g, s1[i], s2[j])
    decreases |s1| - i0
  {
    hide Reaches, Joined, FindFrom, NextAt, NextShared, HasAll, Linked, FirstLost, BehindLast, Comparable;
    var c := NextShared(s1, s2, i0);
    ScanUnfold(s1, s2, i0, j0);
    FindStretch(s1, s2, common, i0, j0);
    EitherWay(g, s1[i], s2[j]);
    if c == |s1| {
      DetourCompares(g, s1, s2, i0, i, c, j0, j, |s2|);
    } else {
      var k := NextAt(s2, j0, s1[c]);
      var detour := if i0 < c && j0 < k then Detour(s1[i0], s1[c - 1], s2[j0], s2[k - 1]) else [];
      HasAllParts(g, detour, FindFrom(s1, s2, common, c + 1, -1, -1, if k < |s2| then k + 1 else k));
      if i < c && j < k {
        DetourCompares(g, s1, s2, i0, i, c, j0, j, k);
      } else if k == |s2| {
        assert i != c;
        BehindLost(g, s1, s2, i0, c, j0, i, j);
      } else {
        assert i != c && j != k;
        AcrossShared(g, s1, s2, i, c, k, j);
        if i > c && j > k {
          ScanCompares(g, s1, s2, common, c + 1, k + 1, i, j);
        }
      }
    }
  }

  lemma BehindLost(g: set<Edge>, s1: Path, s2: Path, i0: nat, c: nat, j0: nat, i: nat, j: nat)
    requires Joined(g, s1, s2) && Matched(s1, s2, i0, j0) && i0 <= c < i < |s1| && j0 <= j < |s2|
    requires s1[c] in s2 && NextAt(s2, j0, s1[c]) == |s2|
    requires i0 < c ==> HasAll(g, Detour(s1[i0], s1[c - 1], s2[j0], s2[|s2| - 1]))
    requires Linked(s1, s2, c) && s1[i] !in s2 && s2[j] !in s1
    ensures Comparable(g, s1[i], s2[j])
  {
    hide Reaches, Joined, HasAll, Parallel;
    if i0 < c {
      BackIntoStretch(g, s1, s2, i0, c, i, j0, j);
    } else {
      var q :| 0 <= q < |s2| && s2[q] == s1[c];
      assert c > 0 && s1[c - 1] == s2[j0 - 1];
      NotParallel(g, s1, s2, i, j);
    }
  }

  // ---------- the condition suffices ----------

  lemma SameComparable(g: set<Edge>, s: Path, x: Function, y: Function)
    requires Chain(g, s) && x in s && y in s
    ensures Comparable(g, x, y)
  {
    hide Reaches;
    var i :| 0 <= i < |s| && s[i] == x;
    var j :| 0 <= j < |s| && s[j] == y;
    if i <= j {
      ReachesAlong(g, s, i, j);
    } else {
      ReachesAlong(g, s, j, i);
    }
  }

  lemma AllComparable(g: set<Edge>, a: Path, b: Path, x: Function, y: Function)
    requires Chain(g, a) && Chain(g, b) && !Belongs(a, b) && Common(a, b) != []
    requires HasAll(g, PairEdges(a, b)) && Combinable(a, b)
    requires x in a + b && y in a + b
    ensures Comparable(g, x, y)
  {
    hide Reaches, FindFrom, NextAt, NextShared, HasAll, Linked, FirstLost;
    var s1, s2 := Shorter(a, b), Longer(a, b);
    if x in s1 && y in s1 {
      SameComparable(g, s1, x, y);
    } else if x in s2 && y in s2 {
      SameComparable(g, s2, x, y);
    } else {
      var u, v := if x in s1 then x else y, if x in s1 then y else x;
      var i :| 0 <= i < |s1| && s1[i] == u;
      var j :| 0 <= j < |s2| && s2[j] == v;
      ScanCompares(g, s1, s2, Common(a, b), 0, 0, i, j);
    }
  }

  /** For any two paths to the deep function `d` that are combinable: once the pair's edges are in the
      graph, one walk from the start of one of them to `d` visits every function of both. */
  lemma PairCombines(g: set<Edge>, a: Path, b: Path, d: Function) returns (w: Path)
    requires a != [] && b != [] && Combinable(a, b)
    requires Chain(g, a + [d]) && Chain(g, b + [d]) && HasAll(g, PairEdges(a, b))
    ensures Chain(g, w + [d]) && Covers(w, a) && Covers(w, b)
    ensures w != [] && (w[0] == a[0] || w[0] == b[0])
    ensures Belongs(a, b) || SameOrder(a, b) ==> |w| <= |a| + |b|
  {
    hide SameOrder, PairEdges, Combinable, Comparable, Common;
    if Belongs(a, b) || SameOrder(a, b) {
      w := PairMerges(g, a, b, d);
    } else if Common(a, b) == [] {
      NothingShared(a, b);
      w := PairMerges(g, a, b, d);
    } else {
      StepsOf(g, a, d);
      StepsOf(g, b, d);
      forall x, y | x in a + b && y in a + b ensures Comparable(g, x, y) {
        AllComparable(g, a, b, x, y);
      }
      w := WalkOverBoth(g, a, b, d);
    }
  }

  lemma NothingShared(a: Path, b: Path)
    requires Common(a, b) == []
    ensures SameOrder(a, b)
  {
    forall i, p | 0 <= i < |a| && 0 <= p < |b| ensures a[i] != b[p] {
      assert a[i] in Common(a, b) <==> a[i] in a && a[i] in b;
    }
  }

  // ---------- the condition is needed ----------

  lemma {:induction false} EdgeAt(p: Path, e: Edge) returns (m: nat)
    requires e in EdgesOfPath(p)
    ensures m < |p| - 1 && e == (p[m], p[m + 1])
  {
    if e == (p[|p| - 2], p[|p| - 1]) {
      m := |p| - 2;
    } else {
      m := EdgeAt(Without(p), e);
    }
  }

  /** The graph of two paths to `d` and the edges that are added for them. */
  function PairGraph(a: Path, b: Path, d: Function): set<Edge> {
    EdgesOfPath(a + [d]) + EdgesOfPath(b + [d]) + set k | 0 <= k < |PairEdges(a, b)| :: PairEdges(a, b)[k]
  }

  /** Index behind the last function of `s2` that the scan has found. */
  function BehindLast(s1: Path, s2: Path, i: nat, j: nat): (q: nat)
    requires i <= |s1| && j <= |s2|
    ensures j <= q <= |s2|
    decreases |s1| - i
  {
    var c := NextShared(s1, s2, i);
    if c == |s1| then j
    else
      var k := NextAt(s2, j, s1[c]);
      if k == |s2| then j else BehindLast(s1, s2, c + 1, k + 1)
  }

  lemma ScanUnfold(s1: Path, s2: Path, i: nat, j: nat)
    requires i <= |s1| && j <= |s2|
    ensures var c := NextShared(s1, s2, i);
      && FirstLost(s1, s2, i, j) == (if c == |s1| || NextAt(s2, j, s1[c]) == |s2| then c else FirstLost(s1, s2, c + 1, NextAt(s2, j, s1[c]) + 1))
      && BehindLast(s1, s2, i, j) == (if c == |s1| || NextAt(s2, j, s1[c]) == |s2| then j else BehindLast(s1, s2, c + 1, NextAt(s2, j, s1[c]) + 1))
  {
    hide NextAt, NextShared;
  }

  /** A function is lost right behind the last one that was found. */
  ghost predicate LostAtOnce(s1: Path, s2: Path, c: nat) {
    c < |s1| && (c > 0 ==> s1[c - 1] in s2)
  }

  lemma {:induction false} LastIsMatched(s1: Path, s2: Path, i: nat, j: nat)
    requires Matched(s1, s2, i, j) && LostAtOnce(s1, s2, FirstLost(s1, s2, i, j))
    ensures Matched(s1, s2, FirstLost(s1, s2, i, j), BehindLast(s1, s2, i, j))
    decreases |s1| - i
  {
    hide NextAt, NextShared;
    var c := NextShared(s1, s2, i);
    if c < |s1| {
      var k := NextAt(s2, j, s1[c]);
      if k < |s2| {
        LastIsMatched(s1, s2, c + 1, k + 1);
      }
    }
  }

  lemma {:induction false} NothingBehindEnd(s1: Path, s2: Path, common: Path, idx: nat, t1: int, f1: int)
    requires idx <= |s1| && -1 <= t1 <= f1 < idx && (t1 == -1 ==> f1 == -1)
    ensures FindFrom(s1, s2, common, idx, t1, f1, |s2|) == []
    decreases |s1| - idx
  {
    hide FindFrom;
    FindUnfold(s1, s2, common, idx, t1, f1, |s2|);
    if idx < |s1| {
      if s1[idx] !in common {
        NothingBehindEnd(s1, s2, common, idx + 1, if t1 == -1 then idx else t1, idx);
      } else {
        NothingBehindEnd(s1, s2, common, idx + 1, -1, -1);
      }
    }
  }

  /** Every edge leaves a function in front of the lost one, or in front of the last one found. */
  ghost predicate LeavesFront(edges: seq<Edge>, front1: Path, front2: Path) {
    forall k :: 0 <= k < |edges| ==> edges[k].0 in front1 || edges[k].0 in front2
  }

  lemma LeavesJoin(a: seq<Edge>, b: seq<Edge>, front1: Path, front2: Path)
    requires LeavesFront(a, front1, front2) && LeavesFront(b, front1, front2)
    ensures LeavesFront(a + b, front1, front2)
  {
  }

  lemma {:induction false} SourcesInFront(s1: Path, s2: Path, common: Path, i: nat, j: nat)
    requires i <= |s1| && j <= |s2| && LostAtOnce(s1, s2, FirstLost(s1, s2, i, j))
    requires forall e :: e in s1 ==> (e in common <==> e in s2)
    ensures LeavesFront(FindFrom(s1, s2, common, i, -1, -1, j), s1[..FirstLost(s1, s2, i, j)], s2[..BehindLast(s1, s2, i, j)])
    decreases |s1| - i
  {
    hide NextAt, NextShared, FindFrom, LeavesFront, FirstLost, BehindLast;
    var c := NextShared(s1, s2, i);
    ScanUnfold(s1, s2, i, j);
    FindStretch(s1, s2, common, i, j);
    if c < |s1| {
      var k := NextAt(s2, j, s1[c]);
      var front1, front2 := s1[..FirstLost(s1, s2, i, j)], s2[..BehindLast(s1, s2, i, j)];
      if k == |s2| {
        NothingBehindEnd(s1, s2, common, c + 1, -1, -1);
        NoEdgeLeaves(front1, front2);
      } else {
        SourcesInFront(s1, s2, common, c + 1, k + 1);
        DetourLeaves(s1, s2, i, c, j, k, FirstLost(s1, s2, i, j), BehindLast(s1, s2, i, j));
        LeavesJoin(if i < c && j < k then Detour(s1[i], s1[c - 1], s2[j], s2[k - 1]) else [],
          FindFrom(s1, s2, common, c + 1, -1, -1, k + 1), front1, front2);
      }
    }
  }

  lemma NoEdgeLeaves(front1: Path, front2: Path)
    ensures LeavesFront([], front1, front2)
  {
  }

  lemma DetourLeaves(s1: Path, s2: Path, i: nat, c: nat, j: nat, k: nat, lost: nat, behind: nat)
    requires i <= c < lost <= |s1| && j <= k < behind <= |s2|
    ensures LeavesFront(if i < c && j < k then Detour(s1[i], s1[c - 1], s2[j], s2[k - 1]) else [], s1[..lost], s2[..behind])
  {
    if i < c && j < k {
      assert s1[..lost][c - 1] == s1[c - 1] && s2[..behind][k - 1] == s2[k - 1];
    }
  }

  // ---------- closed sets of functions ----------

  ghost predicate Closed(g: set<Edge>, r: set<Function>) {
    forall e :: e in g && e.0 in r ==> e.1 in r
  }

  lemma {:induction false} StaysIn(g: set<Edge>, r: set<Function>, w: Path, p: nat, q: nat)
    requires Closed(g, r) && Chain(g, w) && p <= q < |w| && w[p] in r
    ensures w[q] in r
  {
    if p < q {
      StaysIn(g, r, w, p, q - 1);
      assert (w[q - 1], w[q - 1 + 1]) in g;
    }
  }

  lemma NotBehind(g: set<Edge>, x: Function, y: Function, r: set<Function>, w: Path)
    requires Closed(g, r) && x in r && y !in r && Chain(g, w)
    ensures forall p, q :: 0 <= p <= q < |w| && w[p] == x ==> w[q] != y
  {
    hide Closed;
    forall p, q | 0 <= p <= q < |w| && w[p] == x ensures w[q] != y {
      StaysIn(g, r, w, p, q);
    }
  }

  /** Two functions, each with a closed set that holds it and not the other, are on no walk together. */
  lemma NotTogether(g: set<Edge>, x: Function, y: Function, r: set<Function>, t: set<Function>, w: Path)
    requires Closed(g, r) && x in r && y !in r && Closed(g, t) && y in t && x !in t
    requires Chain(g, w)
    ensures !(x in w && y in w)
  {
    hide Closed;
    NotBehind(g, x, y, r, w);
    NotBehind(g, y, x, t, w);
  }

  /** Only a doubled start is repeated. */
  lemma Unrepeated(s: Path, m: nat, n: nat)
    requires Simple(Undoubled(s)) && m < n < |s| && !(m == 0 && n == 1)
    ensures s[m] != s[n]
  {
    var u := Undoubled(s);
    if |s| >= 2 && s[0] == s[1] {
      assert u[if m == 0 then 0 else m - 1] != u[n - 1];
    }
  }

  /** From `i` on `s` shares nothing with its front. */
  ghost predicate Fresh(s: Path, i: nat) {
    i <= |s| && forall m, n :: 0 <= m < i <= n < |s| ==> s[m] != s[n]
  }

  lemma FreshInFront(s: Path, i: nat)
    requires Simple(Undoubled(s)) && i <= |s| && (i == 1 && |s| >= 2 ==> s[0] != s[1])
    ensures Fresh(s, i)
  {
    forall m, n | 0 <= m < i <= n < |s| ensures s[m] != s[n] {
      if n > 1 || m > 0 {
        Unrepeated(s, m, n);
      }
    }
  }

  /** The rests of both paths from `i` and `j` on, and `d`. */
  function Rests(s1: Path, s2: Path, i: nat, j: nat, d: Function): set<Function>
    requires i <= |s1| && j <= |s2|
  {
    (set m | i <= m < |s1| :: s1[m]) + (set n | j <= n < |s2| :: s2[n]) + {d}
  }

  /** What is shared and lies in one rest lies in the other. */
  ghost predicate SharedTogether(s1: Path, s2: Path, i: nat, j: nat) {
    && (forall m, n :: i <= m < |s1| && 0 <= n < |s2| && s1[m] == s2[n] ==> n >= j)
    && (forall m, n :: 0 <= m < |s1| && j <= n < |s2| && s1[m] == s2[n] ==> m >= i)
  }

  lemma StepsStay(s: Path, other: Path, i: nat, j: nat, d: Function)
    requires Fresh(s, i) && j <= |other| && d !in s && d !in other && SharedTogether(s, other, i, j)
    ensures forall e :: e in EdgesOfPath(s + [d]) && e.0 in Rests(s, other, i, j, d) ==> e.1 in Rests(s, other, i, j, d)
  {
    hide EdgesOfPath;
    var u, r := s + [d], Rests(s, other, i, j, d);
    forall e | e in EdgesOfPath(u) && e.0 in r ensures e.1 in r {
      var m := EdgeAt(u, e);
      assert u[m] == s[m] && s[m] in s;
      assert m >= i;
    }
  }

  lemma FrontOutside(s1: Path, s2: Path, i: nat, j: nat, d: Function, m: nat)
    requires Fresh(s1, i) && j <= |s2| && d !in s1 && SharedTogether(s1, s2, i, j) && m < i
    ensures s1[m] !in Rests(s1, s2, i, j, d)
  {
    assert s1[m] in s1;
  }

  lemma Swapped(s1: Path, s2: Path, i: nat, j: nat, d: Function)
    requires i <= |s1| && j <= |s2|
    ensures Rests(s1, s2, i, j, d) == Rests(s2, s1, j, i, d)
    ensures SharedTogether(s1, s2, i, j) ==> SharedTogether(s2, s1, j, i)
  {
  }

  /** Rests that share their functions and that no added edge leaves are closed. */
  lemma RestsAreClosed(g: set<Edge>, s1: Path, s2: Path, i: nat, j: nat, c: nat, q: nat, d: Function, edges: seq<Edge>)
    requires i <= |s1| && j <= |s2| && Fresh(s1, i) && Fresh(s2, j) && SharedTogether(s1, s2, i, j) && d !in s1 && d !in s2
    requires c <= i && q <= j && LeavesFront(edges, s1[..c], s2[..q])
    requires g == EdgesOfPath(s1 + [d]) + EdgesOfPath(s2 + [d]) + set k | 0 <= k < |edges| :: edges[k]
    ensures Closed(g, Rests(s1, s2, i, j, d))
  {
    hide Rests, Fresh, SharedTogether, EdgesOfPath;
    var r := Rests(s1, s2, i, j, d);
    Swapped(s1, s2, i, j, d);
    StepsStay(s1, s2, i, j, d);
    StepsStay(s2, s1, j, i, d);
    forall k | 0 <= k < |edges| ensures edges[k].0 !in r {
      if edges[k].0 in s1[..c] {
        var m :| 0 <= m < c && s1[m] == edges[k].0;
        FrontOutside(s1, s2, i, j, d, m);
      } else {
        var n :| 0 <= n < q && s2[n] == edges[k].0;
        FrontOutside(s2, s1, j, i, d, n);
      }
    }
  }

  // ---------- the exact condition ----------

  /** Parallel functions behind a function that is lost at once: the rest of each path with the rest of
      the other behind its function is closed, so no walk has both. */
  lemma ParallelFails(g: set<Edge>, s1: Path, s2: Path, i: nat, j: nat, d: Function, edges: seq<Edge>, w: Path)
    requires Simple(Undoubled(s1)) && Simple(Undoubled(s2)) && d !in s1 && d !in s2
    requires LostAtOnce(s1, s2, FirstLost(s1, s2, 0, 0)) && FirstLost(s1, s2, 0, 0) < i < |s1| && j < |s2| && Parallel(s1, s2, i, j)
    requires edges == FindFrom(s1, s2, Filter(s1, s2), 0, -1, -1, 0)
    requires g == EdgesOfPath(s1 + [d]) + EdgesOfPath(s2 + [d]) + set k | 0 <= k < |edges| :: edges[k]
    requires Chain(g, w)
    ensures !(s1[i] in w && s2[j] in w)
  {
    hide EdgesOfPath, FindFrom, LeavesFront, Closed, Rests, FirstLost, BehindLast, Fresh, SharedTogether, Simple, Undoubled;
    var c, q := FirstLost(s1, s2, 0, 0), BehindLast(s1, s2, 0, 0);
    LastIsMatched(s1, s2, 0, 0);
    SourcesInFront(s1, s2, Filter(s1, s2), 0, 0);
    FoundFirst(s1, s2);
    ParallelIsBehind(s1, s2, i, j, c, q);
    RestsAreClosed(g, s1, s2, i, j + 1, c, q, d, edges);
    RestsAreClosed(g, s1, s2, i + 1, j, c, q, d, edges);
    RestsHold(s1, s2, i, j, d);
    NotTogether(g, s1[i], s2[j], Rests(s1, s2, i, j + 1, d), Rests(s1, s2, i + 1, j, d), w);
  }

  /** The first shared function is always found. */
  lemma FoundFirst(s1: Path, s2: Path)
    ensures FirstLost(s1, s2, 0, 0) < |s1| ==> FirstLost(s1, s2, 0, 0) > 0
  {
    var c := NextShared(s1, s2, 0);
    if c < |s1| {
      var q :| 0 <= q < |s2| && s2[q] == s1[c];
      assert NextAt(s2, 0, s1[c]) <= q;
    }
  }

  lemma ParallelIsBehind(s1: Path, s2: Path, i: nat, j: nat, c: nat, q: nat)
    requires Simple(Undoubled(s1)) && Simple(Undoubled(s2))
    requires 0 < c < i < |s1| && j < |s2| && Matched(s1, s2, c, q) && Parallel(s1, s2, i, j)
    ensures q <= j && Fresh(s1, i) && Fresh(s2, j) && Fresh(s1, i + 1) && Fresh(s2, j + 1)
    ensures SharedTogether(s1, s2, i, j + 1) && SharedTogether(s1, s2, i + 1, j)
  {
    FreshInFront(s1, i);
    FreshInFront(s1, i + 1);
    var f := s1[c - 1];
    assert f in s1 && f in s2;
    assert f !in s1[i..];
    assert f !in s2[j..];
    forall r | j <= r < |s2| ensures s2[r] in s2[j..] {
      assert s2[j..][r - j] == s2[r];
    }
    assert j == 1 ==> s2[0] in s1;
    FreshInFront(s2, j);
    FreshInFront(s2, j + 1);
    forall m, n | 0 <= m < |s1| && 0 <= n < |s2| && s1[m] == s2[n] ensures m != i && n != j && (m >= i <==> n >= j) {
      SharedOnOneSide(s1, s2, i, j, m, n);
    }
  }

  lemma SharedOnOneSide(s1: Path, s2: Path, i: nat, j: nat, m: nat, n: nat)
    requires i < |s1| && j < |s2| && Parallel(s1, s2, i, j) && Fresh(s1, i) && Fresh(s2, j)
    requires m < |s1| && n < |s2| && s1[m] == s2[n]
    ensures m != i && n != j && (m >= i <==> n >= j)
  {
    var f := s1[m];
    assert f in s1 && f in s2;
    if m >= i {
      assert s1[i..][m - i] == f;
    }
    if n >= j {
      assert s2[j..][n - j] == f;
    }
    if f in s1[i..] {
      var p :| 0 <= p < |s1| - i && s1[i..][p] == f;
      assert s1[i + p] == s1[m];
      var r :| 0 <= r < |s2| - j && s2[j..][r] == f;
      assert s2[j + r] == s2[n];
    }
  }

  lemma RestsHold(s1: Path, s2: Path, i: nat, j: nat, d: Function)
    requires i < |s1| && j < |s2| && s1[i] !in s2 && s2[j] !in s1 && d !in s1 && d !in s2
    requires Fresh(s1, i + 1) && Fresh(s2, j + 1)
    ensures s1[i] in Rests(s1, s2, i, j + 1, d) && s2[j] !in Rests(s1, s2, i, j + 1, d)
    ensures s2[j] in Rests(s1, s2, i + 1, j, d) && s1[i] !in Rests(s1, s2, i + 1, j, d)
  {
    assert s1[i] in s1 && s2[j] in s2;
  }

  /** `w` is a walk of `g` that visits every function of both paths. */
  ghost predicate VisitsBoth(g: set<Edge>, a: Path, b: Path, w: Path) {
    Chain(g, w) && Covers(w, a) && Covers(w, b)
  }

  /** The graph of two paths to `d` and their added edges has a walk through all their functions exactly
      when the paths are combinable. */
  lemma CombinesExactly(a: Path, b: Path, d: Function)
    requires a != [] && b != [] && Simple(Undoubled(a)) && Simple(Undoubled(b)) && d !in a && d !in b
    ensures (exists w :: VisitsBoth(PairGraph(a, b, d), a, b, w)) <==> Combinable(a, b)
  {
    hide Combinable, Simple, Undoubled, PairGraph, Chain, PairEdges;
    var g := PairGraph(a, b, d);
    if Combinable(a, b) {
      PairGraphHolds(a, b, d);
      var w := PairCombines(g, a, b, d);
      StepsOf(g, w, d);
      assert VisitsBoth(g, a, b, w);
    } else {
      forall w | Chain(g, w) ensures !(Covers(w, a) && Covers(w, b)) {
        NotCombinable(a, b, d, w);
      }
    }
  }

  lemma PairGraphHolds(a: Path, b: Path, d: Function)
    ensures var g := PairGraph(a, b, d); Chain(g, a + [d]) && Chain(g, b + [d]) && HasAll(g, PairEdges(a, b))
  {
    hide PairEdges, EdgesOfPath;
    PathIsChain(PairGraph(a, b, d), a + [d]);
    PathIsChain(PairGraph(a, b, d), b + [d]);
  }

  lemma NotCombinable(a: Path, b: Path, d: Function, w: Path)
    requires Simple(Undoubled(a)) && Simple(Undoubled(b)) && d !in a && d !in b
    requires !Combinable(a, b) && Chain(PairGraph(a, b, d), w)
    ensures !(Covers(w, a) && Covers(w, b))
  {
    hide Simple, Undoubled, EdgesOfPath, FindFrom, Chain, FirstLost, Parallel;
    var s1, s2 := Shorter(a, b), Longer(a, b);
    var c := FirstLost(s1, s2, 0, 0);
    var i, j :| c < i < |s1| && 0 <= j < |s2| && Parallel(s1, s2, i, j);
    OwnFunctions(s1, s2, i, j);
    FoundFirst(s1, s2);
    assert s1[i] in s1 && s1[c] in s1 && s2[j] in s2;
    assert !Belongs(a, b);
    assert s1[c] in Common(a, b);
    var edges := FindFrom(s1, s2, Filter(s1, s2), 0, -1, -1, 0);
    assert PairEdges(a, b) == edges;
    ParallelFails(PairGraph(a, b, d), s1, s2, i, j, d, edges, w);
  }

  lemma OwnFunctions(s1: Path, s2: Path, i: nat, j: nat)
    requires i < |s1| && j < |s2| && Parallel(s1, s2, i, j)
    ensures s1[i] !in s2 && s2[j] !in s1
  {
  }

  // ---------- paths that are combinable ----------

  /** From `i` and `j` on, shared functions are found ahead one after the other. */
  ghost predicate FoundAhead(s1: Path, s2: Path, i: nat, j: nat) {
    && i <= |s1| && j <= |s2|
    && (forall m :: i <= m < |s1| && s1[m] in s2 ==> exists q :: j <= q < |s2| && s2[q] == s1[m])
    && (forall m, n, p, q :: i <= m < n < |s1| && j <= p < |s2| && j <= q < |s2| && s1[m] == s2[p] && s1[n] == s2[q] ==> p < q)
  }

  lemma {:induction false} NothingLost(s1: Path, s2: Path, i: nat, j: nat)
    requires FoundAhead(s1, s2, i, j)
    ensures FirstLost(s1, s2, i, j) == |s1|
    decreases |s1| - i
  {
    hide NextAt, NextShared, FoundAhead;
    Unfolded(s1, s2, i, j);
    var c := NextShared(s1, s2, i);
    if c < |s1| {
      AheadOfNext(s1, s2, i, j, c);
      NothingLost(s1, s2, c + 1, NextAt(s2, j, s1[c]) + 1);
    }
  }

  lemma Unfolded(s1: Path, s2: Path, i: nat, j: nat)
    requires FoundAhead(s1, s2, i, j)
    ensures i <= |s1| && j <= |s2|
  {
  }

  lemma AheadOfNext(s1: Path, s2: Path, i: nat, j: nat, c: nat)
    requires FoundAhead(s1, s2, i, j) && i <= c < |s1| && s1[c] in s2
    ensures NextAt(s2, j, s1[c]) < |s2| && FoundAhead(s1, s2, c + 1, NextAt(s2, j, s1[c]) + 1)
  {
    var q :| j <= q < |s2| && s2[q] == s1[c];
    var k := NextAt(s2, j, s1[c]);
    assert k <= q;
    forall m | c + 1 <= m < |s1| && s1[m] in s2 ensures exists r :: k + 1 <= r < |s2| && s2[r] == s1[m] {
      var r :| j <= r < |s2| && s2[r] == s1[m];
      assert k < r;
    }
  }

  predicate IsDoubled(p: Path) {
    |p| >= 2 && p[0] == p[1]
  }

  /** Paths of the same order and nested paths are combinable. */
  lemma OrderedAreCombinable(a: Path, b: Path)
    requires SameOrder(a, b) || Belongs(a, b)
    ensures Combinable(a, b)
  {
    hide Parallel, FirstLost;
    var s1, s2 := Shorter(a, b), Longer(a, b);
    if SameOrder(a, b) {
      InBothOrders(a, b);
      assert FoundAhead(s1, s2, 0, 0);
      NothingLost(s1, s2, 0, 0);
    } else {
      forall i, j | 0 <= i < |s1| && 0 <= j < |s2| ensures !Parallel(s1, s2, i, j) {
        NestedNotParallel(a, b, i, j);
      }
    }
  }

  lemma NestedNotParallel(a: Path, b: Path, i: nat, j: nat)
    requires Belongs(a, b) && i < |Shorter(a, b)| && j < |Longer(a, b)|
    ensures !Parallel(Shorter(a, b), Longer(a, b), i, j)
  {
  }

  /** The scan of `s1` does not stumble over a doubled start: `s2` doubles it as well, or does not have it. */
  predicate DoublingFits(s1: Path, s2: Path) {
    IsDoubled(s1) ==> s1[0] !in s2 || (IsDoubled(s2) && s2[0] == s1[0])
  }

  /** Paths from starts that call themselves: when the functions are in the same order apart from doubled
      starts, the paths are combinable, unless only the shorter one doubles a start that both have. */
  lemma DoubledAreCombinable(a: Path, b: Path)
    requires Simple(Undoubled(a)) && Simple(Undoubled(b)) && SameOrder(Undoubled(a), Undoubled(b))
    requires DoublingFits(Shorter(a, b), Longer(a, b))
    ensures Combinable(a, b)
  {
    hide FoundAhead, Simple, SameOrder, Parallel, FirstLost;
    var s1, s2 := Shorter(a, b), Longer(a, b);
    InBothOrders(Undoubled(a), Undoubled(b));
    if IsDoubled(s1) && s1[0] in s2 {
      BothDoubled(s1, s2);
      FirstIsFound(s1, s2);
      NothingLost(s1, s2, 1, 1);
    } else {
      OtherwiseFound(s1, s2);
      NothingLost(s1, s2, 0, 0);
    }
  }

  lemma FirstIsFound(s1: Path, s2: Path)
    requires s1 != [] && s2 != [] && s1[0] == s2[0]
    ensures FirstLost(s1, s2, 0, 0) == FirstLost(s1, s2, 1, 1)
  {
  }

  lemma BothDoubled(s1: Path, s2: Path)
    requires IsDoubled(s1) && IsDoubled(s2) && s1[0] == s2[0]
    requires Simple(Undoubled(s1)) && Simple(Undoubled(s2)) && SameOrder(Undoubled(s1), Undoubled(s2))
    ensures FoundAhead(s1, s2, 1, 1)
  {
    var u1, u2 := s1[1..], s2[1..];
    assert forall m :: 1 <= m < |s1| ==> s1[m] == u1[m - 1];
    assert forall n :: 1 <= n < |s2| ==> s2[n] == u2[n - 1];
    forall m | 1 <= m < |s1| && s1[m] in s2 ensures exists q :: 1 <= q < |s2| && s2[q] == s1[m] {
      var q :| 0 <= q < |s2| && s2[q] == s1[m];
      assert s2[if q == 0 then 1 else q] == s1[m];
    }
    forall m, n, p, q | 1 <= m < n < |s1| && 1 <= p < |s2| && 1 <= q < |s2| && s1[m] == s2[p] && s1[n] == s2[q] ensures p < q {
      assert u1[m - 1] == u2[p - 1] && u1[n - 1] == u2[q - 1];
    }
  }

  /** The position of a function in a path without its doubled start. */
  function Plain(s: Path, m: nat): nat {
    if IsDoubled(s) && m > 0 then m - 1 else m
  }

  lemma PlainAt(s: Path, m: nat)
    requires m < |s|
    ensures Plain(s, m) < |Undoubled(s)| && Undoubled(s)[Plain(s, m)] == s[m]
  {
  }

  lemma OtherwiseFound(s1: Path, s2: Path)
    requires Simple(Undoubled(s1)) && Simple(Undoubled(s2)) && SameOrder(Undoubled(s1), Undoubled(s2))
    requires IsDoubled(s1) ==> s1[0] !in s2
    ensures FoundAhead(s1, s2, 0, 0)
  {
    hide Simple, Undoubled;
    forall m, n, p, q | 0 <= m < n < |s1| && 0 <= p < |s2| && 0 <= q < |s2| && s1[m] == s2[p] && s1[n] == s2[q] ensures p < q {
      PlainAt(s1, m);
      PlainAt(s1, n);
      PlainAt(s2, p);
      PlainAt(s2, q);
      assert s1[m] in s2;
      assert Plain(s1, m) < Plain(s1, n);
      assert Plain(s2, p) < Plain(s2, q);
    }
  }

  /** For paths of one length the order of the pair matters: these are combinable in one order only. */
  lemma OneOrderOnly(a: Function, b: Function, c: Function, e: Function, f: Function, x: Function)
    requires a != b && a != c && a != e && a != f && a != x && b != c && b != e && b != f && b != x
    requires c != e && c != f && c != x && e != f && e != x && f != x
    ensures Combinable([b, e, a, f], [a, b, c, x]) && !Combinable([a, b, c, x], [b, e, a, f])
  {
    hide NextAt, NextShared, FirstLost;
    var p, q := [a, b, c, x], [b, e, a, f];
    assert p[0] == a && p[1] == b && p[2] == c && p[3] == x && q[0] == b && q[1] == e && q[2] == a && q[3] == f;
    LostBehindOne(p, q, 0, 2, 1);
    LostBehindOne(q, p, 0, 1, 2);
    assert p[2..] == [c, x] && q[3..] == [f];
    assert Parallel(p, q, 2, 3);
  }

  /** The first shared function is at `i` and is found at `k`; the next one, at `c`, lies in front of that. */
  lemma LostBehindOne(s1: Path, s2: Path, i: nat, k: nat, c: nat)
    requires i < c < |s1| && k < |s2| && s1[i] == s2[k] && s1[c] in s2
    requires forall m :: 0 <= m < c && m != i ==> s1[m] !in s2
    requires (forall m :: 0 <= m < k ==> s2[m] != s1[i]) && (forall m :: k < m < |s2| ==> s2[m] != s1[c])
    ensures FirstLost(s1, s2, 0, 0) == c
  {
    assert NextShared(s1, s2, 0) == i;
    assert NextAt(s2, 0, s1[i]) == k;
    assert NextShared(s1, s2, i + 1) == c;
    assert NextAt(s2, k + 1, s1[c]) == |s2|;
  }

  /** Of two paths of one start that calls itself, only the shorter one doubles it: the second start is
      lost, and nothing joins the two stretches behind it. */
  lemma ShorterDoubledFails(s: Function, x: Function, y: Function, z: Function, d: Function)
    requires s != x && s != y && s != z && s != d && x != y && x != z && x != d && y != z && y != d && z != d
    ensures !Combinable([s, s, x], [s, y, z])
    ensures !exists w :: VisitsBoth(PairGraph([s, s, x], [s, y, z], d), [s, s, x], [s, y, z], w)
  {
    hide PairGraph, NextAt, NextShared, VisitsBoth;
    var a, b := [s, s, x], [s, y, z];
    assert a[0] == s && a[1] == s && a[2] == x && b[0] == s && b[1] == y && b[2] == z;
    FirstIsFound(a, b);
    assert NextShared(a, b, 1) == 1;
    assert NextAt(b, 1, s) == 3;
    assert FirstLost(a, b, 0, 0) == 1;
    assert a[2..] == [x] && b[1..] == [y, z];
    assert Parallel(a, b, 2, 1);
    assert Undoubled(a) == [s, x] && Undoubled(b) == b;
    CombinesExactly(a, b, d);
  }
}
