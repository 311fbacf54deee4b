/** The edges that the merge adds for two paths of the same order, told from the positions alone: they join
    stretches that face each other, in both directions. */
module Detours {
  import opened Merge
  import opened Combining

  /** A function of `s` only, at the end of its stretch of such functions. */
  predicate EndsStretch(s: Path, t: Path, p: nat)
    requires p < |s|
  {
    s[p] !in t && (p + 1 == |s| || s[p + 1] in t)
  }

  /** A function of `s` only, at the start of its stretch of such functions. */
  predicate StartsStretch(s: Path, t: Path, p: nat)
    requires p < |s|
  {
    s[p] !in t && (p == 0 || s[p - 1] in t)
  }

  /** The same shared functions lie in front of both positions. */
  ghost predicate SameFront(s: Path, t: Path, p: nat, q: nat)
    requires p <= |s| && q <= |t|
  {
    forall f :: f in s && f in t ==> (f in s[..p] <==> f in t[..q])
  }

  ghost predicate FacesAt(s: Path, t: Path, p: nat, q: nat) {
    p < |s| && q < |t| && EndsStretch(s, t, p) && StartsStretch(t, s, q) && SameFront(s, t, p, q)
  }

  /** `e` leads from the end of a stretch of `s` to the start of the stretch of `t` that faces it. */
  ghost predicate Faces(s: Path, t: Path, e: Edge) {
    exists p: nat, q: nat :: FacesAt(s, t, p, q) && e == (s[p], t[q])
  }

  /** The same for stretches from two positions on. */
  ghost predicate FacesFrom(s: Path, t: Path, i: nat, j: nat, e: Edge) {
    exists p: nat, q: nat :: p >= i && q >= j && FacesAt(s, t, p, q) && e == (s[p], t[q])
  }

  /** The stretches in front of a shared function, or of the ends of both paths. */
  ghost predicate Stretches(s: Path, t: Path, i: nat, j: nat, c: nat, k: nat) {
    && SameOrder(s, t) && Aligned(s, t, i, j) && i <= c <= |s| && j <= k <= |t|
    && (forall m :: i <= m < c ==> s[m] !in t) && (forall m :: j <= m < k ==> t[m] !in s)
    && (c == |s| <==> k == |t|) && (c < |s| ==> s[c] == t[k])
  }

  lemma Turned(s: Path, t: Path, i: nat, j: nat, c: nat, k: nat)
    requires Stretches(s, t, i, j, c, k)
    ensures Stretches(t, s, j, i, k, c)
  {
    InBothOrders(s, t);
  }

  /** Where shared functions lie relative to a shared function at `m` in one path and at `n` in the other. */
  lemma InFrontOfShared(s: Path, t: Path, m: nat, n: nat, p: nat, q: nat)
    requires SameOrder(s, t) && m < |s| && n < |t| && s[m] == t[n] && p < |s| && q < |t| && s[p] == t[q]
    ensures (p < m <==> q < n) && (p == m <==> q == n)
  {
  }

  lemma FrontOfStretches(s: Path, t: Path, i: nat, j: nat, c: nat, k: nat, p: nat, q: nat)
    requires Stretches(s, t, i, j, c, k) && i <= p <= c && j <= q <= k
    ensures SameFront(s, t, p, q)
  {
    forall f | f in s && f in t ensures f in s[..p] <==> f in t[..q] {
      var m :| 0 <= m < |s| && s[m] == f;
      var n :| 0 <= n < |t| && t[n] == f;
      forall m' | 0 <= m' < |s| && s[m'] == f ensures m' == m {
        InFrontOfShared(s, t, m, n, m', n);
      }
      forall n' | 0 <= n' < |t| && t[n'] == f ensures n' == n {
        InFrontOfShared(s, t, m, n, m, n');
      }
      BeforeOrBehind(s, t, i, j, c, k, m, n);
      InSlice(s, p, m);
      InSlice(t, q, n);
    }
  }

  /** A function that occurs once lies in front of a position if its own position does. */
  lemma InSlice(s: Path, p: nat, m: nat)
    requires p <= |s| && m < |s| && forall m' :: 0 <= m' < |s| && s[m'] == s[m] ==> m' == m
    ensures s[m] in s[..p] <==> m < p
  {
    if m < p {
      assert s[..p][m] == s[m];
    }
  }

  lemma BeforeOrBehind(s: Path, t: Path, i: nat, j: nat, c: nat, k: nat, m: nat, n: nat)
    requires Stretches(s, t, i, j, c, k) && m < |s| && n < |t| && s[m] == t[n]
    ensures (m < i && n < j) || (m >= c && n >= k)
  {
    if i > 0 {
      InFrontOfShared(s, t, i - 1, j - 1, m, n);
    }
    if c < |s| {
      InFrontOfShared(s, t, c, k, m, n);
    }
  }

  /** Facing stretches from `i` and `j` on are the next two, or lie behind the next shared function. */
  lemma NextFacing(s: Path, t: Path, i: nat, j: nat, c: nat, k: nat, e: Edge)
    requires Stretches(s, t, i, j, c, k)
    ensures FacesFrom(s, t, i, j, e) <==>
      (i < c && j < k && e == (s[c - 1], t[j])) || (c < |s| && FacesFrom(s, t, c + 1, k + 1, e))
  {
    hide SameFront, SameOrder;
    if p: nat, q: nat :| p >= i && q >= j && FacesAt(s, t, p, q) && e == (s[p], t[q]) {
      WhichFaces(s, t, i, j, c, k, p, q);
    }
    if i < c && j < k && e == (s[c - 1], t[j]) {
      FrontOfStretches(s, t, i, j, c, k, c - 1, j);
      assert FacesAt(s, t, c - 1, j);
    }
  }

  lemma WhichFaces(s: Path, t: Path, i: nat, j: nat, c: nat, k: nat, p: nat, q: nat)
    requires Stretches(s, t, i, j, c, k) && p >= i && q >= j && FacesAt(s, t, p, q)
    ensures (i < c && j < k && p == c - 1 && q == j) || (c < |s| && p >= c + 1 && q >= k + 1)
  {
    hide SameOrder;
    if p < c {
      assert p == c - 1;
      if c < |s| {
        ShareFront(s, t, i, j, c, k, p, q);
      }
      assert q < k;
    } else {
      assert p > c && c < |s|;
      assert s[..p][c] == s[c];
      assert t[k] in t[..q];
      ShareFront(s, t, i, j, c, k, p, q);
    }
  }

  lemma ShareFront(s: Path, t: Path, i: nat, j: nat, c: nat, k: nat, p: nat, q: nat)
    requires Stretches(s, t, i, j, c, k) && c < |s| && p <= |s| && q <= |t| && SameFront(s, t, p, q)
    ensures p > c <==> q > k
  {
    forall m' | 0 <= m' < |s| && s[m'] == s[c] ensures m' == c {
      InFrontOfShared(s, t, c, k, m', k);
    }
    forall n' | 0 <= n' < |t| && t[n'] == t[k] ensures n' == k {
      InFrontOfShared(s, t, c, k, c, n');
    }
    InSlice(s, p, c);
    InSlice(t, q, k);
  }

  /** The scan of paths of the same order visits their stretches. */
  lemma ScanStretches(s1: Path, s2: Path, i: nat, j: nat)
    requires SameOrder(s1, s2) && Aligned(s1, s2, i, j)
    ensures var c := NextShared(s1, s2, i);
      Stretches(s1, s2, i, j, c, if c == |s1| then |s2| else NextAt(s2, j, s1[c]))
  {
    hide NextShared, NextAt, SameOrder;
    var c := NextShared(s1, s2, i);
    SharedAhead(s1, s2, i, j);
    var k := if c == |s1| then |s2| else NextAt(s2, j, s1[c]);
    forall m | j <= m < k ensures s2[m] !in s1 {
      if s2[m] in s1 {
        var r :| 0 <= r < |s1| && s1[r] == s2[m];
        if i > 0 {
          InFrontOfShared(s1, s2, i - 1, j - 1, r, m);
        }
        if c < |s1| {
          InFrontOfShared(s1, s2, c, k, r, m);
        }
      }
    }
  }

  /** The scan adds exactly the edges between facing stretches. */
  lemma {:induction false} FindFaces(s1: Path, s2: Path, common: Path, i: nat, j: nat, e: Edge)
    requires SameOrder(s1, s2) && Aligned(s1, s2, i, j) && AreShared(common, s1, s2)
    ensures e in FindFrom(s1, s2, common, i, -1, -1, j) <==> FacesFrom(s1, s2, i, j, e) || FacesFrom(s2, s1, j, i, e)
    decreases |s1| - i
  {
    hide FindFrom, NextShared, NextAt, SameOrder, FacesFrom, AreShared;
    var c := NextShared(s1, s2, i);
    var k := if c == |s1| then |s2| else NextAt(s2, j, s1[c]);
    ScanStretches(s1, s2, i, j);
    Turned(s1, s2, i, j, c, k);
    NextFacing(s1, s2, i, j, c, k, e);
    NextFacing(s2, s1, j, i, k, c, e);
    OrderedStretch(s1, s2, common, i, j);
    if c < |s1| {
      FindFaces(s1, s2, common, c + 1, k + 1, e);
    } else if !(i < |s1| && j < |s2|) {
      NothingFaces(s1, s2, common, i, j);
    }
  }

  lemma NothingFaces(s1: Path, s2: Path, common: Path, i: nat, j: nat)
    requires i <= |s1| && j <= |s2| && AreShared(common, s1, s2) && NextShared(s1, s2, i) == |s1| && !(i < |s1| && j < |s2|)
    ensures FindFrom(s1, s2, common, i, -1, -1, j) == []
  {
    hide FindFrom, NextShared;
    FindStretch(s1, s2, common, i, j);
  }

  lemma FacesAll(s: Path, t: Path, e: Edge)
    ensures Faces(s, t, e) <==> FacesFrom(s, t, 0, 0, e)
  {
    hide FacesAt;
  }

  lemma CommonIsShared(s1: Path, s2: Path)
    ensures AreShared(Filter(s1, s2), s1, s2)
  {
  }

  /** For paths whose shared functions occur in the same order, disjoint and nested ones included, the added
      edges are exactly those from the end of a stretch to the start of the stretch that faces it, in both
      directions. */
  lemma EdgesExactly(a: Path, b: Path, e: Edge)
    requires a != [] && b != [] && SameOrder(a, b)
    ensures e in PairEdges(a, b) <==> Faces(a, b, e) || Faces(b, a, e)
  {
    hide FindFrom, SameOrder, Faces;
    var s1, s2 := Shorter(a, b), Longer(a, b);
    if Belongs(a, b) {
      NestedFaceNothing(a, b, e);
    } else if Common(a, b) == [] {
      NoCommon(a, b);
      OneFaces(a, b, e);
      OneFaces(b, a, e);
    } else {
      InBothOrders(a, b);
      CommonIsShared(s1, s2);
      FindFaces(s1, s2, Common(a, b), 0, 0, e);
      FacesAll(s1, s2, e);
      FacesAll(s2, s1, e);
    }
  }

  lemma NestedFaceNothing(a: Path, b: Path, e: Edge)
    requires Belongs(a, b)
    ensures !Faces(a, b, e) && !Faces(b, a, e)
  {
    hide SameFront;
    var s, t := Shorter(a, b), Longer(a, b);
    forall p: nat, q: nat ensures !FacesAt(s, t, p, q) && !FacesAt(t, s, p, q) {
    }
  }

  /** A stretch of one of two disjoint paths is the whole path. */
  lemma OneFaces(s: Path, t: Path, e: Edge)
    requires s != [] && t != [] && forall f :: f in s ==> f !in t
    ensures Faces(s, t, e) <==> e == (s[|s| - 1], t[0])
  {
    forall p: nat, q: nat ensures FacesAt(s, t, p, q) <==> p == |s| - 1 && q == 0 {
      if p < |s| && q < |t| {
        OwnStretch(s, t, p);
        OwnStretch(t, s, q);
      }
    }
  }

  lemma OwnStretch(s: Path, t: Path, p: nat)
    requires p < |s| && forall f :: f in s ==> f !in t
    ensures (EndsStretch(s, t, p) <==> p == |s| - 1) && (StartsStretch(s, t, p) <==> p == 0)
  {
    assert forall m :: 0 <= m < |s| ==> s[m] in s;
  }

  lemma NoCommon(a: Path, b: Path)
    ensures Common(a, b) == [] <==> forall f :: f in a ==> f !in b
  {
    hide Filter;
    if Common(a, b) != [] {
      assert Common(a, b)[0] in Filter(Shorter(a, b), Longer(a, b));
    }
    if f :| f in a && f in b {
      assert f in Filter(Shorter(a, b), Longer(a, b));
    }
  }

  // ---------- walks in either order ----------

  /** Once the facing stretches of two paths to `d` are joined, the stretches can be walked in any order:
      for every choice of the places where the stretch of the longer path goes first there is a walk to `d`
      through both paths that goes through the stretches in this order. */
  lemma AnyOrderWalks(g: set<Edge>, a: Path, b: Path, d: Function, swaps: set<nat>)
    requires a != [] && b != [] && SameOrder(a, b) && !Belongs(a, b)
    requires Chain(g, a + [d]) && Chain(g, b + [d])
    requires forall e :: Faces(a, b, e) || Faces(b, a, e) ==> e in g
    ensures var w := Merged(Shorter(a, b), Longer(a, b), 0, 0, swaps);
      Chain(g, w + [d]) && Covers(w, a) && Covers(w, b)
  {
    hide FindFrom, SameOrder, Faces, Merged, Filter, Chain;
    var s1, s2 := Shorter(a, b), Longer(a, b);
    InBothOrders(a, b);
    CommonIsShared(s1, s2);
    forall e | e in FindFrom(s1, s2, Filter(s1, s2), 0, -1, -1, 0) ensures e in g {
      FindFaces(s1, s2, Filter(s1, s2), 0, 0, e);
      FacesAll(s1, s2, e);
      FacesAll(s2, s1, e);
    }
    var w := OrderedMerges(g, s1, s2, d, swaps);
  }

  /** Two disjoint paths to `d` can be walked one behind the other in either order, from either start. */
  lemma DisjointWalks(g: set<Edge>, a: Path, b: Path, d: Function)
    requires a != [] && b != [] && (forall f :: f in a ==> f !in b)
    requires Chain(g, a + [d]) && Chain(g, b + [d]) && HasAll(g, PairEdges(a, b))
    ensures Chain(g, a + b + [d]) && Chain(g, b + a + [d])
  {
    hide FindFrom, Filter, Chain, Faces;
    NoCommon(a, b);
    NothingShared(a, b);
    Joins(g, a, b, (a[|a| - 1], b[0]));
    Joins(g, a, b, (b[|b| - 1], a[0]));
    OneBehind(g, a, b, d);
    OneBehind(g, b, a, d);
  }

  lemma Joins(g: set<Edge>, a: Path, b: Path, e: Edge)
    requires a != [] && b != [] && SameOrder(a, b) && (forall f :: f in a ==> f !in b) && HasAll(g, PairEdges(a, b))
    requires e == (a[|a| - 1], b[0]) || e == (b[|b| - 1], a[0])
    ensures e in g
  {
    hide Faces, SameOrder, FindFrom, Filter;
    EdgesExactly(a, b, e);
    OneFaces(a, b, e);
    OneFaces(b, a, e);
  }

  lemma OneBehind(g: set<Edge>, a: Path, b: Path, d: Function)
    requires a != [] && b != [] && Chain(g, a + [d]) && Chain(g, b + [d]) && (a[|a| - 1], b[0]) in g
    ensures Chain(g, a + b + [d])
  {
    StepsOf(g, a, d);
    ChainJoins(g, a, b + [d]);
    assert a + (b + [d]) == a + b + [d];
  }
}
