/** Bounded enumeration of the acyclic paths from the start functions. */
module AcyclicPaths {
  import opened Merge
  import opened UpdateFwrg

  // ---------- the paths that are looked for ----------

  function Children(g: Graph, f: Function): seq<Function> {
    if f in g then g[f] else []
  }

  ghost predicate Follows(g: Graph, r: Path) {
    forall i :: 0 <= i < |r| - 1 ==> r[i + 1] in Children(g, r[i])
  }

  /** A simple path of the graph that starts at `s`. */
  ghost predicate SimplePath(g: Graph, s: Function, r: Path) {
    r != [] && r[0] == s && Simple(r) && Follows(g, r)
  }

  /** `s` is among its own children, in front of `c`. */
  ghost predicate LoopBefore(g: Graph, s: Function, c: Function) {
    exists i, j :: 0 <= i < j < |Children(g, s)| && Children(g, s)[i] == s && Children(g, s)[j] == c
  }

  /** How the enumeration writes a simple path: when the start calls itself, the children that come
      after it are reached through a doubled start. */
  ghost function Written(g: Graph, r: Path): Path {
    if |r| >= 2 && LoopBefore(g, r[0], r[1]) then [r[0]] + r else r
  }

  /** `p` writes a simple path of `n` functions from `s`. */
  ghost predicate Writes(g: Graph, s: Function, p: Path, n: nat) {
    SimplePath(g, s, Undoubled(p)) && |Undoubled(p)| == n && p == Written(g, Undoubled(p))
  }

  lemma WrittenIsUndone(g: Graph, r: Path)
    requires Simple(r)
    ensures Undoubled(Written(g, r)) == r
  {
    if |r| >= 2 {
      assert r[0] != r[1];
    }
  }

  lemma WrittenGrows(g: Graph, r: Path, c: Function)
    requires |r| >= 2
    ensures Written(g, r + [c]) == Written(g, r) + [c]
  {
  }

  // ---------- one level of the enumeration ----------

  /** The path as it stands when its `m`-th child is looked at: a self-call has doubled a lone start. */
  function Current(g: Graph, path: Path, m: nat): Path
    requires path != [] && m <= |Children(g, path[|path| - 1])|
  {
    if |path| == 1 && path[0] in Children(g, path[0])[..m] then path + path else path
  }

  ghost predicate Extends(g: Graph, path: Path, p: Path) {
    path != [] && var cs := Children(g, path[|path| - 1]);
    exists m :: 0 <= m < |cs| && cs[m] !in path && p == Current(g, path, m) + [cs[m]]
  }

  ghost predicate Ends(g: Graph, path: Path, p: Path) {
    path != [] && var cs := Children(g, path[|path| - 1]);
    (cs == [] && p == path) || exists m :: 0 <= m < |cs| && cs[m] in path && p == Current(g, path, m + 1)
  }

  /** The loop over the children of one path. A self-call of a lone start changes `path` itself. */
  method ExtendPath(g: Graph, path0: Path, all: seq<Path>, derived: seq<Path>) returns (all': seq<Path>, derived': seq<Path>)
    requires path0 != []
    ensures forall p :: p in all' <==> p in all || Ends(g, path0, p)
    ensures forall p :: p in derived' <==> p in derived || Extends(g, path0, p)
  {
    hide Current, EndsBefore, ExtendsBefore;
    all', derived' := all, derived;
    var path, children := path0, Children(g, path0[|path0| - 1]);
    if |children| == 0 {
      if path !in all' {
        all' := all' + [path];
      }
      return;
    }
    Starts(g, path0);
    for m := 0 to |children|
      invariant path == Current(g, path0, m)
      invariant forall p :: p in all' <==> p in all || EndsBefore(g, path0, p, m)
      invariant forall p :: p in derived' <==> p in derived || ExtendsBefore(g, path0, p, m)
    {
      ChildStep(g, path0, m);
      if children[m] in path {
        if children[m] == path[0] && |path| == 1 {
          path := path + [children[m]];
        }
        if path !in all' {
          all' := all' + [path];
        }
      } else {
        derived' := derived' + [path + [children[m]]];
      }
    }
    Finishes(g, path0);
  }

  lemma Starts(g: Graph, path: Path)
    requires path != []
    ensures Current(g, path, 0) == path
    ensures forall p :: !EndsBefore(g, path, p, 0) && !ExtendsBefore(g, path, p, 0)
  {
  }

  lemma Finishes(g: Graph, path: Path)
    requires path != []
    ensures var n := |Children(g, path[|path| - 1])|;
      n > 0 ==> forall p :: (EndsBefore(g, path, p, n) <==> Ends(g, path, p)) && (ExtendsBefore(g, path, p, n) <==> Extends(g, path, p))
  {
  }

  lemma ChildStep(g: Graph, path: Path, m: nat)
    requires path != [] && m < |Children(g, path[|path| - 1])|
    ensures var c, now := Children(g, path[|path| - 1])[m], Current(g, path, m);
      && now != [] && (c in now <==> c in path)
      && Current(g, path, m + 1) == (if c in now && c == now[0] && |now| == 1 then now + [c] else now)
      && (forall p :: EndsBefore(g, path, p, m + 1) <==> EndsBefore(g, path, p, m) || (c in path && p == Current(g, path, m + 1)))
      && (forall p :: ExtendsBefore(g, path, p, m + 1) <==> ExtendsBefore(g, path, p, m) || (c !in path && p == now + [c]))
  {
    hide EndsBefore, ExtendsBefore;
    var cs := Children(g, path[|path| - 1]);
    assert cs[..m + 1] == cs[..m] + [cs[m]];
    assert path[0] in path;
    forall p
      ensures EndsBefore(g, path, p, m + 1) <==> EndsBefore(g, path, p, m) || (cs[m] in path && p == Current(g, path, m + 1))
      ensures ExtendsBefore(g, path, p, m + 1) <==> ExtendsBefore(g, path, p, m) || (cs[m] !in path && p == Current(g, path, m) + [cs[m]])
    {
      BeforeStep(g, path, m, p);
    }
  }

  lemma BeforeStep(g: Graph, path: Path, m: nat, p: Path)
    requires path != [] && m < |Children(g, path[|path| - 1])|
    ensures var c := Children(g, path[|path| - 1])[m];
      && (EndsBefore(g, path, p, m + 1) <==> EndsBefore(g, path, p, m) || (c in path && p == Current(g, path, m + 1)))
      && (ExtendsBefore(g, path, p, m + 1) <==> ExtendsBefore(g, path, p, m) || (c !in path && p == Current(g, path, m) + [c]))
  {
    hide Current;
  }

  ghost predicate EndsBefore(g: Graph, path: Path, p: Path, n: nat)
    requires path != [] && n <= |Children(g, path[|path| - 1])|
  {
    var cs := Children(g, path[|path| - 1]);
    exists m :: 0 <= m < n && cs[m] in path && p == Current(g, path, m + 1)
  }

  ghost predicate ExtendsBefore(g: Graph, path: Path, p: Path, n: nat)
    requires path != [] && n <= |Children(g, path[|path| - 1])|
  {
    var cs := Children(g, path[|path| - 1]);
    exists m :: 0 <= m < n && cs[m] !in path && p == Current(g, path, m) + [cs[m]]
  }

  /** One level: every path of the level is extended. */
  method NextLevel(g: Graph, paths: seq<Path>, all: seq<Path>) returns (all': seq<Path>, derived: seq<Path>)
    requires forall i :: 0 <= i < |paths| ==> paths[i] != []
    ensures forall p :: p in all' <==> p in all || exists path :: path in paths && Ends(g, path, p)
    ensures forall p :: p in derived <==> exists path :: path in paths && Extends(g, path, p)
  {
    hide Ends, Extends;
    all', derived := all, [];
    for i := 0 to |paths|
      invariant forall p :: p in all' <==> p in all || exists path :: path in paths[..i] && Ends(g, path, p)
      invariant forall p :: p in derived <==> exists path :: path in paths[..i] && Extends(g, path, p)
    {
      all', derived := ExtendPath(g, paths[i], all', derived);
      assert paths[..i + 1] == paths[..i] + [paths[i]];
    }
    assert paths[..|paths|] == paths;
  }

  // ---------- all levels ----------

  /** The paths of level `n`: exactly the writings of the simple paths of `n` functions. */
  ghost predicate IsLevel(g: Graph, s: Function, paths: seq<Path>, n: nat) {
    forall p :: p in paths <==> Writes(g, s, p, n)
  }

  /** A lone start that calls itself. */
  ghost predicate Doubled(g: Graph, s: Function, p: Path) {
    s in Children(g, s) && p == [s, s]
  }

  /** The paths kept for a start: writings of simple paths of at most `n` functions, or the doubled start. */
  ghost predicate Kept(g: Graph, s: Function, p: Path, n: nat) {
    Doubled(g, s, p) || exists k: nat :: k <= n && Writes(g, s, p, k)
  }

  ghost predicate Prefixed(p: Path, all: seq<Path>) {
    exists q :: q in all && p <= q
  }

  /** Every simple path of at most `n` functions is the beginning of a kept path. */
  ghost predicate AllPrefixed(g: Graph, s: Function, all: seq<Path>, n: nat) {
    forall r :: SimplePath(g, s, r) && 2 <= |r| <= n ==> Prefixed(Written(g, r), all)
  }

  /** What the enumeration from one start returns. */
  ghost predicate Explored(g: Graph, s: Function, all: seq<Path>, limit: nat) {
    && (forall p :: p in all ==> Kept(g, s, p, limit))
    && AllPrefixed(g, s, all, limit)
    && (limit >= 2 && s in Children(g, s) ==> [s, s] in all)
    && (limit < 2 ==> [s, s] !in all)
  }

  lemma Undo(p: Path)
    requires |p| >= 1
    ensures |Undoubled(p)| >= 1 && Undoubled(p)[|Undoubled(p)| - 1] == p[|p| - 1] && Undoubled(p)[0] == p[0]
    ensures |p| >= 2 ==> (forall c :: c in p <==> c in Undoubled(p))
  {
    if |p| >= 2 && p[0] == p[1] {
      assert forall c :: c in p ==> c in p[1..];
    }
  }

  /** The first child of a path's last function extends it in the way `Written` says. */
  lemma CurrentIsWritten(g: Graph, s: Function, path: Path, n: nat, m: nat)
    requires UniqueChildren(g) && Writes(g, s, path, n) && m < |Children(g, path[|path| - 1])|
    requires Children(g, path[|path| - 1])[m] !in path
    ensures Current(g, path, m) + [Children(g, path[|path| - 1])[m]] == Written(g, Undoubled(path) + [Children(g, path[|path| - 1])[m]])
  {
    var cs := Children(g, path[|path| - 1]);
    if |path| == 1 {
      assert LoopBefore(g, s, cs[m]) <==> s in cs[..m];
    } else {
      WrittenGrows(g, Undoubled(path), cs[m]);
    }
  }

  lemma WritesWritten(g: Graph, s: Function, r: Path)
    requires SimplePath(g, s, r)
    ensures Writes(g, s, Written(g, r), |r|)
  {
    hide Written, Undoubled, Simple, Follows;
    WrittenIsUndone(g, r);
  }

  lemma SimpleGrows(g: Graph, s: Function, r: Path, c: Function)
    requires r != []
    ensures SimplePath(g, s, r + [c]) <==> SimplePath(g, s, r) && c !in r && c in Children(g, r[|r| - 1])
  {
    var rc := r + [c];
    if SimplePath(g, s, rc) {
      assert rc[|r|] in Children(g, rc[|r| - 1]);
      forall i | 0 <= i < |r| - 1 ensures r[i + 1] in Children(g, r[i]) {
        assert rc[i + 1] in Children(g, rc[i]);
      }
      forall i | 0 <= i < |r| ensures r[i] != c {
        assert rc[i] != rc[|r|];
      }
      forall i, j | 0 <= i < j < |r| ensures r[i] != r[j] {
        assert rc[i] != rc[j];
      }
    }
  }

  lemma ExtendsIsNext(g: Graph, s: Function, path: Path, p: Path, n: nat)
    requires UniqueChildren(g) && Writes(g, s, path, n) && n >= 1 && Extends(g, path, p)
    ensures Writes(g, s, p, n + 1)
  {
    hide SimplePath, Written, Current, UniqueChildren;
    var cs := Children(g, path[|path| - 1]);
    var m :| 0 <= m < |cs| && cs[m] !in path && p == Current(g, path, m) + [cs[m]];
    CurrentIsWritten(g, s, path, n, m);
    var r := Undoubled(path);
    Undo(path);
    assert cs[m] !in r;
    SimpleGrows(g, s, r, cs[m]);
    WritesWritten(g, s, r + [cs[m]]);
  }

  lemma NextIsExtension(g: Graph, s: Function, p: Path, n: nat) returns (path: Path)
    requires UniqueChildren(g) && Writes(g, s, p, n + 1) && n >= 1
    ensures Writes(g, s, path, n) && Extends(g, path, p)
  {
    hide SimplePath, Written, Current, UniqueChildren;
    var r, c := Undoubled(p)[..n], Undoubled(p)[n];
    assert Undoubled(p) == r + [c];
    SimpleGrows(g, s, r, c);
    path := Written(g, r);
    WritesWritten(g, s, r);
    WrittenKeeps(g, r);
    var cs := Children(g, path[|path| - 1]);
    var m :| 0 <= m < |cs| && cs[m] == c;
    WrittenIsUndone'(g, s, r);
    CurrentIsWritten(g, s, path, n, m);
  }

  lemma WrittenIsUndone'(g: Graph, s: Function, r: Path)
    requires SimplePath(g, s, r)
    ensures Undoubled(Written(g, r)) == r
  {
    WrittenIsUndone(g, r);
  }

  lemma WrittenKeeps(g: Graph, r: Path)
    requires r != []
    ensures Written(g, r) != [] && Written(g, r)[|Written(g, r)| - 1] == r[|r| - 1]
    ensures forall c :: c in Written(g, r) <==> c in r
    ensures |Written(g, r)| == 1 <==> |r| == 1
  {
  }

  lemma LevelStep(g: Graph, s: Function, paths: seq<Path>, derived: seq<Path>, n: nat)
    requires UniqueChildren(g) && IsLevel(g, s, paths, n) && n >= 1
    requires forall p :: p in derived <==> exists path :: path in paths && Extends(g, path, p)
    ensures IsLevel(g, s, derived, n + 1)
  {
    hide Writes, Extends, UniqueChildren;
    forall p ensures p in derived <==> Writes(g, s, p, n + 1) {
      if p in derived {
        var path :| path in paths && Extends(g, path, p);
        ExtendsIsNext(g, s, path, p, n);
      }
      if Writes(g, s, p, n + 1) {
        var path := NextIsExtension(g, s, p, n);
      }
    }
  }

  lemma EndsIsKept(g: Graph, s: Function, path: Path, p: Path, n: nat)
    requires Writes(g, s, path, n) && Ends(g, path, p)
    ensures Kept(g, s, p, n) && (p == path || (|path| == 1 && Doubled(g, s, p)))
  {
    hide Written;
    var cs := Children(g, path[|path| - 1]);
    Undo(path);
    if cs != [] {
      var m :| 0 <= m < |cs| && cs[m] in path && p == Current(g, path, m + 1);
      if |path| == 1 {
        assert path == [s];
        assert p == path || p == path + path;
        assert path + path == [s, s];
      }
    }
  }

  /** A path of a level lives on: it is kept, or begins a path of the next level. */
  lemma LivesOn(g: Graph, path: Path) returns (q: Path)
    requires |path| >= 2
    ensures path <= q && (Ends(g, path, q) || Extends(g, path, q))
  {
    var cs := Children(g, path[|path| - 1]);
    q := path;
    if cs != [] {
      assert Current(g, path, 0) == path && Current(g, path, 1) == path;
      if cs[0] !in path {
        q := path + [cs[0]];
        assert Extends(g, path, q);
      } else {
        assert Ends(g, path, q);
      }
    }
  }

  lemma PrefixStep(g: Graph, s: Function, paths: seq<Path>, all: seq<Path>, derived: seq<Path>, all': seq<Path>, n: nat)
    requires AllPrefixed(g, s, all + paths, n) && IsLevel(g, s, derived, n + 1)
    requires forall p :: p in all' <==> p in all || exists path :: path in paths && Ends(g, path, p)
    requires forall p :: p in derived <==> exists path :: path in paths && Extends(g, path, p)
    ensures AllPrefixed(g, s, all' + derived, n + 1)
  {
    hide Ends, Extends, Written, SimplePath, Writes;
    forall r | SimplePath(g, s, r) && 2 <= |r| <= n + 1 ensures Prefixed(Written(g, r), all' + derived) {
      if |r| == n + 1 {
        WritesWritten(g, s, r);
        assert Written(g, r) in derived;
        assert Written(g, r) in all' + derived && Written(g, r) <= Written(g, r);
      } else {
        assert Prefixed(Written(g, r), all + paths);
        var q :| q in all + paths && Written(g, r) <= q;
        WrittenLong(g, r);
        if q in paths {
          var q' := LivesOn(g, q);
          assert q' in all' + derived && Written(g, r) <= q';
        } else {
          assert q in all' + derived;
        }
      }
    }
  }

  lemma WrittenLong(g: Graph, r: Path)
    ensures |Written(g, r)| >= |r|
  {
  }

  lemma FirstLevel(g: Graph, s: Function)
    ensures IsLevel(g, s, [[s]], 1)
  {
    forall p ensures p in [[s]] <==> Writes(g, s, p, 1) {
      if Writes(g, s, p, 1) {
        assert p == Undoubled(p) == [s];
      }
    }
  }

  lemma KeptLonger(g: Graph, s: Function, p: Path, n: nat, m: nat)
    requires Kept(g, s, p, n) && n <= m
    ensures Kept(g, s, p, m)
  {
    hide Writes;
  }

  /** A start that calls itself is kept doubled. */
  lemma DoubledIsKept(g: Graph, s: Function)
    requires s in Children(g, s)
    ensures Ends(g, [s], [s, s])
  {
    var cs := Children(g, s);
    var m :| 0 <= m < |cs| && cs[m] == s;
    assert s in cs[..m + 1] by { assert cs[..m + 1][m] == s; }
    assert [s] + [s] == [s, s];
    assert cs[m] in [s] && [s, s] == Current(g, [s], m + 1);
  }

  lemma WritesNonEmpty(g: Graph, s: Function, p: Path, n: nat)
    requires Writes(g, s, p, n)
    ensures p != [] && p != [s, s]
  {
  }

  /** All levels, from the lone start up to the length limit. */
  method DerivePaths(g: Graph, s: Function, limit: nat) returns (all: seq<Path>)
    requires UniqueChildren(g)
    ensures Explored(g, s, all, if limit == 0 then 1 else limit)
  {
    hide Writes, Ends, Extends, UniqueChildren, Kept, AllPrefixed;
    all := [];
    var paths := [[s]];
    FirstLevel(g, s);
    assert AllPrefixed(g, s, all + paths, 1) by { NothingShort(g, s, all + paths); }
    for i := 0 to if limit == 0 then 0 else limit - 1
      invariant IsLevel(g, s, paths, i + 1)
      invariant forall p :: p in all ==> Kept(g, s, p, i)
      invariant AllPrefixed(g, s, all + paths, i + 1)
      invariant i > 0 && s in Children(g, s) ==> [s, s] in all
      invariant i == 0 ==> all == []
    {
      forall k | 0 <= k < |paths| ensures paths[k] != [] {
        WritesNonEmpty(g, s, paths[k], i + 1);
      }
      ghost var all0, paths0 := all, paths;
      all, paths := NextLevel(g, paths, all);
      LevelStep(g, s, paths0, paths, i + 1);
      PrefixStep(g, s, paths0, all0, paths, all, i + 1);
      forall p | p in all ensures Kept(g, s, p, i + 1) {
        if p in all0 {
          KeptLonger(g, s, p, i, i + 1);
        } else {
          var path :| path in paths0 && Ends(g, path, p);
          EndsIsKept(g, s, path, p, i + 1);
        }
      }
      if i == 0 && s in Children(g, s) {
        LoneStart(g, s, paths0);
        DoubledIsKept(g, s);
      }
    }
    var n := if limit == 0 then 1 else limit;
    Finished(g, s, all, paths, n);
    all := all + paths;
  }

  lemma NothingShort(g: Graph, s: Function, all: seq<Path>)
    ensures AllPrefixed(g, s, all, 1)
  {
  }

  lemma LoneStart(g: Graph, s: Function, paths: seq<Path>)
    requires IsLevel(g, s, paths, 1)
    ensures [s] in paths
  {
    assert Undoubled([s]) == [s];
    assert Writes(g, s, [s], 1);
  }

  lemma Finished(g: Graph, s: Function, all: seq<Path>, paths: seq<Path>, n: nat)
    requires n >= 1 && IsLevel(g, s, paths, n) && AllPrefixed(g, s, all + paths, n)
    requires forall p :: p in all ==> Kept(g, s, p, n - 1)
    requires n > 1 && s in Children(g, s) ==> [s, s] in all
    requires n == 1 ==> all == []
    ensures Explored(g, s, all + paths, n)
  {
    hide Writes, AllPrefixed;
    forall p | p in all + paths ensures Kept(g, s, p, n) {
      if p in all {
        KeptLonger(g, s, p, n - 1, n);
      } else {
        assert Writes(g, s, p, n);
      }
    }
    if n < 2 && [s, s] in all + paths {
      WritesNonEmpty(g, s, [s, s], n);
    }
  }

  // ---------- organizing the kept paths ----------

  /** The beginnings of a path that end in a deep function, except the start itself. */
  ghost predicate CutOf(q: Path, dk: seq<Function>, d: Function, p: Path) {
    d in dk && exists n :: 1 <= n < |q| && q[n] == d && p == q[..n + 1]
  }

  /** Paths are stored by their number of edges, and no class holds a path twice. */
  ghost predicate TableShape(table: PathTable) {
    && (forall d, n, p :: d in table && n in table[d] && p in table[d][n] ==> n == |p| - 1)
    && (forall d, n, i, j :: d in table && n in table[d] && 0 <= i < j < |table[d][n]| ==> table[d][n][i] != table[d][n][j])
    && (forall d :: d in table ==> exists p :: Stored(table, d, p))
  }

  method OrganizePaths(paths: map<Function, seq<Path>>, dk: seq<Function>) returns (table: PathTable)
    ensures TableShape(table)
    ensures forall d, p :: Stored(table, d, p) <==> exists s, q :: s in paths && q in paths[s] && CutOf(q, dk, d, p)
  {
    hide CutOf, Stored, TableShape;
    table := map[];
    EmptyTable();
    var starts := paths.Keys;
    while starts != {}
      invariant starts <= paths.Keys
      invariant TableShape(table)
      invariant forall d, p :: Stored(table, d, p) <==> exists s, q :: s in paths && s !in starts && q in paths[s] && CutOf(q, dk, d, p)
    {
      var s :| s in starts;
      table := OrganizeList(table, paths[s], dk);
      starts := starts - {s};
    }
  }

  lemma EmptyTable()
    ensures TableShape(map[]) && forall d, p :: !Stored(map[], d, p)
  {
  }

  method OrganizeList(table0: PathTable, list: seq<Path>, dk: seq<Function>) returns (table: PathTable)
    requires TableShape(table0)
    ensures TableShape(table)
    ensures forall d, p :: Stored(table, d, p) <==> Stored(table0, d, p) || exists q :: q in list && CutOf(q, dk, d, p)
  {
    hide CutOf, Stored, TableShape;
    table := table0;
    for i := 0 to |list|
      invariant TableShape(table)
      invariant forall d, p :: Stored(table, d, p) <==> Stored(table0, d, p) || exists q :: q in list[..i] && CutOf(q, dk, d, p)
    {
      table := OrganizePath(table, list[i], dk);
      assert list[..i + 1] == list[..i] + [list[i]];
    }
    assert list[..|list|] == list;
  }

  method OrganizePath(table0: PathTable, q: Path, dk: seq<Function>) returns (table: PathTable)
    requires TableShape(table0)
    ensures TableShape(table)
    ensures forall d, p :: Stored(table, d, p) <==> Stored(table0, d, p) || CutOf(q, dk, d, p)
  {
    hide Stored, TableShape;
    table := table0;
    for idx := 0 to |q|
      invariant TableShape(table)
      invariant forall d, p :: Stored(table, d, p) <==> Stored(table0, d, p) || (d in dk && exists n :: 1 <= n < idx && q[n] == d && p == q[..n + 1])
    {
      if q[idx] in dk && idx > 0 {
        table := StorePath(table, q[idx], q[..idx + 1]);
      }
    }
  }

  /** Adds a path to its class unless it is there already. */
  method StorePath(table0: PathTable, d: Function, p: Path) returns (table: PathTable)
    requires TableShape(table0) && |p| >= 1
    ensures TableShape(table)
    ensures forall d', p' :: Stored(table, d', p') <==> Stored(table0, d', p') || (d' == d && p' == p)
  {
    hide Stored, TableShape;
    PutStores(table0, d, p);
    PutShape(table0, d, p);
    table := table0;
    if d !in table {
      table := table[d := map[]];
    }
    var row: map<nat, seq<Path>> := table[d];
    var n: nat := |p| - 1;
    assert row == Row(table0, d);
    if n !in row {
      assert AddNew([], p) == [p];
      table := table[d := row[n := [p]]];
    } else if p !in row[n] {
      table := table[d := row[n := row[n] + [p]]];
    } else {
      assert row[n := row[n]] == row;
    }
    var final := Put(table0, d, p);
    assert table[d] == final[d];
    assert table.Keys == final.Keys;
    assert table == final;
  }

  function Row(table: PathTable, d: Function): map<nat, seq<Path>> {
    if d in table then table[d] else map[]
  }

  function Entry(row: map<nat, seq<Path>>, n: nat): seq<Path> {
    if n in row then row[n] else []
  }

  function AddNew(paths: seq<Path>, p: Path): seq<Path> {
    if p in paths then paths else paths + [p]
  }

  function Put(table: PathTable, d: Function, p: Path): PathTable
    requires |p| >= 1
  {
    var n: nat, row: map<nat, seq<Path>> := |p| - 1, Row(table, d);
    table[d := row[n := AddNew(Entry(row, n), p)]]
  }

  lemma PutStores(table: PathTable, d: Function, p: Path)
    requires |p| >= 1
    ensures forall d', p' :: Stored(Put(table, d, p), d', p') <==> Stored(table, d', p') || (d' == d && p' == p)
  {
    var n: nat, row, after := |p| - 1, Row(table, d), Put(table, d, p);
    assert n in after[d] && p in after[d][n];
    forall d', p' ensures Stored(after, d', p') <==> Stored(table, d', p') || (d' == d && p' == p) {
      if Stored(table, d', p') {
        var m :| m in table[d'] && p' in table[d'][m];
        assert m in after[d'] && p' in after[d'][m];
      }
      if Stored(after, d', p') && d' == d {
        var m :| m in after[d] && p' in after[d][m];
        assert p' == p || (m in row && p' in row[m]);
      }
    }
  }

  lemma PutShape(table: PathTable, d: Function, p: Path)
    requires |p| >= 1 && TableShape(table)
    ensures TableShape(Put(table, d, p))
  {
    hide Stored;
    var n: nat, row, after := |p| - 1, Row(table, d), Put(table, d, p);
    PutStores(table, d, p);
    forall d' | d' in after ensures exists p' :: Stored(after, d', p') {
      if d' == d {
        assert Stored(after, d, p);
      } else {
        var p' :| Stored(table, d', p');
        assert Stored(after, d', p');
      }
    }
  }

  // ---------- the enumeration as a whole ----------

  class AcyclicPath {
    const pathLenLimit: nat
    const graph: Graph
    const startFunctions: seq<Function>
    const dkFunctions: seq<Function>
    var paths: map<Function, seq<Path>>
    var pathsDf: PathTable

    constructor (limit: nat, graph: Graph, startFunctions: seq<Function>, dkFunctions: seq<Function>)
      requires UniqueChildren(graph)
      ensures pathLenLimit == limit && this.graph == graph && this.startFunctions == startFunctions && this.dkFunctions == dkFunctions
      ensures TableShape(pathsDf)
      ensures forall d, p :: Stored(pathsDf, d, p) <==> d in dkFunctions && exists s :: s in startFunctions && Leads(graph, limit, s, d, p)
    {
      pathLenLimit := limit;
      this.graph := graph;
      this.startFunctions := startFunctions;
      this.dkFunctions := dkFunctions;
      paths := map[];
      pathsDf := map[];
      new;
      GetPath();
      var table := OrganizePaths(paths, dkFunctions);
      pathsDf := table;
      forall d, p ensures Stored(pathsDf, d, p) <==> d in dkFunctions && exists s :: s in startFunctions && Leads(graph, limit, s, d, p) {
        StoredLeads(d, p);
      }
    }

    /** Enumerates the paths of every start function. */
    method GetPath()
      requires UniqueChildren(graph) && paths == map[]
      modifies this`paths
      ensures AllExplored()
    {
      hide Explored;
      for i := 0 to |startFunctions|
        invariant forall s :: s in paths <==> s in startFunctions[..i]
        invariant forall s :: s in paths ==> Explored(graph, s, paths[s], Bound(pathLenLimit))
      {
        var all := DerivePaths(graph, startFunctions[i], pathLenLimit);
        paths := paths[startFunctions[i] := all];
        assert startFunctions[..i + 1] == startFunctions[..i] + [startFunctions[i]];
      }
      assert startFunctions[..|startFunctions|] == startFunctions;
    }

    ghost predicate AllExplored()
      reads this`paths
    {
      && (forall s :: s in paths <==> s in startFunctions)
      && (forall s :: s in paths ==> Explored(graph, s, paths[s], Bound(pathLenLimit)))
    }

    lemma StoredLeads(d: Function, p: Path)
      requires AllExplored()
      requires Stored(pathsDf, d, p) <==> exists s, q :: s in paths && q in paths[s] && CutOf(q, dkFunctions, d, p)
      ensures Stored(pathsDf, d, p) <==> d in dkFunctions && exists s :: s in startFunctions && Leads(graph, pathLenLimit, s, d, p)
    {
      hide Explored, Leads, Stored;
      if exists s, q :: s in paths && q in paths[s] && CutOf(q, dkFunctions, d, p) {
        var s, q :| s in paths && q in paths[s] && CutOf(q, dkFunctions, d, p);
        CutLeads(graph, s, paths[s], pathLenLimit, dkFunctions, d, q, p);
      }
      if d in dkFunctions && exists s :: s in startFunctions && Leads(graph, pathLenLimit, s, d, p) {
        var s :| s in startFunctions && Leads(graph, pathLenLimit, s, d, p);
        var q := LeadsCut(graph, s, paths[s], pathLenLimit, dkFunctions, d, p);
      }
    }
  }

  function Bound(limit: nat): nat {
    if limit == 0 then 1 else limit
  }

  /** What is stored for a deep function `d`: the writings of the simple paths of 2 to `limit` functions
      from a start to `d`, and a deep start that calls itself. */
  ghost predicate Leads(g: Graph, limit: nat, s: Function, d: Function, p: Path) {
    || (exists r :: SimplePath(g, s, r) && 2 <= |r| <= limit && r[|r| - 1] == d && p == Written(g, r))
    || (limit >= 2 && s == d && Doubled(g, s, p))
  }

  lemma CutLeads(g: Graph, s: Function, all: seq<Path>, limit: nat, dk: seq<Function>, d: Function, q: Path, p: Path)
    requires Explored(g, s, all, Bound(limit)) && q in all && CutOf(q, dk, d, p)
    ensures Leads(g, limit, s, d, p)
  {
    hide Kept, Leads, Doubled, AllPrefixed;
    var n :| 1 <= n < |q| && q[n] == d && p == q[..n + 1];
    assert Kept(g, s, q, Bound(limit));
    if Doubled(g, s, q) {
      DoubledIsCut(g, s, all, limit, q, n);
    } else {
      CutOfKept(g, s, limit, q, n);
    }
  }

  lemma DoubledIsCut(g: Graph, s: Function, all: seq<Path>, limit: nat, q: Path, n: nat)
    requires Doubled(g, s, q) && q in all && (Bound(limit) < 2 ==> [s, s] !in all) && 1 <= n < |q|
    ensures Leads(g, limit, s, q[n], q[..n + 1])
  {
    hide SimplePath, LoopBefore;
    assert n == 1 && q[..n + 1] == q;
  }

  lemma CutOfKept(g: Graph, s: Function, limit: nat, q: Path, n: nat)
    requires Kept(g, s, q, Bound(limit)) && !Doubled(g, s, q) && 1 <= n < |q|
    ensures Leads(g, limit, s, q[n], q[..n + 1])
  {
    hide SimplePath, LoopBefore;
    var r, p := Undoubled(q), q[..n + 1];
    PathStarts(g, s, r);
    if q == r {
      PrefixIsSimple(g, s, r, n + 1);
      assert Written(g, r[..n + 1]) == r[..n + 1];
    } else if n == 1 {
      LoopMeansChild(g, r[0], r[1]);
      assert p == [s, s];
    } else {
      PrefixIsSimple(g, s, r, n);
      assert Written(g, r[..n]) == [s] + r[..n];
      assert p == [s] + r[..n];
      assert r[..n][n - 1] == q[n];
    }
  }

  lemma PathStarts(g: Graph, s: Function, r: Path)
    requires SimplePath(g, s, r)
    ensures r != [] && r[0] == s
  {
  }

  lemma LoopMeansChild(g: Graph, s: Function, c: Function)
    requires LoopBefore(g, s, c)
    ensures s in Children(g, s)
  {
  }

  lemma PrefixIsSimple(g: Graph, s: Function, r: Path, n: nat)
    requires SimplePath(g, s, r) && 1 <= n <= |r|
    ensures SimplePath(g, s, r[..n])
  {
    forall i | 0 <= i < n - 1 ensures r[..n][i + 1] in Children(g, r[..n][i]) {
      assert r[i + 1] in Children(g, r[i]);
    }
  }

  lemma LeadsCut(g: Graph, s: Function, all: seq<Path>, limit: nat, dk: seq<Function>, d: Function, p: Path) returns (q: Path)
    requires Explored(g, s, all, Bound(limit)) && d in dk && Leads(g, limit, s, d, p)
    ensures q in all && CutOf(q, dk, d, p)
  {
    hide SimplePath, Kept, Written, CutOf;
    if limit >= 2 && s == d && Doubled(g, s, p) {
      q := [s, s];
    } else {
      var r :| SimplePath(g, s, r) && 2 <= |r| <= limit && r[|r| - 1] == d && p == Written(g, r);
      assert Prefixed(p, all);
      q :| q in all && p <= q;
      WrittenKeeps(g, r);
      WrittenLong(g, r);
    }
    CutAtEnd(q, dk, d, p);
  }

  lemma CutAtEnd(q: Path, dk: seq<Function>, d: Function, p: Path)
    requires d in dk && p <= q && |p| >= 2 && p[|p| - 1] == d
    ensures CutOf(q, dk, d, p)
  {
    assert q[|p| - 1] == d && q[..|p| - 1 + 1] == p;
  }

  // ---------- reachability ----------

  /** With no start that calls itself, exactly the simple paths are stored. */
  lemma NoSelfCalls(g: Graph, limit: nat, s: Function, d: Function, p: Path)
    requires s !in Children(g, s)
    ensures Leads(g, limit, s, d, p) <==> SimplePath(g, s, p) && 2 <= |p| <= limit && p[|p| - 1] == d
  {
    forall r | SimplePath(g, s, r) && |r| >= 2 ensures Written(g, r) == r {
      if LoopBefore(g, r[0], r[1]) {
        LoopMeansChild(g, r[0], r[1]);
      }
    }
  }

  /** A walk of the graph from `s` to `d`. */
  ghost predicate Walk(g: Graph, s: Function, d: Function, w: Path) {
    w != [] && w[0] == s && w[|w| - 1] == d && Follows(g, w)
  }

  /** Cutting out a cycle leaves a shorter walk. */
  lemma CutCycle(g: Graph, s: Function, d: Function, w: Path, i: nat, j: nat)
    requires Walk(g, s, d, w) && i < j < |w| && w[i] == w[j]
    ensures Walk(g, s, d, w[..i] + w[j..]) && |w[..i] + w[j..]| < |w|
  {
    var v := w[..i] + w[j..];
    forall k | 0 <= k < |v| - 1 ensures v[k + 1] in Children(g, v[k]) {
      if k + 1 < i {
        assert w[k + 1] in Children(g, w[k]);
      } else if k + 1 == i {
        assert w[i] in Children(g, w[k]);
      } else {
        assert w[k - i + j + 1] in Children(g, w[k - i + j]);
      }
    }
  }

  /** Every walk contains a simple path between its ends. */
  lemma {:induction false} WalkHasPath(g: Graph, s: Function, d: Function, w: Path) returns (r: Path)
    requires Walk(g, s, d, w)
    ensures SimplePath(g, s, r) && r[|r| - 1] == d && |r| <= |w|
    decreases |w|
  {
    if Simple(w) {
      r := w;
    } else {
      var i, j :| 0 <= i < j < |w| && w[i] == w[j];
      CutCycle(g, s, d, w, i, j);
      r := WalkHasPath(g, s, d, w[..i] + w[j..]);
    }
  }

  /** A deep function is left without a stored path exactly when no other start reaches it by a walk of
      at most `limit` functions and it is not itself a start that calls itself. */
  lemma UnreachableExactly(a: AcyclicPath, d: Function)
    requires d in a.dkFunctions && TableShape(a.pathsDf)
    requires forall p :: Stored(a.pathsDf, d, p) <==> exists s :: s in a.startFunctions && Leads(a.graph, a.pathLenLimit, s, d, p)
    ensures (d !in a.pathsDf || |a.pathsDf[d]| == 0) <==>
      && (forall s, w :: s in a.startFunctions && s != d && Walk(a.graph, s, d, w) ==> |w| > a.pathLenLimit)
      && (d in a.startFunctions && d in Children(a.graph, d) ==> a.pathLenLimit < 2)
  {
    hide Leads, Stored, Walk, SimplePath;
    var g, limit := a.graph, a.pathLenLimit;
    RowsAreStored(a.pathsDf, d);
    if p, s :| s in a.startFunctions && Leads(g, limit, s, d, p) {
      LeadsIsReached(g, limit, s, d, p);
    }
    forall s, w | s in a.startFunctions && s != d && Walk(g, s, d, w) && |w| <= limit
      ensures exists p :: Stored(a.pathsDf, d, p)
    {
      var p := ReachedLeads(g, limit, s, d, w);
      assert Stored(a.pathsDf, d, p);
    }
    if d in a.startFunctions && d in Children(g, d) && limit >= 2 {
      assert Leads(g, limit, d, d, [d, d]) by { DoubledLeads(g, limit, d); }
      assert Stored(a.pathsDf, d, [d, d]);
    }
  }

  lemma RowsAreStored(table: PathTable, d: Function)
    requires TableShape(table)
    ensures (d !in table || |table[d]| == 0) <==> !exists p :: Stored(table, d, p)
  {
    if d in table && |table[d]| == 0 {
      assert table[d] == map[];
    }
  }

  lemma DoubledLeads(g: Graph, limit: nat, d: Function)
    requires d in Children(g, d) && limit >= 2
    ensures Leads(g, limit, d, d, [d, d])
  {
  }

  lemma LeadsIsReached(g: Graph, limit: nat, s: Function, d: Function, p: Path)
    requires Leads(g, limit, s, d, p)
    ensures (s != d && exists w :: Walk(g, s, d, w) && |w| <= limit) || (s == d && d in Children(g, d) && limit >= 2)
  {
    if !(limit >= 2 && s == d && Doubled(g, s, p)) {
      var r :| SimplePath(g, s, r) && 2 <= |r| <= limit && r[|r| - 1] == d && p == Written(g, r);
      assert r[0] != r[|r| - 1];
      assert Walk(g, s, d, r);
    }
  }

  lemma ReachedLeads(g: Graph, limit: nat, s: Function, d: Function, w: Path) returns (p: Path)
    requires Walk(g, s, d, w) && |w| <= limit && s != d
    ensures Leads(g, limit, s, d, p)
  {
    hide Follows, Simple;
    var r := WalkHasPath(g, s, d, w);
    p := Written(g, r);
  }
}
