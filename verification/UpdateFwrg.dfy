/** The write/read graph restricted to the paths of the deep functions, and its augmentation. */
module UpdateFwrg {
  import opened Merge
  import opened Combining
  import opened Detours

  type Graph = map<Function, seq<Function>>

  /** Paths by deep function and by number of edges. */
  type PathTable = map<Function, map<nat, seq<Path>>>

  function Edges(g: Graph): set<Edge> {
    set f, t | f in g && t in g[f] :: (f, t)
  }

  /** `p` is one of the paths stored for `d`. */
  ghost predicate Stored(table: PathTable, d: Function, p: Path) {
    d in table && exists n :: n in table[d] && p in table[d][n]
  }

  /** A deep function is never the first function of a stored path, and always the last. */
  ghost predicate TableOk(table: PathTable) {
    forall d, p :: Stored(table, d, p) ==> |p| >= 2 && p[|p| - 1] == d
  }

  /** `p` stands in front of `q` in the list of the paths of one length stored for `d`. */
  ghost predicate StoredBefore(table: PathTable, d: Function, p: Path, q: Path) {
    d in table && p != [] && q != [] && exists n :: n in table[d] && InFront(table[d][n], p, q)
  }

  ghost predicate InFront(list: seq<Path>, p: Path, q: Path) {
    exists i, j :: 0 <= i < j < |list| && list[i] == p && list[j] == q
  }

  ghost predicate Added(g: Graph, a: Path, b: Path) {
    HasAll(Edges(g), PairEdges(a, b)) || HasAll(Edges(g), PairEdges(b, a))
  }

  function AddEdge(g: Graph, f: Function, t: Function): Graph {
    if f !in g then g[f := [t]] else if t in g[f] then g else g[f := g[f] + [t]]
  }

  /** No function has a child twice. */
  ghost predicate UniqueChildren(g: Graph) {
    forall f, i, j :: f in g && 0 <= i < j < |g[f]| ==> g[f][i] != g[f][j]
  }

  lemma PathGrows(p: Path, i: nat)
    requires i < |p| - 1
    ensures EdgesOfPath(p[..i + 2]) == EdgesOfPath(p[..i + 1]) + {(p[i], p[i + 1])}
  {
    assert Without(p[..i + 2]) == p[..i + 1];
  }

  lemma NoEdges()
    ensures Edges(map[]) == {} && UniqueChildren(map[])
  {
  }

  lemma EdgesGrow(g: Graph, f: Function, t: Function)
    ensures Edges(AddEdge(g, f, t)) == Edges(g) + {(f, t)}
    ensures UniqueChildren(g) ==> UniqueChildren(AddEdge(g, f, t))
  {
    var g' := AddEdge(g, f, t);
    forall e ensures e in Edges(g') <==> e in Edges(g) || e == (f, t) {
      if e in Edges(g') {
        assert e.0 in g' && e.1 in g'[e.0];
      }
    }
  }

  lemma InFrontStays(list: seq<Path>, more: seq<Path>, p: Path, q: Path)
    requires InFront(list, p, q)
    ensures InFront(list + more, p, q)
  {
    var i, j :| 0 <= i < j < |list| && list[i] == p && list[j] == q;
    assert (list + more)[i] == p && (list + more)[j] == q;
  }

  lemma InFrontShifts(list: seq<Path>, paths: seq<Path>, more: seq<Path>, p: Path, q: Path)
    requires InFront(paths, p, q) && p != [] && q != []
    requires |more| == |paths| && forall k :: 0 <= k < |paths| ==> paths[k] != [] && more[k] == Without(paths[k])
    ensures InFront(list + more, Without(p), Without(q))
  {
    var i, j :| 0 <= i < j < |paths| && paths[i] == p && paths[j] == q;
    assert (list + more)[|list| + i] == Without(p) && (list + more)[|list| + j] == Without(q);
  }

  class UpdateFwrg {
    const dkFunctions: seq<Function>
    const pathTable: PathTable
    var fwrgTargets: Graph
    var augmented: Graph
    var dkNotReachable: seq<Function>

    constructor (dkFunctions: seq<Function>, pathTable: PathTable)
      requires TableOk(pathTable)
      ensures this.dkFunctions == dkFunctions && this.pathTable == pathTable
      ensures Built()
    {
      this.dkFunctions := dkFunctions;
      this.pathTable := pathTable;
      fwrgTargets := map[];
      augmented := map[];
      dkNotReachable := [];
      new;
      hide EdgesOfPath, Stored, PairEdges, UniqueChildren;
      ConstructTargets();
      augmented := fwrgTargets;
      AddEdges();
      IdentifyNotReachable();
    }

    /** What the constructor establishes: the targets' edges are those of the stored paths; the
        augmentation adds the edges of every pair of paths to the same function and nothing else, for
        paths of one length in the order of their list; a deep function without stored path is listed. */
    ghost predicate Built()
      reads this
    {
      && TableOk(pathTable)
      && (forall e :: e in Edges(fwrgTargets) <==> exists d, p :: Stored(pathTable, d, p) && e in EdgesOfPath(p))
      && Edges(fwrgTargets) <= Edges(augmented) && UniqueChildren(augmented)
      && (forall d :: PairsAdded(augmented, d) && PairsInOrder(augmented, d))
      && (forall e :: e in Edges(augmented) ==> e in Edges(fwrgTargets) || FromPair(e))
      && (forall d :: d in dkNotReachable <==> d in dkFunctions && (d !in pathTable || |pathTable[d]| == 0))
    }

    ghost predicate FromPair(e: Edge)
      requires TableOk(pathTable)
    {
      exists d, p, q :: Stored(pathTable, d, p) && Stored(pathTable, d, q) && e in PairEdges(Without(p), Without(q))
    }

    /** Rebuilds the graph from the stored paths. */
    method ConstructTargets()
      requires fwrgTargets == map[]
      modifies this`fwrgTargets
      ensures forall e :: e in Edges(fwrgTargets) <==> exists d, p :: Stored(pathTable, d, p) && e in EdgesOfPath(p)
      ensures UniqueChildren(fwrgTargets)
    {
      hide EdgesOfPath, Edges, UniqueChildren;
      var ds := pathTable.Keys;
      ghost var done: set<Function> := {};
      assert Edges(fwrgTargets) == {} && UniqueChildren(fwrgTargets) by { NoEdges(); }
      while ds != {}
        invariant UniqueChildren(fwrgTargets)
        invariant ds + done == pathTable.Keys && ds !! done
        invariant forall e :: e in Edges(fwrgTargets) <==> exists d, p :: d in done && Stored(pathTable, d, p) && e in EdgesOfPath(p)
      {
        var d :| d in ds;
        AddTable(d, pathTable[d]);
        ds, done := ds - {d}, done + {d};
      }
    }

    method AddTable(ghost d: Function, classes: map<nat, seq<Path>>)
      requires d in pathTable && classes == pathTable[d]
      modifies this`fwrgTargets
      ensures forall e :: e in Edges(fwrgTargets) <==> e in old(Edges(fwrgTargets)) || exists p :: Stored(pathTable, d, p) && e in EdgesOfPath(p)
      ensures old(UniqueChildren(fwrgTargets)) ==> UniqueChildren(fwrgTargets)
    {
      hide Edges, EdgesOfPath, UniqueChildren;
      var ns := classes.Keys;
      while ns != {}
        invariant old(UniqueChildren(fwrgTargets)) ==> UniqueChildren(fwrgTargets)
        invariant ns <= classes.Keys
        invariant forall e :: e in Edges(fwrgTargets) <==> e in old(Edges(fwrgTargets)) || InClasses(classes, ns, e)
      {
        var n :| n in ns;
        ghost var before := Edges(fwrgTargets);
        AddPaths(classes[n]);
        forall e ensures InClasses(classes, ns - {n}, e) <==> InClasses(classes, ns, e) || exists p :: p in classes[n] && e in EdgesOfPath(p) {
          if InClasses(classes, ns - {n}, e) {
            var m, p :| m in classes && m !in ns - {n} && p in classes[m] && e in EdgesOfPath(p);
            assert m == n || m !in ns;
          }
        }
        ns := ns - {n};
      }
      forall e ensures InClasses(classes, {}, e) <==> exists p :: Stored(pathTable, d, p) && e in EdgesOfPath(p) {
        if exists p :: Stored(pathTable, d, p) && e in EdgesOfPath(p) {
          var p :| Stored(pathTable, d, p) && e in EdgesOfPath(p);
          var n :| n in pathTable[d] && p in pathTable[d][n];
          assert n in classes && n !in {} && p in classes[n];
        }
      }
    }

    /** `e` is an edge of a path in a class outside `ns`. */
    ghost predicate InClasses(classes: map<nat, seq<Path>>, ns: set<nat>, e: Edge) {
      exists n, p :: n in classes && n !in ns && p in classes[n] && e in EdgesOfPath(p)
    }

    method AddPaths(paths: seq<Path>)
      modifies this`fwrgTargets
      ensures forall e :: e in Edges(fwrgTargets) <==> e in old(Edges(fwrgTargets)) || exists p :: p in paths && e in EdgesOfPath(p)
      ensures old(UniqueChildren(fwrgTargets)) ==> UniqueChildren(fwrgTargets)
    {
      hide Edges, EdgesOfPath, UniqueChildren;
      for j := 0 to |paths|
        invariant old(UniqueChildren(fwrgTargets)) ==> UniqueChildren(fwrgTargets)
        invariant forall e :: e in Edges(fwrgTargets) <==> e in old(Edges(fwrgTargets)) || exists p :: p in paths[..j] && e in EdgesOfPath(p)
      {
        AddPath(paths[j]);
        assert paths[..j + 1] == paths[..j] + [paths[j]];
      }
      assert paths[..|paths|] == paths;
    }

    method AddPath(path: Path)
      modifies this`fwrgTargets
      ensures Edges(fwrgTargets) == old(Edges(fwrgTargets)) + EdgesOfPath(path)
      ensures old(UniqueChildren(fwrgTargets)) ==> UniqueChildren(fwrgTargets)
    {
      hide Edges, UniqueChildren;
      if |path| < 2 {
        return;
      }
      assert path[..1] == [path[0]];
      for i := 0 to |path| - 1
        invariant Edges(fwrgTargets) == old(Edges(fwrgTargets)) + EdgesOfPath(path[..i + 1])
        invariant old(UniqueChildren(fwrgTargets)) ==> UniqueChildren(fwrgTargets)
      {
        EdgesGrow(fwrgTargets, path[i], path[i + 1]);
        PathGrows(path, i);
        if path[i] !in fwrgTargets {
          fwrgTargets := fwrgTargets[path[i] := [path[i + 1]]];
        } else if path[i + 1] !in fwrgTargets[path[i]] {
          fwrgTargets := fwrgTargets[path[i] := fwrgTargets[path[i]] + [path[i + 1]]];
        }
      }
      assert path[..|path|] == path;
    }

    /** Adds the combining edges for every pair of paths to the same deep function. */
    method AddEdges()
      requires TableOk(pathTable)
      modifies this`augmented
      ensures old(Edges(augmented)) <= Edges(augmented)
      ensures forall d :: PairsAdded(augmented, d) && PairsInOrder(augmented, d)
      ensures forall e :: e in Edges(augmented) ==> e in old(Edges(augmented)) || FromPair(e)
      ensures old(UniqueChildren(augmented)) ==> UniqueChildren(augmented)
    {
      hide Edges, Stored, PairsAdded, PairsInOrder, Lists, AllPairs, UniqueChildren;
      var ds := pathTable.Keys;
      NothingStored(augmented);
      while ds != {}
        invariant ds <= pathTable.Keys
        invariant old(UniqueChildren(augmented)) ==> UniqueChildren(augmented)
        invariant old(Edges(augmented)) <= Edges(augmented)
        invariant forall d :: d !in ds ==> PairsAdded(augmented, d) && PairsInOrder(augmented, d)
        invariant forall e :: e in Edges(augmented) ==> e in old(Edges(augmented)) || FromPair(e)
      {
        var d :| d in ds;
        ghost var before := augmented;
        var sequences := Sequences(d);
        AddPairs(sequences);
        forall d' | d' !in ds ensures PairsAdded(augmented, d') && PairsInOrder(augmented, d') {
          PairsStay(before, augmented, d');
        }
        PairsOfSequences(augmented, d, sequences);
        forall e | e in Edges(augmented) && e !in Edges(before) ensures FromPair(e) {
          SequencesGive(d, sequences, e);
        }
        ds := ds - {d};
      }
    }

    /** Every two different paths stored for `d` have their combining edges in `g`. */
    ghost predicate PairsAdded(g: Graph, d: Function)
      requires TableOk(pathTable)
    {
      forall p, q :: Stored(pathTable, d, p) && Stored(pathTable, d, q) && p != q ==> Added(g, Without(p), Without(q))
    }

    /** For paths of one length the edges are those of the pair in the order of the list. */
    ghost predicate PairsInOrder(g: Graph, d: Function) {
      forall p, q :: StoredBefore(pathTable, d, p, q) ==> HasAll(Edges(g), PairEdges(Without(p), Without(q)))
    }

    lemma NothingStored(g: Graph)
      requires TableOk(pathTable)
      ensures forall d :: d !in pathTable ==> PairsAdded(g, d) && PairsInOrder(g, d)
    {
    }

    lemma PairsStay(g: Graph, g': Graph, d: Function)
      requires TableOk(pathTable) && PairsAdded(g, d) && PairsInOrder(g, d) && Edges(g) <= Edges(g')
      ensures PairsAdded(g', d) && PairsInOrder(g', d)
    {
      hide PairEdges, Edges, Stored, StoredBefore;
    }

    /** `sequences` lists the paths stored for `d`, without `d`, those of one length in their order. */
    ghost predicate Lists(d: Function, sequences: seq<Path>)
      requires TableOk(pathTable)
    {
      && (forall p :: Stored(pathTable, d, p) ==> Without(p) in sequences)
      && (forall s :: s in sequences ==> IsStored(d, s))
      && (forall p, q :: StoredBefore(pathTable, d, p, q) ==> InFront(sequences, Without(p), Without(q)))
    }

    ghost predicate IsStored(d: Function, s: Path)
      requires TableOk(pathTable)
    {
      s != [] && Stored(pathTable, d, s + [d])
    }

    lemma PairsOfSequences(g: Graph, d: Function, sequences: seq<Path>)
      requires TableOk(pathTable) && Lists(d, sequences)
      requires AllPairs(g, sequences, |sequences|)
      ensures PairsAdded(g, d) && PairsInOrder(g, d)
    {
      hide PairEdges, Edges, Stored, StoredBefore, Added, AllPairs, Lists;
      ListsOrder(d, sequences);
      forall p, q | StoredBefore(pathTable, d, p, q) ensures p != [] && q != [] && HasAll(Edges(g), PairEdges(Without(p), Without(q))) {
        BeforeIsNonEmpty(d, p, q);
        FrontIsAdded(g, sequences, Without(p), Without(q));
      }
      forall p, q | Stored(pathTable, d, p) && Stored(pathTable, d, q) && p != q
        ensures Added(g, Without(p), Without(q))
      {
        StoredShape(d, p);
        StoredShape(d, q);
        var i := ListedAt(d, sequences, p);
        var j := ListedAt(d, sequences, q);
        PairOfIndices(g, sequences, i, j);
      }
    }

    lemma BeforeIsNonEmpty(d: Function, p: Path, q: Path)
      requires StoredBefore(pathTable, d, p, q)
      ensures p != [] && q != []
    {
    }

    lemma ListsOrder(d: Function, sequences: seq<Path>)
      requires TableOk(pathTable) && Lists(d, sequences)
      ensures forall p, q :: StoredBefore(pathTable, d, p, q) ==> p != [] && q != [] && InFront(sequences, Without(p), Without(q))
    {
    }

    lemma FrontIsAdded(g: Graph, sequences: seq<Path>, a: Path, b: Path)
      requires AllPairs(g, sequences, |sequences|) && InFront(sequences, a, b)
      ensures HasAll(Edges(g), PairEdges(a, b))
    {
      hide PairEdges, Edges, HasAll;
    }

    lemma StoredShape(d: Function, p: Path)
      requires TableOk(pathTable) && Stored(pathTable, d, p)
      ensures p != [] && p == Without(p) + [d]
    {
      hide Stored;
    }

    lemma ListedAt(d: Function, sequences: seq<Path>, p: Path) returns (i: nat)
      requires TableOk(pathTable) && Lists(d, sequences) && Stored(pathTable, d, p) && p != []
      ensures i < |sequences| && sequences[i] == Without(p)
    {
      hide Stored;
      i :| 0 <= i < |sequences| && sequences[i] == Without(p);
    }

    lemma PairOfIndices(g: Graph, sequences: seq<Path>, i: nat, j: nat)
      requires AllPairs(g, sequences, |sequences|) && i < |sequences| && j < |sequences| && i != j
      ensures Added(g, sequences[i], sequences[j])
    {
      hide PairEdges, Edges, HasAll;
      if i < j {
        assert HasAll(Edges(g), PairEdges(sequences[i], sequences[j]));
      } else {
        assert HasAll(Edges(g), PairEdges(sequences[j], sequences[i]));
      }
    }

    lemma SequencesGive(d: Function, sequences: seq<Path>, e: Edge)
      requires TableOk(pathTable) && Lists(d, sequences)
      requires FromSequences(sequences, e)
      ensures FromPair(e)
    {
      hide PairEdges, Stored;
      var i, j :| 0 <= i < |sequences| && 0 <= j < |sequences| && e in PairEdges(sequences[i], sequences[j]);
      var p, q := sequences[i] + [d], sequences[j] + [d];
      assert IsStored(d, sequences[i]) && IsStored(d, sequences[j]);
      assert Without(p) == sequences[i] && Without(q) == sequences[j];
      assert Stored(pathTable, d, p) && Stored(pathTable, d, q);
    }

    /** The paths of a deep function without that function. */
    method Sequences(d: Function) returns (sequences: seq<Path>)
      requires TableOk(pathTable) && d in pathTable
      ensures Lists(d, sequences)
    {
      hide Without, InFront;
      sequences := [];
      var classes := pathTable[d];
      var ns := classes.Keys;
      while ns != {}
        invariant ns <= classes.Keys
        invariant forall n, p :: n in classes && n !in ns && p in classes[n] ==> Stored(pathTable, d, p) && Without(p) in sequences
        invariant forall s :: s in sequences ==> IsStored(d, s)
        invariant forall n, p, q :: n in classes && n !in ns && p != [] && q != [] && InFront(classes[n], p, q) ==> InFront(sequences, Without(p), Without(q))
      {
        var n :| n in ns;
        var more := Truncate(d, n, classes[n]);
        forall m, p, q | m in classes && m !in ns - {n} && p != [] && q != [] && InFront(classes[m], p, q)
          ensures InFront(sequences + more, Without(p), Without(q))
        {
          if m == n {
            InFrontShifts(sequences, classes[n], more, p, q);
          } else {
            InFrontStays(sequences, more, Without(p), Without(q));
          }
        }
        sequences := sequences + more;
        ns := ns - {n};
      }
    }

    method Truncate(ghost d: Function, ghost n: nat, paths: seq<Path>) returns (r: seq<Path>)
      requires TableOk(pathTable) && d in pathTable && n in pathTable[d] && paths == pathTable[d][n]
      ensures forall p :: p in paths ==> Stored(pathTable, d, p) && Without(p) in r
      ensures forall s :: s in r ==> IsStored(d, s)
      ensures |r| == |paths| && forall k :: 0 <= k < |paths| ==> paths[k] != [] && r[k] == Without(paths[k])
    {
      r := [];
      for j := 0 to |paths|
        invariant |r| == j && forall k :: 0 <= k < j ==> paths[k] != [] && r[k] == Without(paths[k])
        invariant forall k :: 0 <= k < j ==> Stored(pathTable, d, paths[k]) && Without(paths[k]) in r
        invariant forall s :: s in r ==> IsStored(d, s)
      {
        assert Stored(pathTable, d, paths[j]);
        assert paths[j] == Without(paths[j]) + [d];
        r := r + [Without(paths[j])];
      }
    }

    /** The edges of all pairs with a first index below `x` are in `g`. */
    ghost predicate AllPairs(g: Graph, sequences: seq<Path>, x: nat) {
      forall i, j :: 0 <= i < x && i < j < |sequences| ==> HasAll(Edges(g), PairEdges(sequences[i], sequences[j]))
    }

    ghost predicate FromSequences(sequences: seq<Path>, e: Edge) {
      exists i, j :: 0 <= i < |sequences| && 0 <= j < |sequences| && e in PairEdges(sequences[i], sequences[j])
    }

    method AddPairs(sequences: seq<Path>)
      modifies this`augmented
      ensures old(Edges(augmented)) <= Edges(augmented)
      ensures AllPairs(augmented, sequences, |sequences|)
      ensures forall e :: e in Edges(augmented) ==> e in old(Edges(augmented)) || FromSequences(sequences, e)
      ensures old(UniqueChildren(augmented)) ==> UniqueChildren(augmented)
    {
      hide PairEdges, Edges, UniqueChildren;
      for x := 0 to |sequences|
        invariant old(UniqueChildren(augmented)) ==> UniqueChildren(augmented)
        invariant old(Edges(augmented)) <= Edges(augmented)
        invariant AllPairs(augmented, sequences, x)
        invariant forall e :: e in Edges(augmented) ==> e in old(Edges(augmented)) || FromSequences(sequences, e)
      {
        for y := x + 1 to |sequences|
          invariant old(UniqueChildren(augmented)) ==> UniqueChildren(augmented)
          invariant old(Edges(augmented)) <= Edges(augmented)
          invariant AllPairs(augmented, sequences, x)
          invariant forall j :: x < j < y ==> HasAll(Edges(augmented), PairEdges(sequences[x], sequences[j]))
          invariant forall e :: e in Edges(augmented) ==> e in old(Edges(augmented)) || FromSequences(sequences, e)
        {
          AddPair(sequences[x], sequences[y]);
        }
      }
    }

    method AddPair(seq1: Path, seq2: Path)
      modifies this`augmented
      ensures Edges(augmented) == old(Edges(augmented)) + (set e | e in PairEdges(seq1, seq2))
      ensures old(UniqueChildren(augmented)) ==> UniqueChildren(augmented)
    {
      hide Edges, FindFrom, Filter, UniqueChildren;
      var belongs := BelongRelation(seq1, seq2);
      if belongs {
        return;
      }
      var common := CommonElements(seq1, seq2);
      if |common| == 0 {
        AddEdgeToGraph(seq1[|seq1| - 1], seq2[0]);
        AddEdgeToGraph(seq2[|seq2| - 1], seq1[0]);
      } else {
        var edges := FindEdges(seq1, seq2, common);
        AddAll(edges);
      }
    }

    method AddAll(edges: seq<Edge>)
      modifies this`augmented
      ensures Edges(augmented) == old(Edges(augmented)) + (set e | e in edges)
      ensures old(UniqueChildren(augmented)) ==> UniqueChildren(augmented)
    {
      hide Edges, UniqueChildren;
      for k := 0 to |edges|
        invariant old(UniqueChildren(augmented)) ==> UniqueChildren(augmented)
        invariant Edges(augmented) == old(Edges(augmented)) + (set e | e in edges[..k])
      {
        AddEdgeToGraph(edges[k].0, edges[k].1);
        assert edges[..k + 1] == edges[..k] + [edges[k]];
      }
      assert edges[..|edges|] == edges;
    }

    method AddEdgeToGraph(from: Function, to: Function)
      modifies this`augmented
      ensures Edges(augmented) == old(Edges(augmented)) + {(from, to)}
      ensures old(UniqueChildren(augmented)) ==> UniqueChildren(augmented)
    {
      hide Edges, UniqueChildren;
      EdgesGrow(augmented, from, to);
      if from in augmented {
        if to !in augmented[from] {
          augmented := augmented[from := augmented[from] + [to]];
        }
      } else {
        augmented := augmented[from := [to]];
      }
    }

    /** Lists the deep functions that no stored path leads to. */
    method IdentifyNotReachable()
      requires dkNotReachable == []
      modifies this`dkNotReachable
      ensures forall d :: d in dkNotReachable <==> d in dkFunctions && (d !in pathTable || |pathTable[d]| == 0)
    {
      for k := 0 to |dkFunctions|
        invariant forall d :: d in dkNotReachable <==> d in dkFunctions[..k] && (d !in pathTable || |pathTable[d]| == 0)
      {
        assert dkFunctions[..k + 1] == dkFunctions[..k] + [dkFunctions[k]];
        if dkFunctions[k] !in pathTable {
          dkNotReachable := dkNotReachable + [dkFunctions[k]];
        } else {
          if |pathTable[dkFunctions[k]]| == 0 {
            dkNotReachable := dkNotReachable + [dkFunctions[k]];
          }
        }
      }
      assert dkFunctions[..|dkFunctions|] == dkFunctions;
    }

    /** The edges of the two paths were added in an order in which the paths are combinable. */
    ghost predicate Combined(a: Path, b: Path)
      reads this`augmented
    {
      || (HasAll(Edges(augmented), PairEdges(a, b)) && Combinable(a, b))
      || (HasAll(Edges(augmented), PairEdges(b, a)) && Combinable(b, a))
    }

    /** Combinable paths are combined; for paths of one length the order is that of their list. */
    lemma CombinableAreCombined(d: Function, p: Path, q: Path)
      requires Built() && Stored(pathTable, d, p) && Stored(pathTable, d, q) && p != [] && q != []
      requires Combinable(Without(p), Without(q)) && (|p| == |q| && p != q ==> StoredBefore(pathTable, d, p, q))
      ensures Combined(Without(p), Without(q))
    {
      hide PairEdges, Edges, FirstLost, Linked, StoredBefore;
      if p == q {
        NothingForOne(Without(p));
      } else if |p| == |q| {
        assert PairsInOrder(augmented, d);
      } else {
        assert PairsAdded(augmented, d);
      }
    }

    lemma NothingForOne(a: Path)
      ensures PairEdges(a, a) == []
    {
    }

    /** Any two stored paths to a deep function that are combined are visited by one walk of the augmented
        graph, from the start of one of them to the deep function. */
    lemma CombinedWalk(d: Function, p: Path, q: Path) returns (w: Path)
      requires Built() && Stored(pathTable, d, p) && Stored(pathTable, d, q) && p != [] && q != []
      requires Combined(Without(p), Without(q))
      ensures Chain(Edges(augmented), w) && w != [] && w[|w| - 1] == d
      ensures Covers(w, p) && Covers(w, q) && (w[0] == p[0] || w[0] == q[0])
    {
      hide PairEdges, Combinable, Edges;
      var g, a, b := Edges(augmented), Without(p), Without(q);
      assert |p| >= 2 && |q| >= 2;
      assert p == a + [d] && q == b + [d];
      StoredIsChain(d, p);
      StoredIsChain(d, q);
      if HasAll(g, PairEdges(a, b)) && Combinable(a, b) {
        w := PairCombines(g, a, b, d);
      } else {
        w := PairCombines(g, b, a, d);
      }
      w := w + [d];
    }

    /** Stored paths of the same order: wherever two stretches face each other, the augmented graph leads from
        the end of each to the start of the other. */
    lemma FacingAreJoined(d: Function, p: Path, q: Path, e: Edge)
      requires Built() && Stored(pathTable, d, p) && Stored(pathTable, d, q)
      requires p != [] && q != [] && Without(p) != [] && Without(q) != [] && SameOrder(Without(p), Without(q))
      requires Faces(Without(p), Without(q), e) || Faces(Without(q), Without(p), e)
      ensures e in Edges(augmented)
    {
      hide PairEdges, Edges, Faces, SameOrder, Stored;
      var a, b := Without(p), Without(q);
      InBothOrders(a, b);
      EdgesExactly(a, b, e);
      EdgesExactly(b, a, e);
      if p == q {
        NothingForOne(a);
      } else {
        assert PairsAdded(augmented, d);
      }
    }

    /** Stored paths of the same order are walked to the deep function stretch by stretch, in any order of
        the stretches that face each other. */
    lemma WalkedInAnyOrder(d: Function, p: Path, q: Path, swaps: set<nat>)
      requires Built() && Stored(pathTable, d, p) && Stored(pathTable, d, q)
      requires p != [] && q != [] && Without(p) != [] && Without(q) != []
      requires SameOrder(Without(p), Without(q)) && !Belongs(Without(p), Without(q))
      ensures var w := Merged(Shorter(Without(p), Without(q)), Longer(Without(p), Without(q)), 0, 0, swaps);
        Chain(Edges(augmented), w + [d]) && Covers(w, Without(p)) && Covers(w, Without(q))
    {
      hide PairEdges, Edges, Faces, SameOrder, Stored, Merged;
      var a, b := Without(p), Without(q);
      StoredShape(d, p);
      StoredShape(d, q);
      StoredIsChain(d, p);
      StoredIsChain(d, q);
      forall e | Faces(a, b, e) || Faces(b, a, e) ensures e in Edges(augmented) {
        FacingAreJoined(d, p, q, e);
      }
      AnyOrderWalks(Edges(augmented), a, b, d, swaps);
    }

    /** Two stored paths without a common function in front of the deep function are walked one behind the
        other, from either start. */
    lemma DisjointAreWalked(d: Function, p: Path, q: Path)
      requires Built() && Stored(pathTable, d, p) && Stored(pathTable, d, q) && p != [] && q != []
      requires Without(p) != [] && Without(q) != [] && forall f :: f in Without(p) ==> f !in Without(q)
      ensures Chain(Edges(augmented), Without(p) + q) && Chain(Edges(augmented), Without(q) + p)
    {
      hide PairEdges, Edges, Faces, Stored;
      var g, a, b := Edges(augmented), Without(p), Without(q);
      StoredShape(d, p);
      StoredShape(d, q);
      StoredIsChain(d, p);
      StoredIsChain(d, q);
      assert p != q by { assert a[0] in a; }
      assert PairsAdded(augmented, d);
      if HasAll(g, PairEdges(a, b)) {
        DisjointWalks(g, a, b, d);
      } else {
        DisjointWalks(g, b, a, d);
      }
      assert a + q == a + b + [d] && b + p == b + a + [d];
    }

    lemma StoredIsChain(d: Function, p: Path)
      requires Built() && Stored(pathTable, d, p)
      ensures Chain(Edges(augmented), p)
    {
      hide PairEdges, Edges, PairsAdded;
      PathIsChain(Edges(augmented), p);
    }
  }
}
