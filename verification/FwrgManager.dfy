/** From written and read slots to the augmented graph. */
module FwrgManager {
  import opened Merge
  import opened Combining
  import opened UpdateFwrg
  import opened AcyclicPaths

  type Slot = string

  /** A dictionary in insertion order: the slots that each function reads in conditions. */
  type Reads = seq<(Function, seq<Slot>)>

  ghost predicate DistinctNames(slotsRead: Reads) {
    forall i, j :: 0 <= i < j < |slotsRead| ==> slotsRead[i].0 != slotsRead[j].0
  }

  /** A function writes a slot that the other one reads in a condition. */
  ghost predicate Feeds(writes: seq<Slot>, slotsRead: seq<Slot>) {
    exists w :: w in writes && w in slotsRead
  }

  /** The written slots that are read, in the order of the writes. */
  function Both(writes: seq<Slot>, slotsRead: seq<Slot>): seq<Slot> {
    if writes == [] then []
    else
      var n := |writes| - 1;
      Both(writes[..n], slotsRead) + (if writes[n] in slotsRead then [writes[n]] else [])
  }

  lemma {:induction false} BothFeeds(writes: seq<Slot>, slotsRead: seq<Slot>)
    ensures Both(writes, slotsRead) != [] <==> Feeds(writes, slotsRead)
  {
    if writes != [] {
      var n := |writes| - 1;
      BothFeeds(writes[..n], slotsRead);
      assert writes == writes[..n] + [writes[n]];
    }
  }

  ghost predicate IsReader(writes: seq<Slot>, slotsRead: Reads, c: Function) {
    exists k :: 0 <= k < |slotsRead| && slotsRead[k].0 == c && Feeds(writes, slotsRead[k].1)
  }

  /** `children` are the functions that read one of the slots, each once, and `labels` the slots they read. */
  ghost predicate AreReaders(writes: seq<Slot>, slotsRead: Reads, children: seq<Function>, labels: seq<seq<Slot>>) {
    && (forall c :: c in children <==> IsReader(writes, slotsRead, c))
    && (forall i, j :: 0 <= i < j < |children| ==> children[i] != children[j])
    && |labels| == |children|
    && forall i :: 0 <= i < |children| ==> IsLabel(writes, slotsRead, children[i], labels[i])
  }

  ghost predicate IsLabel(writes: seq<Slot>, slotsRead: Reads, child: Function, slots: seq<Slot>) {
    exists k :: 0 <= k < |slotsRead| && slotsRead[k].0 == child && slots == Both(writes, slotsRead[k].1)
  }

  /** The functions that read one of the slots, in dictionary order, each with the slots it reads. */
  method Readers(writes: seq<Slot>, slotsRead: Reads) returns (children: seq<Function>, labels: seq<seq<Slot>>)
    requires DistinctNames(slotsRead)
    ensures AreReaders(writes, slotsRead, children, labels)
  {
    children, labels := [], [];
    for k := 0 to |slotsRead|
      invariant AreReaders(writes, slotsRead[..k], children, labels)
    {
      var slots := SlotsRead(writes, slotsRead[k].1);
      OneMoreReader(writes, slotsRead, k, children, labels, slots);
      if slots != [] {
        children := children + [slotsRead[k].0];
        labels := labels + [slots];
      }
    }
    assert slotsRead[..|slotsRead|] == slotsRead;
  }

  lemma OneMoreReader(writes: seq<Slot>, slotsRead: Reads, k: nat, children: seq<Function>, labels: seq<seq<Slot>>, slots: seq<Slot>)
    requires k < |slotsRead| && DistinctNames(slotsRead) && AreReaders(writes, slotsRead[..k], children, labels)
    requires slots == Both(writes, slotsRead[k].1)
    ensures slots == [] ==> AreReaders(writes, slotsRead[..k + 1], children, labels)
    ensures slots != [] ==> AreReaders(writes, slotsRead[..k + 1], children + [slotsRead[k].0], labels + [slots])
  {
    hide Feeds, Both;
    var before, after := slotsRead[..k], slotsRead[..k + 1];
    assert after == before + [slotsRead[k]];
    BothFeeds(writes, slotsRead[k].1);
    forall c ensures IsReader(writes, after, c) <==> IsReader(writes, before, c) || (c == slotsRead[k].0 && slots != []) {
      if m :| 0 <= m < |before| && before[m].0 == c && Feeds(writes, before[m].1) {
        assert after[m] == before[m];
      }
      assert after[k] == slotsRead[k];
    }
    assert slotsRead[k].0 !in children;
    forall c, l | IsLabel(writes, before, c, l) ensures IsLabel(writes, after, c, l) {
      var m :| 0 <= m < |before| && before[m].0 == c && l == Both(writes, before[m].1);
      assert after[m] == before[m];
    }
    assert after[k].0 == slotsRead[k].0 && slots == Both(writes, after[k].1);
  }

  /** The loop over the written slots. */
  method SlotsRead(writes: seq<Slot>, slotsRead: seq<Slot>) returns (slots: seq<Slot>)
    ensures slots == Both(writes, slotsRead)
  {
    slots := [];
    for i := 0 to |writes|
      invariant slots == Both(writes[..i], slotsRead)
    {
      assert writes[..i + 1][..i] == writes[..i];
      if writes[i] in slotsRead {
        slots := slots + [writes[i]];
      }
    }
    assert writes[..|writes|] == writes;
  }

  type Labels = map<Function, seq<seq<Slot>>>

  /** An edge leads from each function to exactly the functions that read what it writes, with these slots. */
  ghost predicate IsGraph(writes: map<Function, seq<Slot>>, slotsRead: Reads, graph: Graph, labels: Labels) {
    && graph.Keys == writes.Keys && labels.Keys == writes.Keys
    && forall f :: f in writes ==> AreReaders(writes[f], slotsRead, graph[f], labels[f])
  }

  /** An edge leads from each function to every function that reads in a condition what it writes. */
  method GenerateFwrg(writes: map<Function, seq<Slot>>, slotsRead: Reads) returns (graph: Graph, labels: Labels)
    requires DistinctNames(slotsRead)
    ensures IsGraph(writes, slotsRead, graph, labels) && UniqueChildren(graph)
  {
    hide AreReaders;
    graph, labels := map[], map[];
    var todo := writes.Keys;
    while todo != {}
      invariant todo <= writes.Keys && graph.Keys == writes.Keys - todo && labels.Keys == writes.Keys - todo
      invariant forall f :: f in graph ==> AreReaders(writes[f], slotsRead, graph[f], labels[f])
    {
      var f :| f in todo;
      if |writes[f]| == 0 {
        NoReaders(slotsRead);
        graph, labels := graph[f := []], labels[f := []];
      } else {
        var children, slots := Readers(writes[f], slotsRead);
        graph, labels := graph[f := children], labels[f := slots];
      }
      todo := todo - {f};
    }
    GraphIsUnique(writes, slotsRead, graph, labels);
  }

  lemma NoReaders(slotsRead: Reads)
    ensures AreReaders([], slotsRead, [], [])
  {
  }

  lemma GraphIsUnique(writes: map<Function, seq<Slot>>, slotsRead: Reads, graph: Graph, labels: Labels)
    requires IsGraph(writes, slotsRead, graph, labels)
    ensures UniqueChildren(graph)
  {
    forall f, i, j | f in graph && 0 <= i < j < |graph[f]| ensures graph[f][i] != graph[f][j] {
      assert AreReaders(writes[f], slotsRead, graph[f], labels[f]);
    }
  }

  // ---------- the inverse graph ----------

  /** The functions that write what a function reads in a condition. */
  function Parents(inverse: Graph, f: Function): seq<Function> {
    if f in inverse then inverse[f] else []
  }

  /** Every function that reads in conditions gets the functions that write one of these slots. */
  method GenerateFrwg(writes: map<Function, seq<Slot>>, slotsRead: Reads) returns (inverse: Graph)
    requires DistinctNames(slotsRead)
    ensures forall k, w :: 0 <= k < |slotsRead| ==>
      (w in Parents(inverse, slotsRead[k].0) <==> w in writes && Feeds(writes[w], slotsRead[k].1))
    ensures forall f :: f in inverse ==> exists k :: 0 <= k < |slotsRead| && slotsRead[k].0 == f
  {
    hide Feeds;
    inverse := map[];
    for k := 0 to |slotsRead|
      invariant forall m, w :: 0 <= m < k ==> (w in Parents(inverse, slotsRead[m].0) <==> w in writes && Feeds(writes[w], slotsRead[m].1))
      invariant forall f :: f in inverse ==> exists m :: 0 <= m < k && slotsRead[m].0 == f
    {
      var f := slotsRead[k].0;
      assert f !in inverse;
      if |slotsRead[k].1| == 0 {
        inverse := inverse[f := []];
        NothingFeeds(slotsRead[k].1);
      } else {
        var parents := Writers(writes, slotsRead[k].1);
        if |parents| > 0 {
          inverse := inverse[f := parents];
        }
      }
    }
  }

  lemma NothingFeeds(slotsRead: seq<Slot>)
    requires slotsRead == []
    ensures forall w: seq<Slot> :: !Feeds(w, slotsRead)
  {
  }

  method Writers(writes: map<Function, seq<Slot>>, slotsRead: seq<Slot>) returns (parents: seq<Function>)
    ensures forall w :: w in parents <==> w in writes && Feeds(writes[w], slotsRead)
  {
    parents := [];
    var todo := writes.Keys;
    while todo != {}
      invariant todo <= writes.Keys
      invariant forall w :: w in parents <==> w in writes && w !in todo && Feeds(writes[w], slotsRead)
    {
      var f :| f in todo;
      var found := false;
      for i := 0 to |slotsRead|
        invariant found <==> exists j :: 0 <= j < i && slotsRead[j] in writes[f]
      {
        if slotsRead[i] in writes[f] {
          found := true;
        }
      }
      assert found <==> Feeds(writes[f], slotsRead);
      if found {
        parents := parents + [f];
      }
      todo := todo - {f};
    }
  }

  /** The inverse graph turns the edges of the graph around. */
  lemma InverseTurnsAround(writes: map<Function, seq<Slot>>, slotsRead: Reads, graph: Graph, labels: Labels, inverse: Graph, f: Function, w: Function)
    requires DistinctNames(slotsRead) && IsGraph(writes, slotsRead, graph, labels)
    requires forall k, v :: 0 <= k < |slotsRead| ==> (v in Parents(inverse, slotsRead[k].0) <==> v in writes && Feeds(writes[v], slotsRead[k].1))
    requires forall g :: g in inverse ==> exists k :: 0 <= k < |slotsRead| && slotsRead[k].0 == g
    ensures w in Parents(inverse, f) <==> f in Children(graph, w)
  {
    hide Feeds;
    if w in graph {
      assert AreReaders(writes[w], slotsRead, graph[w], labels[w]);
    }
    if w in Parents(inverse, f) {
      var k :| 0 <= k < |slotsRead| && slotsRead[k].0 == f;
      assert w in Parents(inverse, slotsRead[k].0);
    }
  }

  class FwrgManager {
    const fwrg: Graph
    const labels: Labels
    const frwg: Graph
    const fwrgAllReads: Graph
    const acyclicPaths: AcyclicPath
    const updateFwrg: UpdateFwrg

    constructor (limit: nat, writes: map<Function, seq<Slot>>, slotsRead: Reads, allRead: Reads, startFunctions: seq<Function>, dkFunctions: seq<Function>)
      requires DistinctNames(slotsRead) && DistinctNames(allRead)
      ensures Enumerated() && updateFwrg.Built() && updateFwrg.pathTable == acyclicPaths.pathsDf
      ensures acyclicPaths.pathLenLimit == limit && acyclicPaths.startFunctions == startFunctions
      ensures acyclicPaths.dkFunctions == updateFwrg.dkFunctions == dkFunctions
      ensures acyclicPaths.graph == fwrg && IsGraph(writes, slotsRead, fwrg, labels)
      ensures forall f, w :: w in Parents(frwg, f) <==> f in Children(fwrg, w)
      ensures exists l :: IsGraph(writes, allRead, fwrgAllReads, l)
    {
      var graph, slots := GenerateFwrg(writes, slotsRead);
      var inverse := GenerateFrwg(writes, slotsRead);
      forall f, w ensures w in Parents(inverse, f) <==> f in Children(graph, w) {
        InverseTurnsAround(writes, slotsRead, graph, slots, inverse, f, w);
      }
      var all, allSlots := GenerateFwrg(writes, allRead);
      var paths := new AcyclicPath(limit, graph, startFunctions, dkFunctions);
      TableFits(paths);
      var update := new UpdateFwrg(dkFunctions, paths.pathsDf);
      fwrg, labels, frwg, fwrgAllReads := graph, slots, inverse, all;
      acyclicPaths := paths;
      updateFwrg := update;
      new;
      assert IsGraph(writes, allRead, all, allSlots);
    }

    /** The stored paths are exactly those that lead from a start to a deep function. */
    ghost predicate Enumerated()
      reads acyclicPaths
    {
      EnumeratedBy(acyclicPaths)
    }

    /** A walk of the augmented graph visits every function of two stored paths to the same deep function,
        whenever the paths are combinable, for paths of one length in the order in which they are listed. */
    lemma CombinesPaths(d: Function, p: Path, q: Path) returns (w: Path)
      requires Enumerated() && updateFwrg.Built() && updateFwrg.pathTable == acyclicPaths.pathsDf
      requires d in acyclicPaths.dkFunctions && StartLeads(p, d) && StartLeads(q, d)
      requires Combinable(Without(p), Without(q)) && (|p| == |q| && p != q ==> StoredBefore(acyclicPaths.pathsDf, d, p, q))
      ensures Chain(Edges(updateFwrg.augmented), w) && w != [] && w[|w| - 1] == d
      ensures Covers(w, p) && Covers(w, q) && (w[0] == p[0] || w[0] == q[0])
    {
      hide Combinable, Stored, StoredBefore;
      assert Stored(acyclicPaths.pathsDf, d, p) && Stored(acyclicPaths.pathsDf, d, q);
      updateFwrg.CombinableAreCombined(d, p, q);
      w := updateFwrg.CombinedWalk(d, p, q);
    }

    /** Of two paths of one length one is listed in front of the other. */
    lemma ListedInOrder(d: Function, p: Path, q: Path)
      requires Enumerated() && d in acyclicPaths.dkFunctions && StartLeads(p, d) && StartLeads(q, d)
      requires |p| == |q| && p != q
      ensures StoredBefore(acyclicPaths.pathsDf, d, p, q) || StoredBefore(acyclicPaths.pathsDf, d, q, p)
    {
      hide Leads, Stored, StoredBefore, TableShape;
      OrderInTable(acyclicPaths.pathsDf, d, p, q);
    }

    /** Stored paths double at most their start, and have their deep function at the end only, except for
        a deep start that calls itself. */
    lemma StoredAreSimple(d: Function, p: Path)
      requires StartLeads(p, d)
      ensures |p| >= 2 && Simple(Undoubled(Without(p))) && (d !in Without(p) || p == [d, d])
    {
      hide Leads;
      var s :| s in acyclicPaths.startFunctions && Leads(acyclicPaths.graph, acyclicPaths.pathLenLimit, s, d, p);
      LeadsIsSimple(acyclicPaths.graph, acyclicPaths.pathLenLimit, s, d, p);
    }

    /** Paths from starts that call themselves included: shared functions in the same order apart from doubled
        starts are enough, unless one path doubles a start that the other has undoubled. */
    lemma CombinesOrdered(d: Function, p: Path, q: Path) returns (w: Path)
      requires Enumerated() && updateFwrg.Built() && updateFwrg.pathTable == acyclicPaths.pathsDf
      requires d in acyclicPaths.dkFunctions && StartLeads(p, d) && StartLeads(q, d)
      requires SameOrder(Undoubled(Without(p)), Undoubled(Without(q)))
      requires DoublingFits(Shorter(Without(p), Without(q)), Longer(Without(p), Without(q)))
      requires |p| == |q| && p != q ==> StoredBefore(acyclicPaths.pathsDf, d, p, q)
      ensures Chain(Edges(updateFwrg.augmented), w) && w != [] && w[|w| - 1] == d
      ensures Covers(w, p) && Covers(w, q) && (w[0] == p[0] || w[0] == q[0])
    {
      hide Combinable, Stored, StoredBefore, StartLeads, SameOrder, DoublingFits, Undoubled, Simple, Enumerated;
      StoredAreSimple(d, p);
      StoredAreSimple(d, q);
      DoubledAreCombinable(Without(p), Without(q));
      w := CombinesPaths(d, p, q);
    }

    /** The deep functions listed as unreachable are exactly those that no other start reaches by a walk of
        at most `pathLenLimit` functions and that are not themselves starts that call themselves. */
    lemma ListedAreUnreachable(d: Function)
      requires Enumerated() && updateFwrg.Built() && updateFwrg.pathTable == acyclicPaths.pathsDf
      requires updateFwrg.dkFunctions == acyclicPaths.dkFunctions
      ensures d in updateFwrg.dkNotReachable <==>
        && d in acyclicPaths.dkFunctions
        && (forall s, w :: s in acyclicPaths.startFunctions && s != d && Walk(acyclicPaths.graph, s, d, w) ==> |w| > acyclicPaths.pathLenLimit)
        && (d in acyclicPaths.startFunctions && d in Children(acyclicPaths.graph, d) ==> acyclicPaths.pathLenLimit < 2)
    {
      hide Walk, Leads, Stored, PairEdges;
      if d in acyclicPaths.dkFunctions {
        UnreachableExactly(acyclicPaths, d);
      }
    }

    /** `p` leads from some start to `d`. */
    ghost predicate StartLeads(p: Path, d: Function) {
      p != [] && exists s :: s in acyclicPaths.startFunctions && Leads(acyclicPaths.graph, acyclicPaths.pathLenLimit, s, d, p)
    }
  }

  lemma OrderInTable(table: PathTable, d: Function, p: Path, q: Path)
    requires TableShape(table) && Stored(table, d, p) && Stored(table, d, q)
    requires |p| == |q| && p != q && p != []
    ensures StoredBefore(table, d, p, q) || StoredBefore(table, d, q, p)
  {
    hide TableShape, InFront;
    var n :| n in table[d] && p in table[d][n];
    var m :| m in table[d] && q in table[d][m];
    ClassOfLength(table, d, n, p);
    ClassOfLength(table, d, m, q);
    SomeOrder(table[d][n], p, q);
  }

  lemma ClassOfLength(table: PathTable, d: Function, n: nat, p: Path)
    requires TableShape(table) && d in table && n in table[d] && p in table[d][n]
    ensures n == |p| - 1
  {
    hide Stored;
  }

  lemma SomeOrder(list: seq<Path>, p: Path, q: Path)
    requires p in list && q in list && p != q
    ensures InFront(list, p, q) || InFront(list, q, p)
  {
    var i :| 0 <= i < |list| && list[i] == p;
    var j :| 0 <= j < |list| && list[j] == q;
    assert i < j ==> InFront(list, p, q);
    assert j < i ==> InFront(list, q, p);
  }

  ghost predicate EnumeratedBy(a: AcyclicPath)
    reads a
  {
    && TableShape(a.pathsDf)
    && forall d, p :: Stored(a.pathsDf, d, p) <==>
      d in a.dkFunctions && exists s :: s in a.startFunctions && Leads(a.graph, a.pathLenLimit, s, d, p)
  }

  lemma TableFits(a: AcyclicPath)
    requires EnumeratedBy(a)
    ensures TableOk(a.pathsDf)
  {
    hide Stored, Leads;
    forall d, p | Stored(a.pathsDf, d, p) ensures |p| >= 2 && p[|p| - 1] == d {
      var s :| s in a.startFunctions && Leads(a.graph, a.pathLenLimit, s, d, p);
      LeadsFits(a.graph, a.pathLenLimit, s, d, p);
    }
  }

  lemma LeadsFits(g: Graph, limit: nat, s: Function, d: Function, p: Path)
    requires Leads(g, limit, s, d, p)
    ensures |p| >= 2 && p[|p| - 1] == d
  {
    hide Written;
    if r :| SimplePath(g, s, r) && 2 <= |r| <= limit && r[|r| - 1] == d && p == Written(g, r) {
      WrittenKeeps(g, r);
      WrittenLong(g, r);
    }
  }

  lemma PlainFront(r: Path)
    requires Simple(r) && |r| >= 2
    ensures var a := Without(r); a != [] && Simple(a) && r[|r| - 1] !in a && Undoubled(a) == a && Undoubled([a[0]] + a) == a
  {
    var a := Without(r);
    forall i, j | 0 <= i < j < |a| ensures a[i] != a[j] {
      assert r[i] != r[j];
    }
    assert ([a[0]] + a)[1..] == a;
  }

  lemma LeadsIsSimple(g: Graph, limit: nat, s: Function, d: Function, p: Path)
    requires Leads(g, limit, s, d, p)
    ensures |p| >= 2 && Simple(Undoubled(Without(p))) && (d !in Without(p) || p == [d, d])
  {
    hide Simple, Undoubled, Follows, LoopBefore;
    if r :| SimplePath(g, s, r) && 2 <= |r| <= limit && r[|r| - 1] == d && p == Written(g, r) {
      PlainFront(r);
      assert p == r || (p == [r[0]] + r && Without(p) == [Without(r)[0]] + Without(r));
    } else {
      LoneIsSimple(s);
    }
  }

  lemma LoneIsSimple(s: Function)
    ensures Without([s, s]) == [s] && Simple(Undoubled([s]))
  {
  }
}
