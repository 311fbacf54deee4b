/** Which functions are executed next on a state. */
module FunctionAssignment {
  import opened Merge
  import opened UpdateFwrg
  import opened AcyclicPaths

  /** A state key: the executed functions and a number. */
  datatype Key = Key(functions: seq<Function>, index: nat)

  /** A deep function and its coverage in percent. */
  type Coverage = (Function, real)

  // ---------- reachability ----------

  /** The functions at the end of walks of exactly `k` edges. */
  ghost function Layer(g: Graph, f: Function, k: nat): set<Function> {
    if k == 0 then {f} else set p, c | p in Layer(g, f, k - 1) && c in Children(g, p) :: c
  }

  lemma {:induction false} LayerHasWalk(g: Graph, f: Function, k: nat, v: Function) returns (w: Path)
    requires v in Layer(g, f, k)
    ensures Walk(g, f, v, w) && |w| == k + 1
  {
    if k == 0 {
      w := [f];
    } else {
      var p :| p in Layer(g, f, k - 1) && v in Children(g, p);
      w := LayerHasWalk(g, f, k - 1, p);
      WalkGrows(g, f, p, w, v);
      w := w + [v];
    }
  }

  lemma {:induction false} WalkIsInLayer(g: Graph, f: Function, v: Function, w: Path)
    requires Walk(g, f, v, w)
    ensures v in Layer(g, f, |w| - 1)
    decreases |w|
  {
    if |w| > 1 {
      var p := w[|w| - 2];
      assert w[|w| - 2 + 1] in Children(g, p);
      WalkShrinks(g, f, w);
      WalkIsInLayer(g, f, p, w[..|w| - 1]);
    }
  }

  lemma LayerIsWalks(g: Graph, f: Function, k: nat, v: Function)
    ensures v in Layer(g, f, k) <==> exists w :: Walk(g, f, v, w) && |w| == k + 1
  {
    hide Walk, Layer;
    if v in Layer(g, f, k) {
      var w := LayerHasWalk(g, f, k, v);
    }
    if w :| Walk(g, f, v, w) && |w| == k + 1 {
      WalkIsInLayer(g, f, v, w);
    }
  }

  lemma WalkGrows(g: Graph, f: Function, p: Function, w: Path, v: Function)
    requires Walk(g, f, p, w) && v in Children(g, p)
    ensures Walk(g, f, v, w + [v])
  {
    var u := w + [v];
    forall i | 0 <= i < |u| - 1 ensures u[i + 1] in Children(g, u[i]) {
      if i < |w| - 1 {
        assert w[i + 1] in Children(g, w[i]);
      }
    }
  }

  lemma WalkShrinks(g: Graph, f: Function, w: Path)
    requires |w| >= 2 && Walk(g, f, w[|w| - 1], w)
    ensures Walk(g, f, w[|w| - 2], w[..|w| - 1])
  {
    var u := w[..|w| - 1];
    forall i | 0 <= i < |u| - 1 ensures u[i + 1] in Children(g, u[i]) {
      assert w[i + 1] in Children(g, w[i]);
    }
  }

  /** A walk of at most `depth` edges ends in a target. A negative bound counts as zero. */
  ghost predicate CanReach(g: Graph, f: Function, targets: seq<Function>, depth: int) {
    exists v, w :: v in targets && Walk(g, f, v, w) && (|w| == 1 || |w| - 1 <= depth)
  }

  ghost predicate HitsTarget(g: Graph, f: Function, targets: seq<Function>, k: nat) {
    exists v :: v in targets && v in Layer(g, f, k)
  }

  lemma ReachIsHit(g: Graph, f: Function, targets: seq<Function>, depth: int)
    ensures CanReach(g, f, targets, depth) <==> HitsTarget(g, f, targets, 0) || exists k: nat :: k <= depth && HitsTarget(g, f, targets, k)
  {
    hide Walk, Layer;
    if CanReach(g, f, targets, depth) {
      var v, w :| v in targets && Walk(g, f, v, w) && (|w| == 1 || |w| - 1 <= depth);
      WalkNonEmpty(g, f, v, w);
      LayerIsWalks(g, f, |w| - 1, v);
      assert HitsTarget(g, f, targets, |w| - 1);
    }
    if k: nat :| (k == 0 || k <= depth) && HitsTarget(g, f, targets, k) {
      var v :| v in targets && v in Layer(g, f, k);
      LayerIsWalks(g, f, k, v);
    }
  }

  lemma WalkNonEmpty(g: Graph, f: Function, v: Function, w: Path)
    requires Walk(g, f, v, w)
    ensures |w| >= 1
  {
  }

  /** All children of a frontier, and whether one of them is a target. */
  method Frontier(g: Graph, functions: set<Function>, targets: seq<Function>) returns (next: set<Function>, hit: bool)
    ensures next == set p, c | p in functions && c in Children(g, p) :: c
    ensures hit <==> exists c :: c in next && c in targets
  {
    next, hit := {}, false;
    var rest := functions;
    while rest != {}
      invariant rest <= functions
      invariant next == set p, c | p in functions && p !in rest && c in Children(g, p) :: c
      invariant hit <==> exists c :: c in next && c in targets
    {
      var f :| f in rest;
      var children := Children(g, f);
      ghost var before := next;
      for i := 0 to |children|
        invariant next == before + (set j | 0 <= j < i :: children[j])
        invariant hit <==> exists c :: c in next && c in targets
      {
        if children[i] in targets {
          hit := true;
        }
        next := next + {children[i]};
      }
      assert next == before + set c | c in children;
      rest := rest - {f};
    }
  }

  /** The breadth-first frontier loop. */
  method CanReachTargets(g: Graph, f: Function, targets: seq<Function>, maxDepth: int) returns (r: bool)
    ensures r == CanReach(g, f, targets, maxDepth)
  {
    hide HitsTarget, CanReach;
    ReachIsHit(g, f, targets, maxDepth);
    LayerZero(g, f, targets);
    if f in targets {
      return true;
    }
    var depth, functions := 0, {f};
    while depth < maxDepth
      invariant 0 <= depth && (depth <= maxDepth || depth == 0)
      invariant functions == Layer(g, f, depth)
      invariant forall k: nat :: k <= depth ==> !HitsTarget(g, f, targets, k)
    {
      depth := depth + 1;
      var hit;
      functions, hit := Frontier(g, functions, targets);
      LayerStep(g, f, targets, depth);
      if hit {
        return true;
      }
    }
    return false;
  }

  lemma LayerZero(g: Graph, f: Function, targets: seq<Function>)
    ensures Layer(g, f, 0) == {f} && (HitsTarget(g, f, targets, 0) <==> f in targets)
  {
  }

  lemma LayerStep(g: Graph, f: Function, targets: seq<Function>, k: nat)
    requires k > 0
    ensures Layer(g, f, k) == set p, c | p in Layer(g, f, k - 1) && c in Children(g, p) :: c
    ensures HitsTarget(g, f, targets, k) <==> exists c :: c in Layer(g, f, k) && c in targets
  {
  }

  /** The targets among a function and its children, each once. */
  method TargetsInOneStep(g: Graph, f: Function, targets: seq<Function>) returns (reached: seq<Function>)
    ensures forall v :: v in reached <==> v in targets && (v == f || v in Children(g, f))
    ensures forall i, j :: 0 <= i < j < |reached| ==> reached[i] != reached[j]
  {
    reached := [];
    if f in targets {
      reached := [f];
    }
    var children := Children(g, f);
    for i := 0 to |children|
      invariant forall v :: v in reached <==> v in targets && (v == f || v in children[..i])
      invariant forall i, j :: 0 <= i < j < |reached| ==> reached[i] != reached[j]
    {
      assert children[..i + 1] == children[..i] + [children[i]];
      if children[i] in targets && children[i] !in reached {
        reached := reached + [children[i]];
      }
    }
    assert children[..|children|] == children;
  }

  // ---------- assignments ----------

  function Record(times: map<Function, nat>, chosen: seq<Function>): (r: map<Function, nat>)
    ensures r.Keys == times.Keys
    decreases |chosen|
  {
    if chosen == [] then times
    else
      var before := Record(times, chosen[..|chosen| - 1]);
      var f := chosen[|chosen| - 1];
      if f in before then before[f := before[f] + 1] else before
  }

  /** Every known function is counted once per mention, and nothing else is counted. */
  lemma {:induction false} RecordCounts(times: map<Function, nat>, chosen: seq<Function>, f: Function)
    requires f in times
    ensures Record(times, chosen)[f] == times[f] + multiset(chosen)[f]
  {
    if chosen != [] {
      var n := |chosen| - 1;
      RecordCounts(times, chosen[..n], f);
      assert chosen == chosen[..n] + [chosen[n]];
    }
  }

  /** In a list without repetition every function is mentioned once. */
  lemma {:induction false} MentionedOnce(s: seq<Function>)
    requires Simple(s)
    ensures forall f :: multiset(s)[f] == if f in s then 1 else 0
  {
    if s != [] {
      var n := |s| - 1;
      assert s == s[..n] + [s[n]];
      MentionedOnce(s[..n]);
    }
  }

  /** Every known function is counted once per mention, and no other count changes. */
  ghost predicate CountedEach(before: map<Function, nat>, after: map<Function, nat>, chosen: seq<Function>) {
    after.Keys == before.Keys && forall f :: f in before ==> after[f] == before[f] + multiset(chosen)[f]
  }

  /** The count of every function in the list grows by one, and no other. */
  ghost predicate CountedOnce(before: map<Function, nat>, after: map<Function, nat>, chosen: seq<Function>) {
    after.Keys == before.Keys && forall f :: f in before ==> after[f] == before[f] + if f in chosen then 1 else 0
  }

  lemma OneIsSimple(f: Function)
    ensures Simple([f])
  {
  }

  /** A deep function is still a target while it has been assigned less often than the limit, or less
      than twice the limit with low coverage. */
  predicate IsLeft(times: map<Function, nat>, limit: nat, dk: Coverage)
    requires dk.0 in times
  {
    times[dk.0] < limit || (times[dk.0] < 2 * limit && dk.1 < 70.0)
  }

  class FunctionAssignment {
    const allFunctions: seq<Function>
    const augmented: Graph
    const dkNotReachable: seq<Function>
    const timesLimit: nat
    const seqLenLimit: nat
    var assignmentTimes: map<Function, nat>

    constructor (allFunctions: seq<Function>, augmented: Graph, dkNotReachable: seq<Function>, timesLimit: nat, seqLenLimit: nat)
      ensures this.allFunctions == allFunctions && this.augmented == augmented && this.dkNotReachable == dkNotReachable
      ensures this.timesLimit == timesLimit && this.seqLenLimit == seqLenLimit
      ensures assignmentTimes.Keys == (set f | f in allFunctions) + {"fallback"} && forall f :: f in assignmentTimes ==> assignmentTimes[f] == 0
    {
      this.allFunctions := allFunctions;
      this.augmented := augmented;
      this.dkNotReachable := dkNotReachable;
      this.timesLimit := timesLimit;
      this.seqLenLimit := seqLenLimit;
      assignmentTimes := map[];
      new;
      for i := 0 to |allFunctions|
        invariant forall f :: f in assignmentTimes <==> f in allFunctions[..i]
        invariant forall f :: f in assignmentTimes ==> assignmentTimes[f] == 0
      {
        assert allFunctions[..i + 1] == allFunctions[..i] + [allFunctions[i]];
        assignmentTimes := assignmentTimes[allFunctions[i] := 0];
      }
      assert allFunctions[..|allFunctions|] == allFunctions;
      if "fallback" !in assignmentTimes {
        assignmentTimes := assignmentTimes["fallback" := 0];
      }
    }

    /** No list of children in the graph has repetitions. */
    ghost predicate Unrepeated() {
      UniqueChildren(augmented)
    }

    method RecordAssignment(chosen: seq<Function>)
      modifies this`assignmentTimes
      ensures CountedEach(old(assignmentTimes), assignmentTimes, chosen)
      ensures Simple(chosen) ==> CountedOnce(old(assignmentTimes), assignmentTimes, chosen)
    {
      for i := 0 to |chosen|
        invariant assignmentTimes == Record(old(assignmentTimes), chosen[..i])
      {
        assert chosen[..i + 1][..i] == chosen[..i];
        if chosen[i] in assignmentTimes {
          assignmentTimes := assignmentTimes[chosen[i] := assignmentTimes[chosen[i]] + 1];
        }
      }
      assert chosen[..|chosen|] == chosen;
      forall f | f in assignmentTimes ensures assignmentTimes[f] == old(assignmentTimes)[f] + multiset(chosen)[f] {
        RecordCounts(old(assignmentTimes), chosen, f);
      }
      if Simple(chosen) {
        MentionedOnce(chosen);
      }
    }

    /** For the one state of a single start function: everything, or the original code if no function is known. */
    method AssignAllFunctions() returns (r: seq<Function>)
      modifies this`assignmentTimes
      ensures r == if allFunctions == [] then ["original_instruction_list"] else allFunctions
      ensures assignmentTimes.Keys == old(assignmentTimes).Keys
      ensures if allFunctions == [] then assignmentTimes == old(assignmentTimes)
              else CountedEach(old(assignmentTimes), assignmentTimes, allFunctions)
    {
      if |allFunctions| == 0 {
        return ["original_instruction_list"];
      }
      RecordAssignment(allFunctions);
      return allFunctions;
    }

    predicate IsFallbackCase(key: Key)
      requires key.functions != []
    {
      key.functions[|key.functions| - 1] in {"fallback", "Fallback"} && allFunctions == []
    }

    /** The functions to execute on a state. A fixed list is used as it is; otherwise they are the
        children in the augmented graph from which a target can still be reached within the sequence
        limit, and the deep functions without any path that are under their budget. Functions of the
        sequence other than the last one are never repeated. */
    method AssignFunctions(key: Key, dk: seq<Coverage>, toExecute: seq<Function>, notToExecute: seq<Function>) returns (r: seq<Function>)
      requires key.functions != []
      requires forall i :: 0 <= i < |dk| ==> dk[i].0 in assignmentTimes
      requires forall u :: u in dkNotReachable ==> u in assignmentTimes
      modifies this`assignmentTimes
      ensures toExecute != [] ==> r == toExecute
      ensures toExecute == [] && key.functions[|key.functions| - 1] in ["fallback", "Fallback"] && allFunctions == [] ==>
        r == ["original_instruction_list"] && assignmentTimes == old(assignmentTimes)
      ensures toExecute == [] && !IsFallbackCase(key) ==>
        forall c :: c in r <==> old(Chosen(key, dk, notToExecute, c))
      ensures if toExecute == [] && IsFallbackCase(key) then assignmentTimes == old(assignmentTimes)
              else CountedEach(old(assignmentTimes), assignmentTimes, r)
      ensures toExecute == [] && Unrepeated() ==> Simple(r)
      ensures toExecute == [] && !IsFallbackCase(key) && Unrepeated() ==> CountedOnce(old(assignmentTimes), assignmentTimes, r)
    {
      hide CanReach, ReachesLeft, Record, IsLeft, Simple, Unrepeated, CountedOnce, CountedEach;
      assert Simple(["original_instruction_list"]) by { OneIsSimple("original_instruction_list"); }
      if |toExecute| > 0 {
        RecordAssignment(toExecute);
        return toExecute;
      }
      var functions := key.functions;
      if IsFallbackCase(key) {
        return ["original_instruction_list"];
      }
      var left := Left(dk);
      var children := Children(augmented, functions[|functions| - 1]);
      if Unrepeated() {
        ChildrenAreSimple(functions[|functions| - 1]);
      }
      r := ReachingChildren(children, notToExecute, left, seqLenLimit - |functions| - 1);
      ReachIsReachesLeft(dk, left, seqLenLimit - |functions| - 1);
      var considered := NotReachable();
      r := AddMissing(r, considered);
      if |functions| >= 2 {
        r := RemoveAll(r, functions[..|functions| - 1]);
      }
      assert |functions| < 2 ==> functions[..|functions| - 1] == [];
      RecordAssignment(r);
    }

    lemma ChildrenAreSimple(f: Function)
      requires Unrepeated()
      ensures Simple(Children(augmented, f))
    {
    }

    /** What makes `c` one of the functions to execute. */
    ghost predicate Chosen(key: Key, dk: seq<Coverage>, notToExecute: seq<Function>, c: Function)
      requires key.functions != []
      requires forall i :: 0 <= i < |dk| ==> dk[i].0 in assignmentTimes
      requires forall u :: u in dkNotReachable ==> u in assignmentTimes
      reads this`assignmentTimes
    {
      var functions := key.functions;
      && c !in functions[..|functions| - 1]
      && (|| (c in Children(augmented, functions[|functions| - 1]) && c !in notToExecute && ReachesLeft(c, dk, seqLenLimit - |functions| - 1))
          || (c in dkNotReachable && assignmentTimes[c] < timesLimit))
    }

    /** A walk of at most `depth` edges leads from `c` to a deep function that is still a target. */
    ghost predicate ReachesLeft(c: Function, dk: seq<Coverage>, depth: int)
      requires forall i :: 0 <= i < |dk| ==> dk[i].0 in assignmentTimes
      reads this`assignmentTimes
    {
      exists i, w :: 0 <= i < |dk| && IsLeft(assignmentTimes, timesLimit, dk[i]) && Walk(augmented, c, dk[i].0, w) && (|w| == 1 || |w| - 1 <= depth)
    }

    lemma ReachIsReachesLeft(dk: seq<Coverage>, left: seq<Function>, depth: int)
      requires forall i :: 0 <= i < |dk| ==> dk[i].0 in assignmentTimes
      requires forall f :: f in left <==> exists i :: 0 <= i < |dk| && dk[i].0 == f && IsLeft(assignmentTimes, timesLimit, dk[i])
      ensures forall c :: CanReach(augmented, c, left, depth) <==> ReachesLeft(c, dk, depth)
    {
      hide IsLeft, Walk;
    }

    method Left(dk: seq<Coverage>) returns (left: seq<Function>)
      requires forall i :: 0 <= i < |dk| ==> dk[i].0 in assignmentTimes
      ensures forall f :: f in left <==> exists i :: 0 <= i < |dk| && dk[i].0 == f && IsLeft(assignmentTimes, timesLimit, dk[i])
    {
      left := [];
      for i := 0 to |dk|
        invariant forall f :: f in left <==> exists j :: 0 <= j < i && dk[j].0 == f && IsLeft(assignmentTimes, timesLimit, dk[j])
      {
        if assignmentTimes[dk[i].0] < timesLimit {
          left := left + [dk[i].0];
          continue;
        }
        if assignmentTimes[dk[i].0] >= 2 * timesLimit {
          continue;
        }
        if dk[i].1 < 70.0 {
          left := left + [dk[i].0];
        }
      }
    }

    method ReachingChildren(children: seq<Function>, notToExecute: seq<Function>, left: seq<Function>, depth: int) returns (r: seq<Function>)
      ensures forall c :: c in r <==> c in children && c !in notToExecute && CanReach(augmented, c, left, depth)
      ensures Simple(children) ==> Simple(r)
    {
      hide CanReach;
      r := [];
      for i := 0 to |children|
        invariant Simple(children) ==> Simple(r)
        invariant forall c :: c in r <==> c in children[..i] && c !in notToExecute && CanReach(augmented, c, left, depth)
      {
        assert children[..i + 1] == children[..i] + [children[i]];
        if children[i] !in notToExecute {
          var reaches := CanReachTargets(augmented, children[i], left, depth);
          if reaches {
            r := r + [children[i]];
          }
        }
      }
      assert children[..|children|] == children;
    }

    /** Deep functions that no path leads to, while they are under their budget. */
    method NotReachable() returns (r: seq<Function>)
      requires forall u :: u in dkNotReachable ==> u in assignmentTimes
      ensures forall u :: u in r <==> u in dkNotReachable && assignmentTimes[u] < timesLimit
    {
      r := [];
      for i := 0 to |dkNotReachable|
        invariant forall u :: u in r <==> u in dkNotReachable[..i] && assignmentTimes[u] < timesLimit
      {
        assert dkNotReachable[..i + 1] == dkNotReachable[..i] + [dkNotReachable[i]];
        if assignmentTimes[dkNotReachable[i]] < timesLimit {
          r := r + [dkNotReachable[i]];
        }
      }
      assert dkNotReachable[..|dkNotReachable|] == dkNotReachable;
    }
  }

  method AddMissing(list: seq<Function>, more: seq<Function>) returns (r: seq<Function>)
    ensures forall c :: c in r <==> c in list || c in more
    ensures Simple(list) ==> Simple(r)
  {
    r := list;
    for i := 0 to |more|
      invariant Simple(list) ==> Simple(r)
      invariant forall c :: c in r <==> c in list || c in more[..i]
    {
      assert more[..i + 1] == more[..i] + [more[i]];
      if more[i] !in r {
        r := r + [more[i]];
      }
    }
    assert more[..|more|] == more;
  }

  method RemoveAll(list: seq<Function>, removed: seq<Function>) returns (r: seq<Function>)
    ensures forall c :: c in r <==> c in list && c !in removed
    ensures Simple(list) ==> Simple(r)
  {
    r := [];
    for i := 0 to |list|
      invariant Simple(list) ==> Simple(r)
      invariant forall c :: c in r <==> c in list[..i] && c !in removed
    {
      assert list[..i + 1] == list[..i] + [list[i]];
      if list[i] !in removed {
        r := r + [list[i]];
      }
    }
    assert list[..|list|] == list;
  }

  // ---------- what an assignment achieves ----------

  /** `w` continues the sequence `p`: its first function follows the last one of `p` in the graph, and
      each further one the one before. */
  ghost predicate Continues(g: Graph, p: Path, w: Path) {
    p != [] && w != [] && w[0] in Children(g, p[|p| - 1]) && Follows(g, w)
  }

  /** Through `c` the sequence can be extended to one of at most `limit` functions that ends in a deep
      function that is still a target. */
  ghost predicate Extendable(a: FunctionAssignment, p: Path, dk: seq<Coverage>, c: Function)
    requires forall i :: 0 <= i < |dk| ==> dk[i].0 in a.assignmentTimes
    reads a
  {
    exists i, w :: 0 <= i < |dk|
      && (a.assignmentTimes[dk[i].0] < a.timesLimit || (a.assignmentTimes[dk[i].0] < 2 * a.timesLimit && dk[i].1 < 70.0))
      && Continues(a.augmented, p, w) && w[0] == c && w[|w| - 1] == dk[i].0 && |p + w| <= a.seqLenLimit
  }

  /** Below the sequence limit, exactly the children that can be extended to a target in time are chosen,
      besides the under-budget deep functions without a path, and none that the sequence repeats. */
  lemma ChosenAreExtendable(a: FunctionAssignment, key: Key, dk: seq<Coverage>, c: Function)
    requires 0 < |key.functions| < a.seqLenLimit
    requires forall i :: 0 <= i < |dk| ==> dk[i].0 in a.assignmentTimes
    requires forall u :: u in a.dkNotReachable ==> u in a.assignmentTimes
    ensures a.Chosen(key, dk, [], c) <==>
      && c !in key.functions[..|key.functions| - 1]
      && (Extendable(a, key.functions, dk, c) || (c in a.dkNotReachable && a.assignmentTimes[c] < a.timesLimit))
  {
    hide Follows, Children;
    var p, depth := key.functions, a.seqLenLimit - |key.functions| - 1;
    if c in Children(a.augmented, p[|p| - 1]) && a.ReachesLeft(c, dk, depth) {
      var i, w :| 0 <= i < |dk| && IsLeft(a.assignmentTimes, a.timesLimit, dk[i]) && Walk(a.augmented, c, dk[i].0, w) && (|w| == 1 || |w| - 1 <= depth);
      assert Continues(a.augmented, p, w) && |p + w| <= a.seqLenLimit;
      assert Extendable(a, p, dk, c);
    }
    if Extendable(a, p, dk, c) {
      var i, w :| 0 <= i < |dk| && IsLeft(a.assignmentTimes, a.timesLimit, dk[i])
        && Continues(a.augmented, p, w) && w[0] == c && w[|w| - 1] == dk[i].0 && |p + w| <= a.seqLenLimit;
      assert Walk(a.augmented, c, dk[i].0, w) && |w| - 1 <= depth;
      assert a.ReachesLeft(c, dk, depth);
    }
  }
}
