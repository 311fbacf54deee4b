/** The breadth-first and depth-first search strategies. */
module Traversals {
  import opened Merge
  import opened FunctionAssignment
  import opened Mine
  import opened GuidedRun
  import opened Guider

  type Batch = seq<(Key, WorldState)>

  /** States at the sequence limit are not saved. */
  function Pushed(queue: seq<Key>, batch: Batch, limit: nat): seq<Key> {
    if batch == [] then queue
    else
      var n := |batch| - 1;
      var before := Pushed(queue, batch[..n], limit);
      if |batch[n].0.functions| >= limit then before else before + [batch[n].0]
  }

  function Recorded(worldStates: map<Key, WorldState>, batch: Batch, limit: nat): map<Key, WorldState> {
    if batch == [] then worldStates
    else
      var n := |batch| - 1;
      var before := Recorded(worldStates, batch[..n], limit);
      if |batch[n].0.functions| >= limit then before else before[batch[n].0 := batch[n].1]
  }

  ghost predicate HaveFunctions(keys: seq<Key>) {
    forall k :: k in keys ==> k.functions != []
  }

  lemma {:induction false} PushedHaveFunctions(queue: seq<Key>, batch: Batch, limit: nat)
    requires HaveFunctions(queue) && forall i :: 0 <= i < |batch| ==> batch[i].0.functions != []
    ensures HaveFunctions(Pushed(queue, batch, limit))
  {
    if batch != [] {
      PushedHaveFunctions(queue, batch[..|batch| - 1], limit);
    }
  }

  ghost predicate AllIdle(a: FunctionAssignment, keys: seq<Key>, dk: seq<Coverage>)
    requires Budgeted(a, dk)
    reads a`assignmentTimes
  {
    forall k :: k in keys ==> Idle(a, k, dk)
  }

  /** `functions` are what is executed on a state. */
  ghost predicate Exactly(a: FunctionAssignment, key: Key, dk: seq<Coverage>, functions: seq<Function>)
    requires Budgeted(a, dk)
    reads a`assignmentTimes
  {
    key.functions != [] && functions != [] && forall c :: c in functions <==> Executable(a, key, dk, c)
  }

  /** The oldest key with functions to execute is taken; the older ones have none. */
  ghost predicate TookOldest(a: FunctionAssignment, all: seq<Key>, dk: seq<Coverage>, rest: seq<Key>, r: Assignment)
    requires Budgeted(a, dk)
    reads a`assignmentTimes
  {
    match r
    case Assigned(key, functions) =>
      exists n: nat :: n < |all| && all[n] == key && rest == all[n + 1..] && AllIdle(a, all[..n], dk) && Exactly(a, key, dk, functions)
    case Nothing => rest == [] && AllIdle(a, all, dk)
    case NoState => false
  }

  /** The newest key with functions to execute is taken; the newer ones have none. */
  ghost predicate TookNewest(a: FunctionAssignment, all: seq<Key>, dk: seq<Coverage>, rest: seq<Key>, r: Assignment)
    requires Budgeted(a, dk)
    reads a`assignmentTimes
  {
    match r
    case Assigned(key, functions) =>
      exists n: nat :: n < |all| && all[n] == key && rest == all[..n] && AllIdle(a, all[n + 1..], dk) && Exactly(a, key, dk, functions)
    case Nothing => rest == [] && AllIdle(a, all, dk)
    case NoState => false
  }

  ghost predicate TookLast(all: seq<Key>, rest: seq<Key>, r: Assignment, allFunctions: seq<Function>) {
    if all == [] then rest == [] && r == NoState
    else rest == all[..|all| - 1] && r == Assigned(all[|all| - 1], if allFunctions == [] then ["original_instruction_list"] else allFunctions)
  }

  /** The key comes from the list, and what stays is the part after or before it. */
  ghost predicate Picked(all: seq<Key>, rest: seq<Key>, r: Assignment) {
    if r.Assigned? then exists n: nat :: n < |all| && all[n] == r.key && (rest == all[n + 1..] || rest == all[..n])
    else rest == []
  }

  lemma {:induction false} PushedIsAppended(queue: seq<Key>, batch: Batch, limit: nat)
    requires forall i :: 0 <= i < |batch| ==> |batch[i].0.functions| < limit && !IsGenesis(batch[i].0)
    ensures Pushed(queue, batch, limit) == queue + NewKeys(batch)
  {
    hide IsGenesis;
    if batch != [] {
      PushedIsAppended(queue, batch[..|batch| - 1], limit);
    }
  }

  /** Exactly the new keys below the limit join the queue. */
  lemma {:induction false} PushedKeys(queue: seq<Key>, batch: Batch, limit: nat, k: Key)
    ensures multiset(Pushed(queue, batch, limit))[k] ==
      multiset(queue)[k] + if |k.functions| < limit then |Places(batch, k)| else 0
    ensures queue <= Pushed(queue, batch, limit)
  {
    hide Places;
    KeyPlaces(batch, k);
    if batch != [] {
      PushedKeys(queue, batch[..|batch| - 1], limit, k);
    }
  }

  lemma KeyPlaces(batch: Batch, k: Key)
    ensures |Places(batch, k)| ==
      if batch == [] then 0 else |Places(batch[..|batch| - 1], k)| + if batch[|batch| - 1].0 == k then 1 else 0
  {
    if batch != [] {
      var n := |batch| - 1;
      assert Places(batch, k) == Places(batch[..n], k) + if batch[n].0 == k then {n} else {};
    } else {
      assert Places(batch, k) == {};
    }
  }

  /** Where a key stands in a batch. */
  function Places(batch: Batch, k: Key): set<int> {
    set i | 0 <= i < |batch| && batch[i].0 == k
  }

  /** Exactly the new states below the limit are saved, each under its key. */
  lemma {:induction false} RecordedStates(worldStates: map<Key, WorldState>, batch: Batch, limit: nat, k: Key)
    requires forall i, j :: 0 <= i < j < |batch| ==> batch[i].0 != batch[j].0
    ensures forall i :: 0 <= i < |batch| && batch[i].0 == k && |k.functions| < limit ==>
      k in Recorded(worldStates, batch, limit) && Recorded(worldStates, batch, limit)[k] == batch[i].1
    ensures |k.functions| >= limit || (forall i :: 0 <= i < |batch| ==> batch[i].0 != k) ==>
      (k in Recorded(worldStates, batch, limit) <==> k in worldStates) && (k in worldStates ==> Recorded(worldStates, batch, limit)[k] == worldStates[k])
  {
    if batch != [] {
      var n := |batch| - 1;
      RecordedStates(worldStates, batch[..n], limit, k);
      assert forall i :: 0 <= i < n ==> batch[..n][i] == batch[i];
    }
  }

  lemma PickedIsPart(all: seq<Key>, rest: seq<Key>, r: Assignment)
    requires Picked(all, rest, r)
    ensures multiset(rest) + Taken(ExecutedBy(r)) <= multiset(all)
  {
    if r.Assigned? {
      var n: nat :| n < |all| && all[n] == r.key && (rest == all[n + 1..] || rest == all[..n]);
      Parts(all, n);
    }
  }

  lemma Parts(all: seq<Key>, n: nat)
    requires n < |all|
    ensures multiset(all[..n]) + multiset{all[n]} <= multiset(all)
    ensures multiset(all[n + 1..]) + multiset{all[n]} <= multiset(all)
  {
    var left, right := all[..n], all[n + 1..];
    assert all == left + [all[n]] + right;
    assert multiset(all) == multiset(left) + multiset{all[n]} + multiset(right);
  }

  /** Breadth-first and depth-first search are iterations of the guided phase too, so their runs end as well. */
  lemma TraversalsAdvance(limit: nat, states: seq<WorldState>, p: Phase, rest: seq<Key>, r: Assignment)
    requires forall i :: 0 <= i < |states| ==> states[i].functions != [] && "constructor" !in states[i].functions
    requires Picked(Pushed(p.queue, Organized(states, p.index, limit), limit), rest, r)
    ensures Advance(limit, states, p, Phase(rest, ExecutedBy(r), p.index + |Organized(states, p.index, limit)|))
  {
    hide Organized, IsGenesis, Pushed;
    var batch := Organized(states, p.index, limit);
    OrganizedKeys(states, p.index, limit);
    forall i | 0 <= i < |batch| ensures |batch[i].0.functions| < limit && !IsGenesis(batch[i].0) {
      var s := batch[i].1;
      assert s in states;
      Numbers(s, p.index + i);
      NotGenesis(batch[i].0);
    }
    PushedIsAppended(p.queue, batch, limit);
    PickedIsPart(p.queue + NewKeys(batch), rest, r);
    assert multiset(p.queue + NewKeys(batch)) == multiset(p.queue) + multiset(NewKeys(batch));
  }

  lemma NotGenesis(k: Key)
    requires "constructor" !in k.functions
    ensures !IsGenesis(k)
  {
  }

  class Bfs {
    const assignment: FunctionAssignment
    const limit: nat
    var queue: seq<Key>
    var worldStates: map<Key, WorldState>
    var oneStart: bool

    constructor (assignment: FunctionAssignment, limit: nat, oneStart: bool)
      ensures this.assignment == assignment && this.limit == limit && this.oneStart == oneStart
      ensures queue == [] && worldStates == map[]
    {
      this.assignment, this.limit, this.oneStart, queue, worldStates := assignment, limit, oneStart, [], map[];
    }

    method Save(batch: Batch)
      modifies this`queue, this`worldStates
      ensures queue == Pushed(old(queue), batch, limit) && worldStates == Recorded(old(worldStates), batch, limit)
    {
      for i := 0 to |batch|
        invariant queue == Pushed(old(queue), batch[..i], limit) && worldStates == Recorded(old(worldStates), batch[..i], limit)
      {
        assert batch[..i + 1][..i] == batch[..i];
        var (key, state) := batch[i];
        if |key.functions| >= limit {
          continue;
        }
        worldStates := worldStates[key := state];
        queue := queue + [key];
      }
      assert batch[..|batch|] == batch;
    }

    /** Takes the oldest state that has functions to execute. */
    method AssignStates(dk: seq<Coverage>, batch: Batch) returns (r: Assignment)
      requires Budgeted(assignment, dk) && HaveFunctions(queue) && forall i :: 0 <= i < |batch| ==> batch[i].0.functions != []
      modifies this`queue, this`worldStates, this`oneStart, assignment`assignmentTimes
      ensures HaveFunctions(queue) && !oneStart && worldStates == Recorded(old(worldStates), batch, limit)
      ensures old(oneStart) ==> TookOnly(Pushed(old(queue), batch, limit), queue, r, assignment.allFunctions)
      ensures !old(oneStart) ==> var rest := queue; old(TookOldest(assignment, Pushed(queue, batch, limit), dk, rest, r))
      ensures Counted(old(assignment.assignmentTimes), assignment.assignmentTimes, r)
      ensures Picked(Pushed(old(queue), batch, limit), queue, r)
    {
      hide Executable, Idle, Record;
      PushedHaveFunctions(queue, batch, limit);
      Save(batch);
      if oneStart {
        oneStart := false;
        if |queue| == 0 {
          return NoState;
        }
        var key := queue[0];
        queue := queue[1..];
        var functions := assignment.AssignAllFunctions();
        return Assigned(key, functions);
      }
      r := Search(dk);
    }

    method Search(dk: seq<Coverage>) returns (r: Assignment)
      requires Budgeted(assignment, dk) && HaveFunctions(queue)
      modifies this`queue, assignment`assignmentTimes
      ensures HaveFunctions(queue)
      ensures var rest := queue; old(TookOldest(assignment, queue, dk, rest, r))
      ensures Counted(old(assignment.assignmentTimes), assignment.assignmentTimes, r)
    {
      ghost var all := queue;
      ghost var n: nat := 0;
      while true
        invariant n <= |all| && queue == all[n..] && assignment.assignmentTimes == old(assignment.assignmentTimes)
        invariant old(AllIdle(assignment, all[..n], dk))
        decreases |queue|
      {
        if |queue| == 0 {
          assert all[..n] == all;
          return Nothing;
        }
        var key := queue[0];
        queue := queue[1..];
        var functions := assignment.AssignFunctions(key, dk, [], []);
        if |functions| > 0 {
          assert all[n] == key && queue == all[n + 1..];
          assert old(Exactly(assignment, key, dk, functions));
          return Assigned(key, functions);
        }
        assert old(Idle(assignment, key, dk));
        assert all[..n + 1] == all[..n] + [key];
        n := n + 1;
      }
    }
  }

  class Dfs {
    const assignment: FunctionAssignment
    const limit: nat
    var stack: seq<Key>
    var worldStates: map<Key, WorldState>
    var oneStart: bool

    constructor (assignment: FunctionAssignment, limit: nat, oneStart: bool)
      ensures this.assignment == assignment && this.limit == limit && this.oneStart == oneStart
      ensures stack == [] && worldStates == map[]
    {
      this.assignment, this.limit, this.oneStart, stack, worldStates := assignment, limit, oneStart, [], map[];
    }

    method Save(batch: Batch)
      modifies this`stack, this`worldStates
      ensures stack == Pushed(old(stack), batch, limit) && worldStates == Recorded(old(worldStates), batch, limit)
    {
      for i := 0 to |batch|
        invariant stack == Pushed(old(stack), batch[..i], limit) && worldStates == Recorded(old(worldStates), batch[..i], limit)
      {
        assert batch[..i + 1][..i] == batch[..i];
        var (key, state) := batch[i];
        if |key.functions| >= limit {
          continue;
        }
        worldStates := worldStates[key := state];
        stack := stack + [key];
      }
      assert batch[..|batch|] == batch;
    }

    /** Takes the newest state that has functions to execute. */
    method AssignStates(dk: seq<Coverage>, batch: Batch) returns (r: Assignment)
      requires Budgeted(assignment, dk) && HaveFunctions(stack) && forall i :: 0 <= i < |batch| ==> batch[i].0.functions != []
      modifies this`stack, this`worldStates, this`oneStart, assignment`assignmentTimes
      ensures HaveFunctions(stack) && !oneStart && worldStates == Recorded(old(worldStates), batch, limit)
      ensures old(oneStart) ==> TookLast(Pushed(old(stack), batch, limit), stack, r, assignment.allFunctions)
      ensures !old(oneStart) ==> var rest := stack; old(TookNewest(assignment, Pushed(stack, batch, limit), dk, rest, r))
      ensures Counted(old(assignment.assignmentTimes), assignment.assignmentTimes, r)
      ensures Picked(Pushed(old(stack), batch, limit), stack, r)
    {
      hide Executable, Idle, Record;
      PushedHaveFunctions(stack, batch, limit);
      Save(batch);
      if oneStart {
        oneStart := false;
        if |stack| == 0 {
          return NoState;
        }
        var key := stack[|stack| - 1];
        stack := stack[..|stack| - 1];
        var functions := assignment.AssignAllFunctions();
        return Assigned(key, functions);
      }
      r := Search(dk);
    }

    method Search(dk: seq<Coverage>) returns (r: Assignment)
      requires Budgeted(assignment, dk) && HaveFunctions(stack)
      modifies this`stack, assignment`assignmentTimes
      ensures HaveFunctions(stack)
      ensures var rest := stack; old(TookNewest(assignment, stack, dk, rest, r))
      ensures Counted(old(assignment.assignmentTimes), assignment.assignmentTimes, r)
    {
      ghost var all := stack;
      ghost var n: nat := |all|;
      while true
        invariant n <= |all| && stack == all[..n] && assignment.assignmentTimes == old(assignment.assignmentTimes)
        invariant old(AllIdle(assignment, all[n..], dk))
        decreases |stack|
      {
        if |stack| == 0 {
          assert all[n..] == all;
          return Nothing;
        }
        var key := stack[|stack| - 1];
        stack := stack[..|stack| - 1];
        var functions := assignment.AssignFunctions(key, dk, [], []);
        if |functions| > 0 {
          assert all[n - 1] == key && stack == all[..n - 1];
          assert old(Exactly(assignment, key, dk, functions));
          return Assigned(key, functions);
        }
        assert old(Idle(assignment, key, dk));
        assert all[n - 1..] == [key] + all[n..];
        n := n - 1;
      }
    }
  }
}
