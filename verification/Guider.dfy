/** The outer step of the guided phase: new states become keys, the strategy assigns functions to one of
    them, and that state is handed to the engine. */
module Guider {
  import opened Instructions
  import opened Merge
  import opened FunctionAssignment
  import opened Selection
  import opened Mine
  import opened GuidedRun

  /** A state for the engine: with the functions its dispatcher is cut down to, or with the original dispatcher. */
  datatype Prepared = Prepared(state: WorldState, functions: Option<seq<Function>>)

  function AsTheyAre(states: seq<WorldState>): seq<Prepared> {
    seq(|states|, i requires 0 <= i < |states| => Prepared(states[i], None))
  }

  /** The one state handed to the engine is that of the picked key, which is forgotten. */
  ghost predicate Handed(prepared: seq<Prepared>, last: Option<Key>, worldStates: map<Key, WorldState>) {
    prepared == []
    || (last.Some? && |prepared| == 1 && prepared[0].functions.Some?
        && prepared[0].state.functions == last.value.functions && last.value !in worldStates)
  }

  /** It is the state that was saved under this key. */
  ghost predicate SavedState(prepared: seq<Prepared>, last: Option<Key>, before: map<Key, WorldState>, batch: seq<(Key, WorldState)>) {
    prepared == [] || (last.Some? && SavedUnder(before, batch, last.value, prepared[0].state))
  }

  /** No function is named twice. */
  ghost predicate NamesOnce(prepared: seq<Prepared>) {
    prepared == [] || (prepared[0].functions.Some? && Simple(prepared[0].functions.value))
  }

  // ---------- what an assignment leaves behind ----------

  datatype Outcome = Outcome(before: Store, last: Option<Key>, batch: seq<(Key, WorldState)>, after: Store, r: Assignment)

  function ExecutedBy(r: Assignment): Option<Key> {
    match r
    case Assigned(key, _) => Some(key)
    case Nothing => None
    case NoState => None
  }

  /** The contract of an assignment. */
  ghost predicate Assigning(o: Outcome, idle: bool, oneStart: bool, v: View, allFunctions: seq<Function>) {
    if idle then o.r == Nothing && o.after == o.before
    else
      && o.after == SavedAll(o.before, o.last, o.batch).(queue := o.after.queue)
      && if oneStart then TookOnly(Queued(o.before, o.last, o.batch), o.after.queue, o.r, allFunctions)
         else TookBest(v, Queued(o.before, o.last, o.batch), o.after.queue, o.r)
  }

  lemma QueuedIsEarlier(limit: nat, queue: seq<Key>, index: nat)
    requires Orderly(limit, Phase(queue, None, index))
    ensures forall k :: k in queue ==> k.index < index
  {
    forall k | k in queue ensures k.index < index {
      assert k in Keys(Phase(queue, None, index));
    }
  }

  lemma OrganizedIsFresh(s: Store, states: seq<WorldState>, index: nat, limit: nat)
    requires Orderly(limit, Phase(s.queue, None, index))
    ensures Fresh(s, Organized(states, index, limit))
    ensures forall i :: 0 <= i < |Organized(states, index, limit)| ==>
      var (k, st) := Organized(states, index, limit)[i];
      IsGenesis(k) || st.functions == k.functions
  {
    hide Organized, IsGenesis;
    var batch := Organized(states, index, limit);
    OrganizedKeys(states, index, limit);
    NewNumbers(states, index, limit);
    QueuedIsEarlier(limit, s.queue, index);
    forall i | 0 <= i < |batch|
      ensures batch[i].0.functions != [] && batch[i].0 !in s.queue && (IsGenesis(batch[i].0) || batch[i].1.functions == batch[i].0.functions)
    {
      Numbers(batch[i].1, index + i);
    }
  }

  /** What is taken from the queue was in it. */
  lemma TakenFromQueue(o: Outcome, idle: bool, oneStart: bool, v: View, allFunctions: seq<Function>)
    requires Assigning(o, idle, oneStart, v, allFunctions)
    ensures idle ==> multiset(o.after.queue) + Taken(ExecutedBy(o.r)) == multiset(o.before.queue)
    ensures !idle ==> multiset(o.after.queue) + Taken(ExecutedBy(o.r)) <= multiset(Queued(o.before, o.last, o.batch))
  {
    hide Queued, SavedAll, AtMostAs;
    if !idle {
      var queue := Queued(o.before, o.last, o.batch);
      if oneStart && queue != [] {
        assert queue == [queue[0]] + queue[1..];
      }
    }
  }

  lemma SmallerIsLabelled(s: Store, queue: seq<Key>)
    requires Labelled(s) && multiset(queue) <= multiset(s.queue)
    ensures Labelled(s.(queue := queue))
  {
    forall k | k in queue ensures k in s.queue {
      assert k in multiset(queue);
    }
  }

  lemma PickedIsLabelled(s: Store, queue: seq<Key>, key: Key)
    requires Labelled(s) && Sound(s) && multiset(queue) + multiset{key} <= multiset(s.queue)
    ensures key in s.worldStates && s.worldStates[key].functions == key.functions && key !in queue
  {
    hide IsGenesis;
    assert key in multiset(s.queue) && multiset(s.queue)[key] >= multiset(queue)[key] + 1;
  }

  /** Whatever is picked, the keys stay apart and labelled, and the assigned key is known and gone from the queue. */
  lemma AfterAssignment(limit: nat, states: seq<WorldState>, start: nat, o: Outcome, idle: bool, oneStart: bool, v: View, allFunctions: seq<Function>)
    requires o.batch == Organized(states, start, limit) && Fresh(o.before, o.batch)
    requires forall i :: 0 <= i < |o.batch| ==> IsGenesis(o.batch[i].0) || o.batch[i].1.functions == o.batch[i].0.functions
    requires Sound(o.before) && Labelled(o.before) && Orderly(limit, Phase(o.before.queue, None, start))
    requires Assigning(o, idle, oneStart, v, allFunctions)
    ensures var q := Phase(o.after.queue, ExecutedBy(o.r), start + |o.batch|);
      && Advance(limit, states, Phase(o.before.queue, None, start), q)
      && Orderly(limit, q) && Orderly(limit, q.(executed := None))
    ensures Labelled(o.after)
    ensures o.r.Assigned? ==> o.r.key in o.after.worldStates && o.after.worldStates[o.r.key].functions == o.r.key.functions && o.r.key !in o.after.queue
  {
    hide Organized, Orderly, Labelled, Sound, SavedAll, Queued, NewKeys, TookBest, TookOnly, Fresh, IsGenesis;
    var q := Phase(o.after.queue, ExecutedBy(o.r), start + |o.batch|);
    TakenFromQueue(o, idle, oneStart, v, allFunctions);
    QueuedIsSound(o.before, o.last, o.batch);
    QueuedIsLabelled(o.before, o.last, o.batch);
    var ready := if idle then o.before else SavedAll(o.before, o.last, o.batch).(queue := Queued(o.before, o.last, o.batch));
    assert Advance(limit, states, Phase(o.before.queue, None, start), q);
    AdvanceIsOrderly(limit, states, Phase(o.before.queue, None, start), q);
    QueueIsOrderly(limit, q);
    SmallerIsLabelled(ready, o.after.queue);
    if o.r.Assigned? {
      PickedIsLabelled(ready, o.after.queue, o.r.key);
    }
  }

  /** The state of the assigned key is the one that was saved under it. */
  lemma AssignedIsSaved(o: Outcome, idle: bool, oneStart: bool, v: View, allFunctions: seq<Function>)
    requires Assigning(o, idle, oneStart, v, allFunctions) && o.r.Assigned? && o.r.key in o.after.worldStates
    requires Sound(o.before) && Fresh(o.before, o.batch)
    ensures SavedUnder(o.before.worldStates, o.batch, o.r.key, o.after.worldStates[o.r.key])
  {
    hide SavedAll, Queued, AtMostAs, IsGenesis, SavedUnder, Fresh;
    TakenFromQueue(o, idle, oneStart, v, allFunctions);
    QueuedIsSound(o.before, o.last, o.batch);
    var queue := Queued(o.before, o.last, o.batch);
    assert o.r.key in multiset(queue);
    assert o.r.key in queue && !IsGenesis(o.r.key);
    StatesAreSaved(o.before, o.last, o.batch, o.r.key);
  }

  lemma IsStep(limit: nat, states: seq<WorldState>, p: Phase, q: Phase)
    requires p.executed.Some? && Successors(states, p.executed.value) && Advance(limit, states, p.(executed := None), q)
    ensures Step(limit, p, q)
  {
    assert Advance(limit, states, p, q);
  }

  lemma StillLabelled(s: Store, key: Key)
    requires Labelled(s) && key !in s.queue
    ensures Labelled(s.(worldStates := s.worldStates - {key}))
  {
  }

  lemma {:induction false} OnlyGenesis(states: seq<WorldState>, index: nat, limit: nat)
    requires forall s :: s in states ==> s.functions == []
    ensures NewKeys(Organized(states, index, limit)) == []
  {
    if states != [] {
      OnlyGenesis(states[..|states| - 1], index, limit);
    }
  }

  lemma LaterIsOrderly(limit: nat, p: Phase, index: nat)
    requires Orderly(limit, p) && p.index <= index
    ensures Orderly(limit, p.(index := index))
  {
  }

  class Guider {
    const strategy: Mine
    const limit: nat
    var index: nat
    var termination: bool
    var genesis: seq<WorldState>

    constructor (strategy: Mine, limit: nat)
      requires strategy.Valid() && strategy.queue == []
      ensures this.strategy == strategy && this.limit == limit
      ensures Valid() && index == 0 && !termination && genesis == []
    {
      this.strategy, this.limit, index, termination, genesis := strategy, limit, 0, false, [];
    }

    ghost function At(executed: Option<Key>): Phase
      reads this`index, strategy`queue
    {
      Phase(strategy.queue, executed, index)
    }

    ghost predicate Valid()
      reads this`index, strategy`queue, strategy`worldStates, strategy`stateStorage, strategy`written
    {
      strategy.Valid() && Labelled(strategy.Contents()) && Orderly(limit, At(None))
    }

    /** The queue once the states are taken in. */
    ghost function Waiting(states: seq<WorldState>): seq<Key>
      reads this`index, strategy`queue, strategy`worldStates, strategy`stateStorage, strategy`written, strategy`last
    {
      Queued(strategy.Contents(), strategy.last, Organized(states, index, limit))
    }

    /** The executed key was taken from the queue as the strategy demands, with these functions. */
    ghost predicate PickedFrom(before: seq<Key>, prepared: seq<Prepared>, dk: seq<Coverage>, oneStart: bool)
      reads strategy`queue, strategy`last, strategy`stateStorage, strategy`written
    {
      prepared == [] ||
      (&& strategy.last.Some? && prepared[0].functions.Some?
       && var r := Assigned(strategy.last.value, prepared[0].functions.value);
        if oneStart then TookOnly(before, strategy.queue, r, strategy.assignment.allFunctions)
        else TookBest(strategy.ViewOf(TargetsOf(dk)), before, strategy.queue, r))
    }

    /** Gives every state below the limit a key with a new number. */
    method OrganizeStates(states: seq<WorldState>) returns (batch: seq<(Key, WorldState)>)
      modifies this`index
      ensures batch == Organized(states, old(index), limit) && index == old(index) + |batch|
    {
      batch := [];
      for i := 0 to |states|
        invariant batch == Organized(states[..i], old(index), limit) && index == old(index) + |batch|
      {
        assert states[..i + 1][..i] == states[..i];
        var functions := states[i].functions;
        var key;
        if |functions| == 0 {
          key := Key(["constructor"], index);
        } else {
          if |functions| >= limit {
            continue;
          }
          key := Key(functions, index);
        }
        batch := batch + [(key, states[i])];
        index := index + 1;
      }
      assert states[..|states|] == states;
    }

    /** Remembers the states after deployment; they are saved but not queued. Without any the first key is missing. */
    method SaveGenesisStates(states: seq<WorldState>) returns (ok: bool)
      requires Valid()
      modifies this`index, this`genesis, strategy`queue, strategy`worldStates, strategy`stateStorage, strategy`written, strategy`last
      ensures ok <==> Organized(states, old(index), limit) != []
      ensures genesis == states
      ensures strategy.Contents() == SavedAll(old(strategy.Contents()), old(strategy.last), Organized(states, old(index), limit))
      ensures strategy.last == if ok then Some(Organized(states, old(index), limit)[0].0) else old(strategy.last)
      ensures (forall s :: s in states ==> s.functions == []) ==> Valid() && strategy.queue == old(strategy.queue)
    {
      hide Organized, Orderly;
      genesis := states;
      ghost var before, start := strategy.Contents(), index;
      var batch := OrganizeStates(states);
      OrganizedIsFresh(before, states, start, limit);
      strategy.UpdateStates(batch);
      SavedIsSound(before, strategy.last, batch);
      SavedIsLabelled(before, strategy.last, batch);
      SavedQueue(before, strategy.last, batch);
      if forall s :: s in states ==> s.functions == [] {
        OnlyGenesis(states, start, limit);
        assert strategy.queue == before.queue;
        LaterIsOrderly(limit, Phase(strategy.queue, None, start), index);
      }
      if |batch| == 0 {
        return false;
      }
      strategy.last := Some(batch[0].0);
      ok := true;
    }

    /** In iteration 2 the states after deployment are executed with every function. Later the new states
        are taken in, one state is picked, and it alone goes to the engine; without one the phase ends.
        `crashed` is the missing only state of a single start function. */
    method StartIteration(states: seq<WorldState>, dk: seq<Coverage>, iteration: nat, random: nat -> nat)
      returns (prepared: seq<Prepared>, crashed: bool)
      requires Valid() && Budgeted(strategy.assignment, dk)
      modifies this`index, this`termination, strategy, strategy.assignment`assignmentTimes
      ensures Valid() && Budgeted(strategy.assignment, dk)
      ensures iteration == 2 ==> !crashed && |prepared| == |genesis| && forall i :: 0 <= i < |genesis| ==> prepared[i] == Prepared(genesis[i], None)
      ensures iteration == 2 ==> strategy.Contents() == old(strategy.Contents()) && strategy.last == old(strategy.last)
      ensures iteration == 2 ==> index == old(index) && termination == old(termination)
      ensures iteration != 2 ==> (termination <==> old(termination) || (prepared == [] && !crashed))
      ensures iteration != 2 ==> Handed(prepared, strategy.last, strategy.worldStates)
      ensures iteration != 2 ==>
        var executed := if prepared == [] then None else strategy.last;
        Advance(limit, states, old(At(None)), At(executed)) && Orderly(limit, At(executed))
      ensures iteration != 2 && old(strategy.last).Some? && Successors(states, old(strategy.last).value) ==>
        var executed := if prepared == [] then None else strategy.last;
        Step(limit, old(At(strategy.last)), At(executed))
      ensures iteration != 2 && prepared != [] && !old(strategy.oneStart) ==>
        var key := strategy.last.value;
        forall c :: c in prepared[0].functions.value <==> old(Executable(strategy.assignment, key, dk, c))
      ensures iteration != 2 ==> SavedState(prepared, strategy.last, old(strategy.worldStates), Organized(states, old(index), limit))
      ensures iteration != 2 && strategy.assignment.Unrepeated() && (old(strategy.oneStart) ==> Simple(strategy.assignment.allFunctions)) ==> NamesOnce(prepared)
      ensures iteration != 2 ==> PickedFrom(old(Waiting(states)), prepared, dk, old(strategy.oneStart))
      ensures crashed <==> iteration != 2 && dk != [] && old(strategy.oneStart) && old(Waiting(states)) == []
      ensures iteration != 2 && prepared == [] && !crashed ==> dk == [] || (!old(strategy.oneStart) && strategy.queue == [])
      ensures iteration != 2 && dk != [] && !old(strategy.oneStart) ==>
        forall k :: k in old(Waiting(states)) && k !in strategy.queue && !(prepared != [] && strategy.last == Some(k)) ==> old(Idle(strategy.assignment, k, dk))
    {
      if iteration == 2 {
        prepared, crashed := AsTheyAre(genesis), false;
        return;
      }
      prepared, crashed := Guide(states, dk, random);
    }

    /** Takes the states in, picks one and prepares it. */
    method Guide(states: seq<WorldState>, dk: seq<Coverage>, random: nat -> nat) returns (prepared: seq<Prepared>, crashed: bool)
      requires Valid() && Budgeted(strategy.assignment, dk)
      modifies this`index, this`termination, strategy, strategy.assignment`assignmentTimes
      ensures Valid() && Budgeted(strategy.assignment, dk)
      ensures termination <==> old(termination) || (prepared == [] && !crashed)
      ensures Handed(prepared, strategy.last, strategy.worldStates)
      ensures var executed := if prepared == [] then None else strategy.last;
        Advance(limit, states, old(At(None)), At(executed)) && Orderly(limit, At(executed))
      ensures old(strategy.last).Some? && Successors(states, old(strategy.last).value) ==>
        var executed := if prepared == [] then None else strategy.last;
        Step(limit, old(At(strategy.last)), At(executed))
      ensures prepared != [] && !old(strategy.oneStart) ==>
        var key := strategy.last.value;
        forall c :: c in prepared[0].functions.value <==> old(Executable(strategy.assignment, key, dk, c))
      ensures SavedState(prepared, strategy.last, old(strategy.worldStates), Organized(states, old(index), limit))
      ensures strategy.assignment.Unrepeated() && (old(strategy.oneStart) ==> Simple(strategy.assignment.allFunctions)) ==> NamesOnce(prepared)
      ensures PickedFrom(old(Waiting(states)), prepared, dk, old(strategy.oneStart))
      ensures crashed <==> dk != [] && old(strategy.oneStart) && old(Waiting(states)) == []
      ensures prepared == [] && !crashed ==> dk == [] || (!old(strategy.oneStart) && strategy.queue == [])
      ensures dk != [] && !old(strategy.oneStart) ==>
        forall k :: k in old(Waiting(states)) && k !in strategy.queue && !(prepared != [] && strategy.last == Some(k)) ==> old(Idle(strategy.assignment, k, dk))
    {
      hide Organized, Orderly, Labelled, Sound, SavedAll, Queued, Idle, Executable, NewKeys, TookBest, TookOnly, Advance, Step, Successors, SavedUnder, Simple, InBatch, IsGenesis, Fresh, Counted, Budgeted;
      ghost var before, start, last, oneStart := strategy.Contents(), index, strategy.last, strategy.oneStart;
      var batch := OrganizeStates(states);
      OrganizedIsFresh(before, states, start, limit);
      var picked := strategy.AssignStates(dk, batch, random);
      ghost var outcome := Outcome(before, last, batch, strategy.Contents(), picked);
      AfterAssignment(limit, states, start, outcome, dk == [], oneStart, strategy.ViewOf(TargetsOf(dk)), strategy.assignment.allFunctions);
      if last.Some? && Successors(states, last.value) {
        IsStep(limit, states, Phase(before.queue, last, start), Phase(strategy.queue, ExecutedBy(picked), index));
      }
      match picked {
        case NoState =>
          return [], true;
        case Nothing =>
          termination := true;
          return [], false;
        case Assigned(key, functions) =>
          var state := strategy.worldStates[key];
          AssignedIsSaved(outcome, dk == [], oneStart, strategy.ViewOf(TargetsOf(dk)), strategy.assignment.allFunctions);
          strategy.DeleteState(key);
          prepared, crashed := [Prepared(state, Some(functions))], false;
          StillLabelled(outcome.after, key);
      }
    }

    /** At the end of iterations 1 and 2 the phase ends when no state is left. */
    method EndIteration(states: seq<WorldState>, iteration: nat)
      modifies this`termination
      ensures termination <==> iteration <= 2 && states == []
    {
      termination := iteration <= 2 && |states| == 0;
    }
  }
}
