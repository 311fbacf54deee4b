/** The search strategy that follows sequences given by the user. */
module SeqStrategy {
  import opened Merge
  import opened FunctionAssignment
  import opened Mine

  type Sequence = seq<Function>

  /** The key of the states after deployment has no number. */
  datatype SeqKey = Root | Node(key: Key)

  function Executed(k: SeqKey): Sequence {
    match k
    case Root => []
    case Node(key) => key.functions
  }

  /** A key with its next functions, nothing, or the failure on an empty user sequence. */
  datatype Outcome = Scheduled(key: SeqKey, functions: seq<Function>) | Done | EmptySequence

  ghost predicate OnTrie(sequences: seq<Sequence>, p: Sequence) {
    exists i :: 0 <= i < |sequences| && p <= sequences[i]
  }

  /** The functions after `p` in the user sequences that properly extend it, one for each. */
  function Continuations(sequences: seq<Sequence>, p: Sequence): seq<Function> {
    if sequences == [] then []
    else
      var n := |sequences| - 1;
      Continuations(sequences[..n], p) + (if p < sequences[n] then [sequences[n][|p|]] else [])
  }

  /** One function is listed for every user sequence that properly extends `p`. */
  lemma {:induction false} OneForEach(sequences: seq<Sequence>, p: Sequence)
    ensures |Continuations(sequences, p)| == |set i | 0 <= i < |sequences| && p < sequences[i]|
  {
    var extending := set i | 0 <= i < |sequences| && p < sequences[i];
    if sequences != [] {
      var n := |sequences| - 1;
      OneForEach(sequences[..n], p);
      var before := set i | 0 <= i < |sequences[..n]| && p < sequences[..n][i];
      assert extending == before + if p < sequences[n] then {n} else {};
    } else {
      assert extending == {};
    }
  }

  /** A function is scheduled after `p` exactly when the longer sequence is on the trie of user sequences. */
  lemma {:induction false} ContinuationsAreTrie(sequences: seq<Sequence>, p: Sequence, f: Function)
    ensures f in Continuations(sequences, p) <==> OnTrie(sequences, p + [f])
  {
    if sequences != [] {
      var n := |sequences| - 1;
      ContinuationsAreTrie(sequences[..n], p, f);
      assert p + [f] <= sequences[n] <==> p < sequences[n] && sequences[n][|p|] == f;
      if OnTrie(sequences, p + [f]) {
        var i :| 0 <= i < |sequences| && p + [f] <= sequences[i];
        assert i < n ==> sequences[..n][i] == sequences[i];
      }
      if OnTrie(sequences[..n], p + [f]) {
        var i :| 0 <= i < n && p + [f] <= sequences[..n][i];
        assert sequences[i] == sequences[..n][i];
      }
    }
  }

  // ---------- serving the queue ----------

  /** What one key asks for; the key of the deployment with no sequence at all ends the call. */
  function Asked(sequences: seq<Sequence>, k: SeqKey): Outcome {
    if k.Root? && [] in sequences then EmptySequence
    else
      var functions := Continuations(sequences, Executed(k));
      if functions == [] then Done else Scheduled(k, functions)
  }

  /** The call stops at this key. */
  predicate Stops(sequences: seq<Sequence>, k: SeqKey) {
    k.Root? || Continuations(sequences, Executed(k)) != []
  }

  /** How many keys one call takes from the queue. */
  function Consumed(sequences: seq<Sequence>, queue: seq<SeqKey>): (n: nat)
    ensures n <= |queue|
  {
    if queue == [] then 0 else if Stops(sequences, queue[0]) then 1 else 1 + Consumed(sequences, queue[1..])
  }

  function Served(sequences: seq<Sequence>, queue: seq<SeqKey>): Outcome {
    if queue == [] then Done
    else if Stops(sequences, queue[0]) then Asked(sequences, queue[0])
    else Served(sequences, queue[1..])
  }

  /** The keys taken before the last have no continuation, and the outcome is what the last one asks for. */
  lemma {:induction false} OnlyIdleAreSkipped(sequences: seq<Sequence>, queue: seq<SeqKey>)
    ensures var n := Consumed(sequences, queue);
      && (forall i :: 0 <= i < n - 1 ==> queue[i].Node? && Continuations(sequences, Executed(queue[i])) == [])
      && (n > 0 ==> Served(sequences, queue) == Asked(sequences, queue[n - 1]))
      && (n == 0 ==> Served(sequences, queue) == Done)
      && (n < |queue| ==> queue[n - 1].Root? || Continuations(sequences, Executed(queue[n - 1])) != [])
  {
    if queue != [] && !Stops(sequences, queue[0]) {
      OnlyIdleAreSkipped(sequences, queue[1..]);
      var n := Consumed(sequences, queue);
      forall i | 0 <= i < n - 1 ensures queue[i].Node? && Continuations(sequences, Executed(queue[i])) == [] {
        if i > 0 {
          assert queue[1..][i - 1] == queue[i];
        }
      }
    }
  }

  /** Some key stops a call. */
  ghost predicate SomeStops(sequences: seq<Sequence>, queue: seq<SeqKey>) {
    exists k :: k in queue && Stops(sequences, k)
  }

  lemma NothingWaits(sequences: seq<Sequence>)
    ensures !SomeStops(sequences, []) && Consumed(sequences, []) == 0 && Served(sequences, []) == Done
  {
  }

  lemma OneTaken(sequences: seq<Sequence>, queue: seq<SeqKey>)
    requires queue != []
    ensures var stops := Stops(sequences, queue[0]);
      && SomeStops(sequences, queue) == (stops || SomeStops(sequences, queue[1..]))
      && Consumed(sequences, queue) == (if stops then 1 else 1 + Consumed(sequences, queue[1..]))
      && Served(sequences, queue) == (if stops then Asked(sequences, queue[0]) else Served(sequences, queue[1..]))
  {
    hide Stops, Asked;
    assert queue == [queue[0]] + queue[1..];
  }

  function KeysOf(batch: seq<(SeqKey, seq<WorldState>)>): seq<SeqKey> {
    if batch == [] then [] else KeysOf(batch[..|batch| - 1]) + [batch[|batch| - 1].0]
  }

  function Kept(worldStates: map<SeqKey, seq<WorldState>>, batch: seq<(SeqKey, seq<WorldState>)>): map<SeqKey, seq<WorldState>> {
    if batch == [] then worldStates
    else
      var before := Kept(worldStates, batch[..|batch| - 1]);
      var (key, states) := batch[|batch| - 1];
      before[key := (if key in before then before[key] else []) + states]
  }

  /** The keys of a batch in order. */
  lemma {:induction false} KeysInOrder(batch: seq<(SeqKey, seq<WorldState>)>)
    ensures |KeysOf(batch)| == |batch| && forall i :: 0 <= i < |batch| ==> KeysOf(batch)[i] == batch[i].0
  {
    if batch != [] {
      KeysInOrder(batch[..|batch| - 1]);
    }
  }

  /** The states of every new key join those kept under it, and the others stay. */
  lemma {:induction false} KeptExactly(worldStates: map<SeqKey, seq<WorldState>>, batch: seq<(SeqKey, seq<WorldState>)>, k: SeqKey)
    requires forall i, j :: 0 <= i < j < |batch| ==> batch[i].0 != batch[j].0
    ensures forall i :: 0 <= i < |batch| && batch[i].0 == k ==>
      k in Kept(worldStates, batch) && Kept(worldStates, batch)[k] == (if k in worldStates then worldStates[k] else []) + batch[i].1
    ensures (forall i :: 0 <= i < |batch| ==> batch[i].0 != k) ==>
      (k in Kept(worldStates, batch) <==> k in worldStates) && (k in worldStates ==> Kept(worldStates, batch)[k] == worldStates[k])
  {
    if batch != [] {
      var n := |batch| - 1;
      KeptExactly(worldStates, batch[..n], k);
      assert forall i :: 0 <= i < n ==> batch[..n][i] == batch[i];
    }
  }

  class Seq {
    const sequences: seq<Sequence>
    var queue: seq<SeqKey>
    var worldStates: map<SeqKey, seq<WorldState>>

    constructor (sequences: seq<Sequence>)
      ensures this.sequences == sequences && queue == [] && worldStates == map[]
    {
      this.sequences, queue, worldStates := sequences, [], map[];
    }

    /** Queues the new keys, then takes keys until one has a continuation. */
    method AssignStates(batch: seq<(SeqKey, seq<WorldState>)>) returns (r: Outcome, delete: bool)
      modifies this`queue, this`worldStates
      ensures worldStates == Kept(old(worldStates), batch)
      ensures var all := old(queue) + KeysOf(batch);
        && r == Served(sequences, all) && queue == all[Consumed(sequences, all)..]
        && (delete <==> exists k :: k in all && (k.Root? || Continuations(sequences, Executed(k)) != []))
    {
      for i := 0 to |batch|
        invariant worldStates == Kept(old(worldStates), batch[..i])
        invariant queue == old(queue) + KeysOf(batch[..i])
      {
        assert batch[..i + 1][..i] == batch[..i];
        var (key, states) := batch[i];
        worldStates := worldStates[key := (if key in worldStates then worldStates[key] else []) + states];
        queue := queue + [key];
      }
      assert batch[..|batch|] == batch;
      r, delete := Serve();
    }

    /** Takes keys up to the first that stops the call; `delete` tells that there was one. */
    method Serve() returns (r: Outcome, delete: bool)
      modifies this`queue
      ensures r == Served(sequences, old(queue)) && queue == old(queue)[Consumed(sequences, old(queue))..]
      ensures delete == SomeStops(sequences, old(queue))
    {
      hide Continuations, SomeStops, Consumed, Served;
      NothingWaits(sequences);
      ghost var n: nat := 0;
      while true
        invariant n <= |old(queue)| && queue == old(queue)[n..]
        invariant Consumed(sequences, old(queue)) == n + Consumed(sequences, queue)
        invariant Served(sequences, queue) == Served(sequences, old(queue))
        invariant SomeStops(sequences, old(queue)) == SomeStops(sequences, queue)
        decreases |queue|
      {
        if |queue| == 0 {
          return Done, false;
        }
        var stateKey := queue[0];
        assert old(queue)[n..][1..] == old(queue)[n + 1..];
        OneTaken(sequences, queue);
        queue, n := queue[1..], n + 1;
        if stateKey.Root? {
          r := FirstFunctions();
          return r, true;
        }
        var functions := Extending(stateKey.key.functions);
        if |functions| > 0 {
          return Scheduled(stateKey, functions), true;
        }
      }
    }

    /** The first function of every sequence. */
    method FirstFunctions() returns (r: Outcome)
      ensures r == Asked(sequences, Root)
    {
      var functions: seq<Function> := [];
      for i := 0 to |sequences|
        invariant [] !in sequences[..i] && functions == Continuations(sequences[..i], [])
        invariant |functions| == i
      {
        assert sequences[..i + 1][..i] == sequences[..i];
        if |sequences[i]| == 0 {
          assert [] in sequences;
          return EmptySequence;
        }
        functions := functions + [sequences[i][0]];
        assert sequences[..i + 1] == sequences[..i] + [sequences[i]];
      }
      assert sequences[..|sequences|] == sequences;
      if |sequences| == 0 {
        return Done;
      }
      r := Scheduled(Root, functions);
    }

    /** Compares a sequence with every user sequence, function by function. */
    method Extending(p: Sequence) returns (functions: seq<Function>)
      ensures functions == Continuations(sequences, p)
    {
      functions := [];
      for i := 0 to |sequences|
        invariant functions == Continuations(sequences[..i], p)
      {
        assert sequences[..i + 1][..i] == sequences[..i];
        var s := sequences[i];
        if |p| == |s| {
          continue;
        }
        if |p| < |s| {
          var add := true;
          var j := 0;
          while j < |p| && add
            invariant 0 <= j <= |p| && (add ==> p[..j] == s[..j]) && (!add ==> !(p <= s))
          {
            if p[j] != s[j] {
              add := false;
            } else {
              assert p[..j + 1] == p[..j] + [p[j]] && s[..j + 1] == s[..j] + [s[j]];
            }
            j := j + 1;
          }
          assert p[..|p|] == p;
          if add {
            functions := functions + [s[|p|]];
          }
        }
      }
      assert sequences[..|sequences|] == sequences;
    }
  }

  // ---------- runs ----------

  /** What a sequence of calls has received, taken and handed out. */
  datatype History = History(received: seq<SeqKey>, taken: seq<SeqKey>, queue: seq<SeqKey>, outcomes: seq<Outcome>)

  function RunCalls(sequences: seq<Sequence>, batches: seq<seq<SeqKey>>): History {
    if batches == [] then History([], [], [], [])
    else
      var n := |batches| - 1;
      var h := RunCalls(sequences, batches[..n]);
      var all := h.queue + batches[n];
      var c := Consumed(sequences, all);
      History(h.received + batches[n], h.taken + all[..c], all[c..], h.outcomes + [Served(sequences, all)])
  }

  /** Every key with something to ask for, in order. */
  function Requests(sequences: seq<Sequence>, keys: seq<SeqKey>): seq<Outcome> {
    if keys == [] then []
    else
      var n := |keys| - 1;
      Requests(sequences, keys[..n]) + (if Asked(sequences, keys[n]) != Done then [Asked(sequences, keys[n])] else [])
  }

  function Answers(outcomes: seq<Outcome>): seq<Outcome> {
    if outcomes == [] then []
    else
      var n := |outcomes| - 1;
      Answers(outcomes[..n]) + (if outcomes[n] != Done then [outcomes[n]] else [])
  }

  lemma {:induction false} RequestsOfConcat(sequences: seq<Sequence>, a: seq<SeqKey>, b: seq<SeqKey>)
    ensures Requests(sequences, a + b) == Requests(sequences, a) + Requests(sequences, b)
  {
    hide Asked;
    if b == [] {
      assert a + b == a;
    } else {
      assert (a + b)[..|a + b| - 1] == a + b[..|b| - 1];
      RequestsOfConcat(sequences, a, b[..|b| - 1]);
    }
  }

  lemma {:induction false} RequestsOfIdle(sequences: seq<Sequence>, keys: seq<SeqKey>)
    requires forall i :: 0 <= i < |keys| ==> keys[i].Node? && Continuations(sequences, Executed(keys[i])) == []
    ensures Requests(sequences, keys) == []
  {
    if keys != [] {
      RequestsOfIdle(sequences, keys[..|keys| - 1]);
    }
  }

  lemma RequestsOfCall(sequences: seq<Sequence>, queue: seq<SeqKey>)
    ensures var n := Consumed(sequences, queue);
      Requests(sequences, queue[..n]) == if Served(sequences, queue) != Done then [Served(sequences, queue)] else []
  {
    hide Asked, Stops, Continuations, Served, Consumed;
    OnlyIdleAreSkipped(sequences, queue);
    var n := Consumed(sequences, queue);
    if n > 0 {
      RequestsOfIdle(sequences, queue[..n - 1]);
      assert queue[..n][..n - 1] == queue[..n - 1];
    }
  }

  lemma Reorder(received: seq<SeqKey>, taken: seq<SeqKey>, queue: seq<SeqKey>, batch: seq<SeqKey>, c: nat)
    requires received == taken + queue && c <= |queue + batch|
    ensures received + batch == (taken + (queue + batch)[..c]) + (queue + batch)[c..]
  {
  }

  /** Over any feed of keys: each key is taken once, in the order of arrival, and the calls hand out exactly
      what the taken keys ask for. */
  lemma {:induction false} EveryKeyOnce(sequences: seq<Sequence>, batches: seq<seq<SeqKey>>)
    ensures var h := RunCalls(sequences, batches);
      && h.received == h.taken + h.queue
      && Answers(h.outcomes) == Requests(sequences, h.taken)
  {
    hide Asked, Served, Consumed, Requests;
    RequestsOfIdle(sequences, []);
    if batches != [] {
      var n := |batches| - 1;
      EveryKeyOnce(sequences, batches[..n]);
      var h := RunCalls(sequences, batches[..n]);
      var all := h.queue + batches[n];
      var c := Consumed(sequences, all);
      Reorder(h.received, h.taken, h.queue, batches[n], c);
      RequestsOfConcat(sequences, h.taken, all[..c]);
      RequestsOfCall(sequences, all);
    }
  }

  /** The engine answers with states that extend the scheduled sequence by one of its functions. */
  ghost predicate Extends(batch: seq<SeqKey>, r: Outcome) {
    forall i :: 0 <= i < |batch| ==> ExtendsOne(batch[i], r)
  }

  ghost predicate ExtendsOne(k: SeqKey, r: Outcome) {
    k.Node? && r.Scheduled? && exists f :: f in r.functions && k.key.functions == Executed(r.key) + [f]
  }

  /** Repeated calls walk the trie of the user sequences: every key that comes back is on it. */
  lemma WalksTheTrie(sequences: seq<Sequence>, queue: seq<SeqKey>, batch: seq<SeqKey>, i: nat)
    requires Extends(batch, Served(sequences, queue)) && i < |batch|
    ensures batch[i].Node? && OnTrie(sequences, batch[i].key.functions)
  {
    hide OnTrie, Continuations;
    var r := Served(sequences, queue);
    OnlyIdleAreSkipped(sequences, queue);
    assert ExtendsOne(batch[i], r);
    var f :| f in r.functions && batch[i].key.functions == Executed(r.key) + [f];
    ContinuationsAreTrie(sequences, Executed(r.key), f);
  }
}
