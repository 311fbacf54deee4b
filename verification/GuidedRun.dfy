/** Whole runs of the guided phase: the engine answers every iteration with any finite list of states that
    extend the executed sequence by one function, and the strategy picks the next state. */
module GuidedRun {
  import opened Instructions
  import opened FunctionAssignment
  import opened Mine

  /** The queue, the state that is being executed, and the number for the next key. */
  datatype Phase = Phase(queue: seq<Key>, executed: Option<Key>, index: nat)

  function KeyFor(state: WorldState, index: nat): Key {
    Key(if state.functions == [] then ["constructor"] else state.functions, index)
  }

  /** States at the sequence limit are dropped and use up no number. */
  function Organized(states: seq<WorldState>, index: nat, limit: nat): seq<(Key, WorldState)> {
    if states == [] then []
    else
      var before := Organized(states[..|states| - 1], index, limit);
      var state := states[|states| - 1];
      if state.functions != [] && |state.functions| >= limit then before else before + [(KeyFor(state, index + |before|), state)]
  }

  function Taken(executed: Option<Key>): multiset<Key> {
    match executed
    case None => multiset{}
    case Some(k) => multiset{k}
  }

  /** Every key waiting or being executed. */
  function Keys(p: Phase): multiset<Key> {
    multiset(p.queue) + Taken(p.executed)
  }

  /** One iteration that takes in `states`: the next state comes from the queue or from the new ones. */
  ghost predicate Advance(limit: nat, states: seq<WorldState>, p: Phase, q: Phase) {
    && Keys(q) <= multiset(p.queue) + multiset(NewKeys(Organized(states, p.index, limit)))
    && q.index == p.index + |Organized(states, p.index, limit)|
  }

  ghost predicate Successors(states: seq<WorldState>, executed: Key) {
    forall i :: 0 <= i < |states| ==> |states[i].functions| == |executed.functions| + 1 && executed.functions <= states[i].functions
  }

  /** One iteration after the engine has executed a state. */
  ghost predicate Step(limit: nat, p: Phase, q: Phase) {
    p.executed.Some? && exists states :: Successors(states, p.executed.value) && Advance(limit, states, p, q)
  }

  /** Keys are numbered apart, and their sequences are shorter than the limit. */
  ghost predicate Orderly(limit: nat, p: Phase) {
    forall k :: k in Keys(p) ==> Keys(p)[k] == 1 && k.index < p.index && 0 < |k.functions| < limit
  }

  // ---------- new keys ----------

  /** New keys carry new numbers, each its own, and the sequences of their states. */
  lemma {:induction false} OrganizedKeys(states: seq<WorldState>, index: nat, limit: nat)
    ensures forall i :: 0 <= i < |Organized(states, index, limit)| ==>
      var (k, s) := Organized(states, index, limit)[i];
      k == KeyFor(s, index + i) && s in states && !(s.functions != [] && |s.functions| >= limit)
  {
    if states != [] {
      var n := |states| - 1;
      OrganizedKeys(states[..n], index, limit);
      assert forall s :: s in states[..n] ==> s in states;
    }
  }

  /** Whether a state is below the sequence limit. */
  predicate IsKept(state: WorldState, limit: nat) {
    state.functions == [] || |state.functions| < limit
  }

  function KeptCount(states: seq<WorldState>, limit: nat): nat {
    if states == [] then 0 else KeptCount(states[..|states| - 1], limit) + if IsKept(states[|states| - 1], limit) then 1 else 0
  }

  /** State `j` has the key with its number, counted over the states below the limit in front of it. */
  ghost predicate HasKey(batch: seq<(Key, WorldState)>, states: seq<WorldState>, j: nat, index: nat, limit: nat)
    requires j < |states|
  {
    var m := KeptCount(states[..j], limit);
    m < |batch| && batch[m] == (Key(if states[j].functions == [] then ["constructor"] else states[j].functions, index + m), states[j])
  }

  lemma KeyStays(batch: seq<(Key, WorldState)>, more: seq<(Key, WorldState)>, states: seq<WorldState>, n: nat, j: nat, index: nat, limit: nat)
    requires j < n <= |states| && HasKey(batch, states[..n], j, index, limit)
    ensures HasKey(batch + more, states, j, index, limit)
  {
    hide KeptCount;
    assert states[..n][..j] == states[..j];
  }

  /** Every state below the limit has its key, and there are no other keys. */
  lemma {:induction false} OrganizedExactly(states: seq<WorldState>, index: nat, limit: nat)
    ensures |Organized(states, index, limit)| == KeptCount(states, limit)
    ensures forall j :: 0 <= j < |states| && IsKept(states[j], limit) ==> HasKey(Organized(states, index, limit), states, j, index, limit)
  {
    hide HasKey;
    if states != [] {
      var n := |states| - 1;
      var before := Organized(states[..n], index, limit);
      OrganizedExactly(states[..n], index, limit);
      var more := if IsKept(states[n], limit) then [(KeyFor(states[n], index + |before|), states[n])] else [];
      assert Organized(states, index, limit) == before + more;
      forall j | 0 <= j < |states| && IsKept(states[j], limit) ensures HasKey(before + more, states, j, index, limit) {
        if j < n {
          KeyStays(before, more, states, n, j, index, limit);
        } else {
          LastHasKey(before, states, index, limit);
        }
      }
    }
  }

  lemma LastHasKey(before: seq<(Key, WorldState)>, states: seq<WorldState>, index: nat, limit: nat)
    requires states != [] && |before| == KeptCount(states[..|states| - 1], limit)
    ensures HasKey(before + [(KeyFor(states[|states| - 1], index + |before|), states[|states| - 1])], states, |states| - 1, index, limit)
  {
    hide KeptCount;
  }

  lemma {:induction false} NewKeysCount(batch: seq<(Key, WorldState)>, index: nat, k: Key)
    requires forall i :: 0 <= i < |batch| ==> batch[i].0.index == index + i
    ensures multiset(NewKeys(batch))[k] <= 1
    ensures k in NewKeys(batch) ==> index <= k.index < index + |batch|
  {
    hide IsGenesis;
    if batch != [] {
      var n := |batch| - 1;
      NewKeysCount(batch[..n], index, k);
      assert multiset(NewKeys(batch[..n]))[k] == 0 || k in NewKeys(batch[..n]);
    }
  }

  lemma NewNumbers(states: seq<WorldState>, index: nat, limit: nat)
    ensures forall i :: 0 <= i < |Organized(states, index, limit)| ==> Organized(states, index, limit)[i].0.index == index + i
  {
    hide KeyFor, Organized;
    var batch := Organized(states, index, limit);
    OrganizedKeys(states, index, limit);
    forall i | 0 <= i < |batch| ensures batch[i].0.index == index + i {
      Numbers(batch[i].1, index + i);
    }
  }

  /** A new key stands for one of the states that are kept. */
  lemma NewKeyState(states: seq<WorldState>, index: nat, limit: nat, k: Key) returns (s: WorldState)
    requires k in NewKeys(Organized(states, index, limit))
    ensures s in states && s.functions == k.functions && 0 < |k.functions| < limit
  {
    hide IsGenesis, KeyFor, Organized;
    var batch := Organized(states, index, limit);
    OrganizedKeys(states, index, limit);
    NewKeysOfBatch(batch);
    var i :| 0 <= i < |batch| && batch[i].0 == k;
    s := batch[i].1;
    Numbers(s, index + i);
  }

  /** New keys are numbered from `index` on, each its own. */
  lemma FreshKeys(states: seq<WorldState>, index: nat, limit: nat, k: Key)
    ensures var batch := Organized(states, index, limit);
      multiset(NewKeys(batch))[k] <= 1 && (k in NewKeys(batch) ==> index <= k.index < index + |batch|)
  {
    hide Organized, NewKeys;
    NewNumbers(states, index, limit);
    NewKeysCount(Organized(states, index, limit), index, k);
  }

  lemma Numbers(s: WorldState, index: nat)
    ensures KeyFor(s, index).index == index
    ensures s.functions == [] ==> IsGenesis(KeyFor(s, index))
    ensures s.functions != [] ==> KeyFor(s, index).functions == s.functions
  {
  }

  // ---------- one iteration ----------

  /** An iteration keeps the keys apart and below the limit, whatever state was executed before. */
  lemma AdvanceIsOrderly(limit: nat, states: seq<WorldState>, p: Phase, q: Phase)
    requires Orderly(limit, p.(executed := None)) && Advance(limit, states, p, q)
    ensures Orderly(limit, q)
  {
    hide Organized;
    var waiting := p.(executed := None);
    forall k | k in Keys(q) ensures Keys(q)[k] == 1 && k.index < q.index && 0 < |k.functions| < limit {
      FreshKeys(states, p.index, limit, k);
      var keys := NewKeys(Organized(states, p.index, limit));
      assert Keys(q)[k] <= multiset(p.queue)[k] + multiset(keys)[k];
      assert Keys(waiting) == multiset(p.queue);
      if k in p.queue {
        assert k in Keys(waiting);
      } else {
        assert multiset(p.queue)[k] == 0;
        assert k in multiset(keys);
        var s := NewKeyState(states, p.index, limit, k);
      }
    }
  }

  lemma QueueIsOrderly(limit: nat, p: Phase)
    requires Orderly(limit, p)
    ensures Orderly(limit, p.(executed := None))
  {
    forall k | k in p.queue ensures multiset(p.queue)[k] == 1 && k in Keys(p) {
      assert multiset(p.queue)[k] <= Keys(p)[k];
    }
  }

  lemma StepIsOrderly(limit: nat, p: Phase, q: Phase)
    requires Orderly(limit, p) && Step(limit, p, q)
    ensures Orderly(limit, q) && p.index <= q.index
  {
    hide Orderly, Successors, Organized;
    QueueIsOrderly(limit, p);
    var states :| Successors(states, p.executed.value) && Advance(limit, states, p, q);
    AdvanceIsOrderly(limit, states, p, q);
  }

  // ---------- counting by length ----------

  /** How many keys of a list have sequences of `n` functions. */
  function CountIn(keys: seq<Key>, n: nat): nat {
    if keys == [] then 0 else CountIn(keys[1..], n) + (if |keys[0].functions| == n then 1 else 0)
  }

  function Count(p: Phase, n: nat): nat {
    CountIn(p.queue, n) + (if p.executed.Some? && |p.executed.value.functions| == n then 1 else 0)
  }

  lemma RemoveBoth(a: multiset<Key>, b: multiset<Key>, k: Key)
    requires a + multiset{k} <= b + multiset{k}
    ensures a <= b
  {
    forall j ensures a[j] <= b[j] {
      assert (a + multiset{k})[j] <= (b + multiset{k})[j];
    }
  }

  lemma Split(b: seq<Key>, i: nat, n: nat)
    requires i < |b|
    ensures multiset(b) == multiset(b[..i] + b[i + 1..]) + multiset{b[i]}
    ensures CountIn(b, n) == CountIn(b[..i] + b[i + 1..], n) + CountIn([b[i]], n)
  {
    assert b == b[..i] + ([b[i]] + b[i + 1..]);
    CountOfConcat(b[..i], [b[i]] + b[i + 1..], n);
    CountOfConcat([b[i]], b[i + 1..], n);
    CountOfConcat(b[..i], b[i + 1..], n);
  }

  lemma {:induction false} CountOfSub(a: seq<Key>, b: seq<Key>, n: nat)
    requires multiset(a) <= multiset(b)
    ensures CountIn(a, n) <= CountIn(b, n)
  {
    if a != [] {
      assert a == [a[0]] + a[1..];
      assert a[0] in multiset(b);
      var i :| 0 <= i < |b| && b[i] == a[0];
      var rest := b[..i] + b[i + 1..];
      Split(b, i, n);
      RemoveBoth(multiset(a[1..]), multiset(rest), a[0]);
      CountOfSub(a[1..], rest, n);
    }
  }

  lemma {:induction false} CountOfConcat(a: seq<Key>, b: seq<Key>, n: nat)
    ensures CountIn(a + b, n) == CountIn(a, n) + CountIn(b, n)
  {
    if a == [] {
      assert a + b == b;
    } else {
      assert (a + b)[1..] == a[1..] + b;
      CountOfConcat(a[1..], b, n);
    }
  }

  lemma {:induction false} CountOfOthers(keys: seq<Key>, n: nat)
    requires forall k :: k in keys ==> |k.functions| != n
    ensures CountIn(keys, n) == 0
  {
    if keys != [] {
      CountOfOthers(keys[1..], n);
    }
  }

  /** The counts by sequence length fall lexicographically, shortest first: no shorter length gains a key,
      and the executed length loses one. */
  lemma CountsFall(limit: nat, p: Phase, q: Phase, n: nat)
    requires Orderly(limit, p) && Step(limit, p, q) && n <= |p.executed.value.functions|
    ensures Count(q, n) <= Count(p, n)
    ensures n == |p.executed.value.functions| ==> Count(q, n) < Count(p, n)
  {
    hide Orderly, Organized, CountIn;
    var e := p.executed.value;
    var states: seq<WorldState> :| Successors(states, e) && Advance(limit, states, p, q);
    var keys := NewKeys(Organized(states, p.index, limit));
    forall k | k in keys ensures |k.functions| == |e.functions| + 1 {
      var s := NewKeyState(states, p.index, limit, k);
    }
    CountOfOthers(keys, n);
    CountOfConcat(p.queue, keys, n);
    assert multiset(p.queue + keys) == multiset(p.queue) + multiset(keys);
    WholeCount(q, n);
    CountOfSub(Whole(q), p.queue + keys, n);
  }

  function Whole(q: Phase): seq<Key> {
    if q.executed.Some? then [q.executed.value] + q.queue else q.queue
  }

  lemma WholeCount(q: Phase, n: nat)
    ensures Count(q, n) == CountIn(Whole(q), n) && multiset(Whole(q)) == Keys(q)
  {
    if q.executed.Some? {
      assert Whole(q)[1..] == q.queue;
    }
  }

  // ---------- whole runs ----------

  /** As long as a state is executed, the run goes on by an iteration. */
  ghost predicate IsRun(limit: nat, run: nat -> Phase) {
    Orderly(limit, run(0)) && forall i: nat :: run(i).executed.Some? ==> Step(limit, run(i), run(i + 1))
  }

  ghost predicate RunsOn(run: nat -> Phase) {
    forall i: nat :: run(i).executed.Some?
  }

  lemma {:induction false} RunIsOrderly(limit: nat, run: nat -> Phase, i: nat)
    requires IsRun(limit, run) && forall j: nat :: j < i ==> run(j).executed.Some?
    ensures Orderly(limit, run(i))
  {
    hide Orderly, Step;
    if i > 0 {
      RunIsOrderly(limit, run, i - 1);
      StepIsOrderly(limit, run(i - 1), run(i));
    }
  }

  /** From `from` on, only sequences of at least `n` functions are executed. */
  ghost predicate LongFrom(run: nat -> Phase, n: nat, from: nat) {
    forall i: nat :: i >= from ==> run(i).executed.Some? && |run(i).executed.value.functions| >= n
  }

  /** A count that never rises stops falling. */
  lemma {:induction false} EventuallyLonger(limit: nat, run: nat -> Phase, n: nat, from: nat) returns (later: nat)
    requires IsRun(limit, run) && RunsOn(run) && LongFrom(run, n, from)
    ensures LongFrom(run, n + 1, later)
    decreases Count(run(from), n)
  {
    hide Step, Orderly, Count;
    if i: nat :| i >= from && |run(i).executed.value.functions| == n {
      CountNeverRises(limit, run, n, from, i);
      RunIsOrderly(limit, run, i);
      CountsFall(limit, run(i), run(i + 1), n);
      later := EventuallyLonger(limit, run, n, i + 1);
    } else {
      later := from;
    }
  }

  lemma {:induction false} CountNeverRises(limit: nat, run: nat -> Phase, n: nat, from: nat, i: nat)
    requires IsRun(limit, run) && RunsOn(run) && LongFrom(run, n, from) && from <= i
    ensures Count(run(i), n) <= Count(run(from), n)
  {
    hide Step, Orderly, Count;
    if i > from {
      CountNeverRises(limit, run, n, from, i - 1);
      RunIsOrderly(limit, run, i - 1);
      CountsFall(limit, run(i - 1), run(i), n);
    }
  }

  lemma {:induction false} EventuallyAllLonger(limit: nat, run: nat -> Phase, n: nat) returns (from: nat)
    requires IsRun(limit, run) && RunsOn(run)
    ensures LongFrom(run, n, from)
  {
    hide IsRun;
    if n == 0 {
      from := 0;
    } else {
      from := EventuallyAllLonger(limit, run, n - 1);
      from := EventuallyLonger(limit, run, n - 1, from);
    }
  }

  /** Every run of the guided phase ends: some iteration hands out no state. */
  lemma RunsEnd(limit: nat, run: nat -> Phase)
    requires IsRun(limit, run)
    ensures exists i: nat :: run(i).executed.None?
  {
    hide Step, Orderly, IsRun, LongFrom;
    if RunsOn(run) {
      var from := EventuallyAllLonger(limit, run, limit);
      RunIsOrderly(limit, run, from);
      ExecutedIsShort(limit, run(from));
      LongNow(run, limit, from);
      assert false;
    }
  }

  lemma LongNow(run: nat -> Phase, n: nat, from: nat)
    requires LongFrom(run, n, from)
    ensures run(from).executed.Some? && |run(from).executed.value.functions| >= n
  {
  }

  lemma ExecutedIsShort(limit: nat, p: Phase)
    requires Orderly(limit, p) && p.executed.Some?
    ensures |p.executed.value.functions| < limit
  {
    assert p.executed.value in Keys(p);
  }

  // ---------- each key once ----------

  lemma ExecutedLeaves(limit: nat, p: Phase, q: Phase)
    requires Orderly(limit, p) && Step(limit, p, q)
    ensures p.executed.value !in Keys(q) && p.executed.value.index < q.index
  {
    hide Organized, Successors;
    var e := p.executed.value;
    var states: seq<WorldState> :| Successors(states, e) && Advance(limit, states, p, q);
    assert e in Keys(p) && Keys(p)[e] == multiset(p.queue)[e] + 1;
    FreshKeys(states, p.index, limit, e);
    assert multiset(NewKeys(Organized(states, p.index, limit)))[e] == 0;
    assert Keys(q)[e] <= multiset(p.queue)[e] + multiset(NewKeys(Organized(states, p.index, limit)))[e];
  }

  lemma GoneStaysGone(limit: nat, p: Phase, q: Phase, k: Key)
    requires Step(limit, p, q) && k !in Keys(p) && k.index < p.index
    ensures k !in Keys(q) && k.index < q.index
  {
    hide Organized, Successors;
    var states :| Successors(states, p.executed.value) && Advance(limit, states, p, q);
    FreshKeys(states, p.index, limit, k);
    assert multiset(p.queue)[k] <= Keys(p)[k];
    assert multiset(NewKeys(Organized(states, p.index, limit)))[k] == 0;
    assert Keys(q)[k] <= multiset(p.queue)[k] + multiset(NewKeys(Organized(states, p.index, limit)))[k];
  }

  lemma {:induction false} NeverAgain(limit: nat, run: nat -> Phase, i: nat, j: nat)
    requires IsRun(limit, run) && i < j && forall m: nat :: m < j ==> run(m).executed.Some?
    ensures run(i).executed.value !in Keys(run(j)) && run(i).executed.value.index < run(j).index
  {
    hide Step, Orderly, Keys;
    if j == i + 1 {
      RunIsOrderly(limit, run, i);
      ExecutedLeaves(limit, run(i), run(j));
    } else {
      NeverAgain(limit, run, i, j - 1);
      GoneStaysGone(limit, run(j - 1), run(j), run(i).executed.value);
    }
  }

  /** No state key is executed twice, and no queued or executed sequence reaches the limit. */
  lemma EachKeyOnce(limit: nat, run: nat -> Phase, i: nat, j: nat)
    requires IsRun(limit, run) && i < j && forall m: nat :: m <= j ==> run(m).executed.Some?
    ensures run(i).executed != run(j).executed
    ensures forall k :: k in Keys(run(j)) ==> 0 < |k.functions| < limit
  {
    NeverAgain(limit, run, i, j);
    RunIsOrderly(limit, run, j);
    assert run(j).executed.value in Keys(run(j));
  }
}
