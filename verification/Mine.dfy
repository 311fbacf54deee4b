/** The guided search strategy: it saves the new states, thins its queue, and hands out one state at a
    time together with the functions to execute on it. */
module Mine {
  import opened Instructions
  import opened Merge
  import opened FunctionAssignment
  import opened Filtering
  import opened Selection
  import opened TieBreak

  /** A world state: the functions that led to it, the slots in its storage, the slots written at each depth. */
  datatype WorldState = WorldState(functions: seq<Function>, storage: seq<Slot>, writes: map<nat, seq<Slot>>)

  type Written = map<Key, map<nat, seq<Slot>>>

  /** One call's outcome: a key with functions to execute, nothing left, or the failure of taking the only
      state from an empty queue. */
  datatype Assignment = Assigned(key: Key, functions: seq<Function>) | Nothing | NoState

  predicate IsGenesis(key: Key) {
    "constructor" in key.functions
  }

  /** A list without repetitions. */
  function Unique(slots: seq<Slot>): seq<Slot> {
    if slots == [] then []
    else
      var n := |slots| - 1;
      Unique(slots[..n]) + (if slots[n] in slots[..n] then [] else [slots[n]])
  }

  /** The slots that the last function of a state wrote. */
  function LastWrites(key: Key, state: WorldState): seq<Slot> {
    if |key.functions| in state.writes then Unique(state.writes[|key.functions|]) else []
  }

  // ---------- saving states ----------

  /** What a strategy remembers of its states. */
  datatype Store = Store(queue: seq<Key>, worldStates: map<Key, WorldState>, stateStorage: map<Key, seq<Slot>>, written: Written)

  function Saved(s: Store, last: Option<Key>, key: Key, state: WorldState): Store {
    if !IsGenesis(key) then
      var inherited := if last.Some? then WrittenAt(s.written, last.value) else map[];
      Store(s.queue + [key], s.worldStates[key := state], s.stateStorage[key := state.storage],
            s.written[key := inherited[|key.functions| := LastWrites(key, state)]])
    else
      Store(s.queue, s.worldStates, s.stateStorage[key := state.storage],
            if key in s.written then s.written else s.written[key := map[0 := state.storage]])
  }

  function SavedAll(s: Store, last: Option<Key>, batch: seq<(Key, WorldState)>): Store {
    if batch == [] then s
    else
      var n := |batch| - 1;
      Saved(SavedAll(s, last, batch[..n]), last, batch[n].0, batch[n].1)
  }

  function NewKeys(batch: seq<(Key, WorldState)>): seq<Key> {
    if batch == [] then []
    else
      var n := |batch| - 1;
      NewKeys(batch[..n]) + (if IsGenesis(batch[n].0) then [] else [batch[n].0])
  }

  /** Every queued key has its state, its storage and its writes, and no key is queued twice. */
  ghost predicate Sound(s: Store) {
    && (forall k :: k in s.queue ==> k in s.worldStates && k in s.stateStorage && k in s.written && k.functions != [] && !IsGenesis(k))
    && (forall k :: k in s.queue ==> multiset(s.queue)[k] == 1)
  }

  /** Keys of one batch are distinct, not queued yet, and have functions. */
  ghost predicate Fresh(s: Store, batch: seq<(Key, WorldState)>) {
    && (forall i :: 0 <= i < |batch| ==> batch[i].0.functions != [] && batch[i].0 !in s.queue)
    && (forall i, j :: 0 <= i < j < |batch| ==> batch[i].0 != batch[j].0)
  }

  lemma {:induction false} SavedQueue(s: Store, last: Option<Key>, batch: seq<(Key, WorldState)>)
    ensures SavedAll(s, last, batch).queue == s.queue + NewKeys(batch)
  {
    if batch != [] {
      SavedQueue(s, last, batch[..|batch| - 1]);
    }
  }

  predicate InBatch(batch: seq<(Key, WorldState)>, k: Key) {
    exists i :: 0 <= i < |batch| && batch[i].0 == k
  }

  lemma InLonger(batch: seq<(Key, WorldState)>, k: Key)
    requires batch != []
    ensures InBatch(batch, k) <==> InBatch(batch[..|batch| - 1], k) || batch[|batch| - 1].0 == k
  {
    var n := |batch| - 1;
    if i :| 0 <= i < n && batch[i].0 == k {
      assert batch[..n][i].0 == k;
    }
  }

  lemma {:induction false} NewKeysOfBatch(batch: seq<(Key, WorldState)>)
    ensures forall k :: k in NewKeys(batch) <==> !IsGenesis(k) && InBatch(batch, k)
  {
    hide IsGenesis, InBatch;
    if batch == [] {
      assert forall k :: !InBatch([], k) by { EmptyBatch(); }
    } else {
      NewKeysOfBatch(batch[..|batch| - 1]);
      forall k ensures k in NewKeys(batch) <==> !IsGenesis(k) && InBatch(batch, k) {
        InLonger(batch, k);
      }
    }
  }

  lemma EmptyBatch()
    ensures forall k :: !InBatch([], k)
  {
  }

  lemma AddedOnce(queue: seq<Key>, key: Key)
    requires key !in queue && forall k :: k in queue ==> multiset(queue)[k] == 1
    ensures forall k :: k in queue + [key] ==> multiset(queue + [key])[k] == 1
  {
    assert multiset(queue)[key] == 0;
    assert multiset(queue + [key]) == multiset(queue) + multiset{key};
    forall k | k in queue + [key] ensures multiset(queue + [key])[k] == 1 {
      assert k in queue || k == key;
    }
  }

  lemma SavedOneIsSound(s: Store, last: Option<Key>, key: Key, state: WorldState)
    requires Sound(s) && key !in s.queue && key.functions != []
    ensures Sound(Saved(s, last, key, state))
  {
    hide IsGenesis, WrittenAt, LastWrites;
    if !IsGenesis(key) {
      AddedOnce(s.queue, key);
      forall k | k in s.queue + [key] ensures k in s.queue || k == key {
      }
    }
  }

  /** Saving a fresh batch keeps the store sound. */
  lemma {:induction false} SavedIsSound(s: Store, last: Option<Key>, batch: seq<(Key, WorldState)>)
    requires Sound(s) && Fresh(s, batch)
    ensures Sound(SavedAll(s, last, batch))
  {
    hide IsGenesis, Sound, Saved;
    if batch != [] {
      var n := |batch| - 1;
      assert Fresh(s, batch[..n]);
      SavedIsSound(s, last, batch[..n]);
      SavedQueue(s, last, batch[..n]);
      NewKeysOfBatch(batch[..n]);
      SavedOneIsSound(SavedAll(s, last, batch[..n]), last, batch[n].0, batch[n].1);
    }
  }

  /** `state` was saved under `k`: it came with this key in the batch, or else it was there before. */
  ghost predicate SavedUnder(worldStates: map<Key, WorldState>, batch: seq<(Key, WorldState)>, k: Key, state: WorldState) {
    || (exists i :: 0 <= i < |batch| && batch[i] == (k, state))
    || (!InBatch(batch, k) && k in worldStates && worldStates[k] == state)
  }

  /** Every state other than one after deployment is found again under its key. */
  lemma {:induction false} StatesAreSaved(s: Store, last: Option<Key>, batch: seq<(Key, WorldState)>, k: Key)
    requires !IsGenesis(k) && k in SavedAll(s, last, batch).worldStates
    ensures SavedUnder(s.worldStates, batch, k, SavedAll(s, last, batch).worldStates[k])
  {
    hide IsGenesis, WrittenAt, LastWrites;
    if batch != [] {
      var n := |batch| - 1;
      if batch[n].0 == k {
        assert batch[n] == (k, SavedAll(s, last, batch).worldStates[k]);
      } else {
        StatesAreSaved(s, last, batch[..n], k);
        var state := SavedAll(s, last, batch).worldStates[k];
        InLonger(batch, k);
        if i :| 0 <= i < n && batch[..n][i] == (k, state) {
          assert batch[i] == (k, state);
        }
      }
    }
  }

  lemma NoBatch(s: Store, last: Option<Key>)
    ensures SavedAll(s, last, []) == s
  {
  }

  /** Nothing that is remembered under `k` differs. */
  ghost predicate SameUnder(s: Store, t: Store, k: Key) {
    && (k in s.worldStates <==> k in t.worldStates) && (k in s.worldStates ==> s.worldStates[k] == t.worldStates[k])
    && (k in s.stateStorage <==> k in t.stateStorage) && (k in s.stateStorage ==> s.stateStorage[k] == t.stateStorage[k])
    && (k in s.written <==> k in t.written) && (k in s.written ==> s.written[k] == t.written[k])
  }

  /** What is remembered of a new state: its storage, and behind deployment also the state itself and its
      parent's history of writes with its own last writes at its own depth. */
  ghost predicate Remembered(s: Store, last: Option<Key>, t: Store, k: Key, state: WorldState) {
    && k in t.stateStorage && t.stateStorage[k] == state.storage && k in t.written
    && if IsGenesis(k) then
         (k in t.worldStates <==> k in s.worldStates) && t.written[k] == if k in s.written then s.written[k] else map[0 := state.storage]
       else
         && k in t.worldStates && t.worldStates[k] == state
         && t.written[k] == (if last.Some? then WrittenAt(s.written, last.value) else map[])[|k.functions| := LastWrites(k, state)]
  }

  lemma SavedElsewhere(s: Store, last: Option<Key>, key: Key, state: WorldState, k: Key)
    requires k != key
    ensures SameUnder(s, Saved(s, last, key, state), k)
  {
    hide IsGenesis, LastWrites, WrittenAt;
  }

  lemma SavedHere(s: Store, last: Option<Key>, key: Key, state: WorldState)
    ensures Remembered(s, last, Saved(s, last, key, state), key, state)
  {
    hide IsGenesis, LastWrites, WrittenAt;
  }

  lemma {:induction false} OthersStay(s: Store, last: Option<Key>, batch: seq<(Key, WorldState)>, k: Key)
    requires !InBatch(batch, k)
    ensures SameUnder(s, SavedAll(s, last, batch), k)
  {
    hide Saved, InBatch;
    if batch != [] {
      var n := |batch| - 1;
      InLonger(batch, k);
      OthersStay(s, last, batch[..n], k);
      SavedElsewhere(SavedAll(s, last, batch[..n]), last, batch[n].0, batch[n].1, k);
    }
  }

  /** A batch of different keys is remembered state by state, and nothing under another key changes. */
  lemma {:induction false} SavedExactly(s: Store, last: Option<Key>, batch: seq<(Key, WorldState)>)
    requires forall i, j :: 0 <= i < j < |batch| ==> batch[i].0 != batch[j].0
    requires last.Some? ==> !InBatch(batch, last.value)
    ensures forall i :: 0 <= i < |batch| ==> Remembered(s, last, SavedAll(s, last, batch), batch[i].0, batch[i].1)
    ensures forall k :: !InBatch(batch, k) ==> SameUnder(s, SavedAll(s, last, batch), k)
  {
    hide InBatch, Saved, Remembered, SameUnder;
    var t := SavedAll(s, last, batch);
    forall k | !InBatch(batch, k) ensures SameUnder(s, t, k) {
      OthersStay(s, last, batch, k);
    }
    if batch != [] {
      var n := |batch| - 1;
      var before := SavedAll(s, last, batch[..n]);
      NotEarlier(batch);
      if last.Some? {
        InLonger(batch, last.value);
        OthersStay(s, last, batch[..n], last.value);
      }
      SavedExactly(s, last, batch[..n]);
      forall i | 0 <= i < |batch| ensures Remembered(s, last, t, batch[i].0, batch[i].1) {
        if i < n {
          assert batch[..n][i] == batch[i];
          SavedElsewhere(before, last, batch[n].0, batch[n].1, batch[i].0);
          StillRemembered(s, last, before, t, batch[i].0, batch[i].1);
        } else {
          SavedHere(before, last, batch[n].0, batch[n].1);
          OthersStay(s, last, batch[..n], batch[n].0);
          SameParent(s, before, last, t, batch[n].0, batch[n].1);
        }
      }
    }
  }

  lemma StillRemembered(s: Store, last: Option<Key>, t: Store, t': Store, k: Key, state: WorldState)
    requires Remembered(s, last, t, k, state) && SameUnder(t, t', k)
    ensures Remembered(s, last, t', k, state)
  {
    hide IsGenesis, LastWrites, WrittenAt;
  }

  lemma SameParent(s: Store, before: Store, last: Option<Key>, t: Store, k: Key, state: WorldState)
    requires Remembered(before, last, t, k, state) && SameUnder(s, before, k)
    requires last.Some? ==> SameUnder(s, before, last.value)
    ensures Remembered(s, last, t, k, state)
  {
    hide IsGenesis, LastWrites;
  }

  lemma NotEarlier(batch: seq<(Key, WorldState)>)
    requires batch != [] && forall i, j :: 0 <= i < j < |batch| ==> batch[i].0 != batch[j].0
    ensures !InBatch(batch[..|batch| - 1], batch[|batch| - 1].0)
  {
  }

  /** The slots of the last writes are those that the state wrote at its depth, each once. */
  lemma LastWritesAre(key: Key, state: WorldState)
    ensures forall slot :: slot in LastWrites(key, state) <==> |key.functions| in state.writes && slot in state.writes[|key.functions|]
    ensures forall i, j :: 0 <= i < j < |LastWrites(key, state)| ==> LastWrites(key, state)[i] != LastWrites(key, state)[j]
  {
    if |key.functions| in state.writes {
      UniqueIsOnce(state.writes[|key.functions|]);
    }
  }

  lemma {:induction false} UniqueIsOnce(slots: seq<Slot>)
    ensures forall slot :: slot in Unique(slots) <==> slot in slots
    ensures forall i, j :: 0 <= i < j < |Unique(slots)| ==> Unique(slots)[i] != Unique(slots)[j]
  {
    if slots != [] {
      var n := |slots| - 1;
      UniqueIsOnce(slots[..n]);
      assert slots == slots[..n] + [slots[n]];
    }
  }

  /** A new state's history of writes is its parent's, with its own last writes at its depth. */
  lemma SavedHistory(s: Store, last: Key, key: Key, state: WorldState, depth: nat)
    requires !IsGenesis(key) && key != last
    ensures var w := WrittenAt(Saved(s, Some(last), key, state).written, key);
      && (depth in w <==> depth == |key.functions| || depth in WrittenAt(s.written, last))
      && (depth in w ==> w[depth] == if depth == |key.functions| then LastWrites(key, state) else WrittenAt(s.written, last)[depth])
  {
  }

  /** The state saved under a queued key has executed the functions of the key. */
  ghost predicate Labelled(s: Store) {
    forall k :: k in s.queue ==> k in s.worldStates && s.worldStates[k].functions == k.functions
  }

  lemma {:induction false} SavedIsLabelled(s: Store, last: Option<Key>, batch: seq<(Key, WorldState)>)
    requires Labelled(s) && forall i :: 0 <= i < |batch| ==> IsGenesis(batch[i].0) || batch[i].1.functions == batch[i].0.functions
    ensures Labelled(SavedAll(s, last, batch))
  {
    hide IsGenesis, LastWrites, WrittenAt;
    if batch != [] {
      SavedIsLabelled(s, last, batch[..|batch| - 1]);
    }
  }

  /** Taking states in keeps the labels. */
  lemma QueuedIsLabelled(s: Store, last: Option<Key>, batch: seq<(Key, WorldState)>)
    requires Sound(s) && Fresh(s, batch)
    requires Labelled(s) && forall i :: 0 <= i < |batch| ==> IsGenesis(batch[i].0) || batch[i].1.functions == batch[i].0.functions
    ensures Labelled(SavedAll(s, last, batch).(queue := Queued(s, last, batch)))
  {
    hide IsGenesis, Filtered, Sound;
    SavedIsLabelled(s, last, batch);
    SavedQueue(s, last, batch);
    QueuedIsSound(s, last, batch);
    var saved, queue := SavedAll(s, last, batch), Queued(s, last, batch);
    assert multiset(saved.queue) == multiset(s.queue) + multiset(NewKeys(batch));
    forall k | k in queue ensures k in saved.queue {
      assert k in multiset(queue);
      assert k in multiset(saved.queue);
    }
  }

  function RecentWrites(written: Written): Writes {
    (k: Key) => Recent(written, k)
  }

  function TargetsOf(dk: seq<Coverage>): seq<Function> {
    if dk == [] then [] else TargetsOf(dk[..|dk| - 1]) + [dk[|dk| - 1].0]
  }

  /** The queue before a state is picked up. */
  function Queued(s: Store, last: Option<Key>, batch: seq<(Key, WorldState)>): seq<Key> {
    var saved := SavedAll(s, last, batch);
    if batch == [] then s.queue else Filtered(saved.queue, RecentWrites(saved.written))
  }

  lemma QueuedIsSound(s: Store, last: Option<Key>, batch: seq<(Key, WorldState)>)
    requires Sound(s) && Fresh(s, batch)
    ensures Sound(SavedAll(s, last, batch).(queue := Queued(s, last, batch)))
    ensures multiset(Queued(s, last, batch)) <= multiset(s.queue) + multiset(NewKeys(batch))
  {
    hide Filtered, IsGenesis, Excluded;
    SavedIsSound(s, last, batch);
    SavedQueue(s, last, batch);
    var saved := SavedAll(s, last, batch);
    if batch != [] {
      FilteringKeeps(saved.queue, RecentWrites(saved.written));
      SubQueueIsSound(saved, Queued(s, last, batch));
    }
  }

  /** Whenever new states are taken in, the queue is thinned: the states of one sequence that are left stand in
      the order of how many slots they wrote last, from the fourth on each wrote other slots than the one in
      front, and none is left of an excluded sequence. */
  lemma QueuedIsThin(s: Store, last: Option<Key>, batch: seq<(Key, WorldState)>, p: seq<Function>)
    requires batch != []
    ensures var written := SavedAll(s, last, batch).written;
      var group, left := OfPrefix(s.queue + NewKeys(batch), p), OfPrefix(Queued(s, last, batch), p);
      && (forall i, j :: 0 <= i < j < |left| ==> |Recent(written, left[i])| >= |Recent(written, left[j])|)
      && (forall i :: 3 <= i < |left| ==> !SameSlots(Recent(written, left[i - 1]), Recent(written, left[i])))
      && ((forall k, l :: k in group && l in group ==> SameSlots(Recent(written, k), Recent(written, l))) ==> |left| <= 3)
      && (|left| >= 3 || multiset(left) == multiset(group) || Excluded(p))
      && (Excluded(p) ==> left == [])
  {
    hide Filtered, SameSlots, Excluded, Recent, SavedAll;
    var saved := SavedAll(s, last, batch);
    SavedQueue(s, last, batch);
    GroupsAreThin(saved.queue, RecentWrites(saved.written), p);
  }

  lemma SubQueueIsSound(s: Store, queue: seq<Key>)
    requires Sound(s) && multiset(queue) <= multiset(s.queue)
    ensures Sound(s.(queue := queue))
  {
    hide IsGenesis;
    forall k | k in queue ensures k in s.queue && multiset(queue)[k] == 1 {
      assert k in multiset(queue);
      assert multiset(queue)[k] <= multiset(s.queue)[k];
    }
  }

  // ---------- picking up a state ----------

  function StorageValue(v: View): Key -> real {
    (k: Key) => Value(v, 0, k)
  }

  function Numbered(keys: seq<Key>): seq<Candidate> {
    seq(|keys|, i requires 0 <= i < |keys| => (i, keys[i]))
  }

  /** The candidates with the first storage value lead all others. */
  lemma FirstStage(v: View, order: seq<Key>, cands: seq<Candidate>)
    requires order != [] && Descending(order, StorageValue(v))
    requires forall i, k :: (i, k) in cands <==> 0 <= i < |order| && order[i] == k && Value(v, 0, k) == Value(v, 0, order[0])
    ensures Leading(v, 1, Numbered(order), cands)
  {
    hide Value;
    var all := Numbered(order);
    assert (0, order[0]) in cands;
    forall d | d in all ensures Value(v, 0, d.1) <= Value(v, 0, order[0]) {
      assert d.0 == 0 || StorageValue(v)(order[0]) >= StorageValue(v)(order[d.0]);
    }
    forall c ensures c in cands <==> c in all && Top(v, 0, all, c) {
      var (i, k) := c;
      if c in all && Top(v, 0, all, c) {
        assert all[0] == (0, order[0]);
        assert all[0] in all;
      }
      if c in cands {
        assert c == all[i];
      }
    }
    assert Leading(v, 0, all, all);
    BestLeads(v, 0, all, all, cands);
  }

  /** Taking position `i` out of a permutation of a list. */
  lemma TakeOut(order: seq<Key>, i: nat)
    requires i < |order|
    ensures multiset(order) == multiset(order[..i] + order[i + 1..]) + multiset{order[i]}
  {
    assert order == order[..i] + [order[i]] + order[i + 1..];
  }

  lemma AtMostItself(v: View, k: Key)
    ensures AtMostAs(v, k, k)
  {
    assert Tied(v, 5, k, k);
  }

  lemma SoundKeys(s: Store)
    requires Sound(s)
    ensures forall k :: k in s.queue ==> k in s.stateStorage && k.functions != []
  {
  }

  lemma AllNumbered(order: seq<Key>, queue: seq<Key>)
    requires multiset(order) == multiset(queue)
    ensures forall k :: k in queue ==> exists i :: 0 <= i < |order| && Numbered(order)[i] == (i, k)
    ensures forall k :: k in order <==> k in queue
    ensures |order| == |queue|
  {
    assert |multiset(order)| == |multiset(queue)|;
    forall k ensures k in order <==> k in queue {
      assert k in order <==> k in multiset(order);
      assert k in queue <==> k in multiset(queue);
    }
    forall k | k in queue ensures exists i :: 0 <= i < |order| && Numbered(order)[i] == (i, k) {
      assert k in order;
      var i :| 0 <= i < |order| && order[i] == k;
      assert Numbered(order)[i] == (i, k);
    }
  }

  /** The keys of a sorted list of pairs, and the positions of those that tie with the first. */
  method Order(sorted: seq<(Key, real)>) returns (keys: seq<Key>, cands: seq<Candidate>)
    ensures |keys| == |sorted| && forall i :: 0 <= i < |keys| ==> keys[i] == sorted[i].0
    ensures forall i, k :: (i, k) in cands <==> 0 <= i < |keys| && keys[i] == k && sorted[i].1 == sorted[0].1
  {
    keys, cands := [], [];
    for j := 0 to |sorted|
      invariant |keys| == j && forall i :: 0 <= i < j ==> keys[i] == sorted[i].0
      invariant forall i, k :: (i, k) in cands <==> 0 <= i < j && keys[i] == k && sorted[i].1 == sorted[0].1
    {
      keys := keys + [sorted[j].0];
      if sorted[j].1 == sorted[0].1 {
        cands := cands + [(j, sorted[j].0)];
      }
    }
  }

  /** The sorted queue and the position in it of a state with the largest values. */
  method Choose(v: View, ghost queue: seq<Key>, sorted: seq<(Key, real)>, random: nat) returns (order: seq<Key>, win: nat)
    requires queue != [] && sorted == Scored(SortDown(queue, StorageValue(v)), StorageValue(v))
    requires forall k :: k in queue ==> k.functions != []
    ensures multiset(order) == multiset(queue) && win < |order|
    ensures forall d :: d in queue ==> AtMostAs(v, d, order[win])
  {
    hide Value, SortDown, Leading, AtMostAs;
    ghost var expected := SortDown(queue, StorageValue(v));
    ScoredAt(expected, StorageValue(v));
    SortDownSorts(queue, StorageValue(v));
    AllNumbered(expected, queue);
    var cands;
    order, cands := Order(sorted);
    assert order == expected;
    FirstStage(v, order, cands);
    LeadersExist(v, 1, Numbered(order), cands);
    var winner := (0, order[0]);
    if |cands| == 1 {
      assert winner in cands;
      Maximum(v, 1, Numbered(order), cands, winner);
    } else {
      winner := BreakATie(v, Numbered(order), cands, random);
    }
    win := winner.0;
  }

  lemma {:induction false} KeepSingle(keys: seq<Key>, writes: Writes)
    requires |keys| == 1
    ensures Keep(keys, writes) == keys
  {
    assert keys[1..] == [] && [keys[0]] == keys;
    assert SortDown(keys[1..], Size(writes)) == [];
    assert SortDown(keys, Size(writes)) == keys;
    assert Thin(keys[1..], writes, 2, writes(keys[0])) == [];
  }

  lemma Regroup(a: seq<Key>, b: seq<Key>, c: seq<Key>)
    ensures a + (b + c) == (a + b) + c
  {
  }

  lemma NothingLeft(s: seq<Key>, writes: Writes, free: nat, current: seq<Slot>)
    ensures Thin(s[|s|..], writes, free, current) == []
  {
  }

  function Free(i: nat): nat {
    if i < 3 then 3 - i else 0
  }

  lemma ThinStep(s: seq<Key>, writes: Writes, i: nat, current: seq<Slot>)
    requires i < |s|
    ensures Thin(s[i..], writes, Free(i), current)
         == if i <= 2 || !SameSlots(current, writes(s[i])) then [s[i]] + Thin(s[i + 1..], writes, Free(i + 1), writes(s[i]))
            else Thin(s[i + 1..], writes, Free(i + 1), current)
  {
    assert s[i..][1..] == s[i + 1..];
  }

  // ---------- the strategy ----------

  /** `c` is among the functions executed on a state. */
  ghost predicate Executable(a: FunctionAssignment, key: Key, dk: seq<Coverage>, c: Function)
    requires key.functions != []
    requires forall i :: 0 <= i < |dk| ==> dk[i].0 in a.assignmentTimes
    requires forall u :: u in a.dkNotReachable ==> u in a.assignmentTimes
    reads a`assignmentTimes
  {
    if a.IsFallbackCase(key) then c == "original_instruction_list" else a.Chosen(key, dk, [], c)
  }

  /** No function is executed on a state. */
  ghost predicate Idle(a: FunctionAssignment, key: Key, dk: seq<Coverage>)
    requires Budgeted(a, dk)
    reads a`assignmentTimes
  {
    key.functions != [] && forall c :: !Executable(a, key, dk, c)
  }

  ghost predicate Budgeted(a: FunctionAssignment, dk: seq<Coverage>)
    reads a`assignmentTimes
  {
    && (forall i :: 0 <= i < |dk| ==> dk[i].0 in a.assignmentTimes)
    && (forall u :: u in a.dkNotReachable ==> u in a.assignmentTimes)
  }

  /** The only state of a single start function is executed with all functions. */
  ghost predicate TookOnly(before: seq<Key>, after: seq<Key>, r: Assignment, allFunctions: seq<Function>) {
    if before == [] then after == [] && r == NoState
    else after == before[1..] && r == Assigned(before[0], if allFunctions == [] then ["original_instruction_list"] else allFunctions)
  }

  /** The key leaves the queue, together with keys without functions to execute; no key that stays is ahead
      of it. Without a key the queue is empty. */
  ghost predicate TookBest(v: View, before: seq<Key>, after: seq<Key>, r: Assignment) {
    match r
    case Assigned(key, _) =>
      && multiset(after) + multiset{key} <= multiset(before)
      && forall k :: k in after ==> AtMostAs(v, k, key)
    case Nothing => after == []
    case NoState => false
  }

  /** Every function handed out is counted, but for the name that stands for the original code. */
  ghost predicate Counted(before: map<Function, nat>, after: map<Function, nat>, r: Assignment) {
    if r.Assigned? then CountedEach(before, after, r.functions) || (after == before && r.functions == ["original_instruction_list"])
    else after == before
  }

  lemma TakenKey(s: Store, rest: seq<Key>, key: Key)
    requires Sound(s) && multiset(s.queue) == multiset(rest) + multiset{key}
    ensures Sound(s.(queue := rest)) && |s.queue| == |rest| + 1
    ensures key in s.queue && key.functions != [] && key !in rest
    ensures forall k :: k in s.queue <==> k in rest || k == key
  {
    hide IsGenesis;
    SubQueueIsSound(s, rest);
    assert key in multiset(s.queue);
    assert |multiset(s.queue)| == |multiset(rest)| + 1;
    assert multiset(s.queue)[key] == multiset(rest)[key] + 1;
    forall k ensures k in s.queue <==> k in rest || k == key {
      assert k in s.queue <==> k in multiset(s.queue);
      assert k in rest <==> k in multiset(rest);
    }
  }

  lemma RestIsSound(s: Store, rest: seq<Key>, key: Key)
    requires Sound(s) && s.queue == [key] + rest
    ensures Sound(s.(queue := rest))
  {
    hide IsGenesis;
    assert multiset(s.queue) == multiset{key} + multiset(rest);
    SubQueueIsSound(s, rest);
  }

  class Mine {
    const assignment: FunctionAssignment
    const conditionReads: map<Function, seq<Slot>>
    var queue: seq<Key>
    var worldStates: map<Key, WorldState>
    var stateStorage: map<Key, seq<Slot>>
    var written: Written
    var last: Option<Key>
    var oneStart: bool

    constructor (assignment: FunctionAssignment, conditionReads: map<Function, seq<Slot>>, oneStart: bool)
      ensures this.assignment == assignment && this.conditionReads == conditionReads && this.oneStart == oneStart
      ensures Contents() == Store([], map[], map[], map[]) && last == None && Valid()
    {
      this.assignment, this.conditionReads, this.oneStart := assignment, conditionReads, oneStart;
      queue, worldStates, stateStorage, written, last := [], map[], map[], map[], None;
    }

    ghost function Contents(): Store
      reads this`queue, this`worldStates, this`stateStorage, this`written
    {
      Store(queue, worldStates, stateStorage, written)
    }

    ghost predicate Valid()
      reads this`queue, this`worldStates, this`stateStorage, this`written
    {
      Sound(Contents())
    }

    function ViewOf(targets: seq<Function>): View
      reads this`stateStorage, this`written
    {
      View(stateStorage, written, conditionReads, assignment.augmented, targets)
    }

    /** Forgets a state that is about to be executed. */
    method DeleteState(key: Key)
      requires Valid() && key !in queue
      modifies this`worldStates
      ensures Valid() && worldStates == old(worldStates) - {key}
    {
      if key in worldStates {
        worldStates := worldStates - {key};
      }
    }

    /** Saves new states under their keys, with the writes of their parent and their own. */
    method UpdateStates(batch: seq<(Key, WorldState)>)
      modifies this`queue, this`worldStates, this`stateStorage, this`written
      ensures Contents() == SavedAll(old(Contents()), last, batch)
    {
      for i := 0 to |batch|
        invariant Contents() == SavedAll(old(Contents()), last, batch[..i])
      {
        assert batch[..i + 1][..i] == batch[..i];
        var (key, state) := batch[i];
        stateStorage := stateStorage[key := state.storage];
        if !IsGenesis(key) {
          worldStates := worldStates[key := state];
          queue := queue + [key];
          var all := if last.Some? then WrittenAt(written, last.value) else map[];
          all := all[|key.functions| := LastWrites(key, state)];
          written := written[key := all];
        } else if key !in written {
          written := written[key := map[0 := state.storage]];
        }
      }
      assert batch[..|batch|] == batch;
    }

    /** Groups the queue by executed functions and thins every group. */
    method FilterStates()
      modifies this`queue
      ensures queue == Filtered(old(queue), RecentWrites(written))
    {
      hide Excluded, AddKey, Keep;
      var buckets: seq<Bucket> := [];
      for i := 0 to |queue|
        invariant buckets == Buckets(queue[..i]) && queue == old(queue)
      {
        assert queue[..i + 1][..i] == queue[..i];
        if Excluded(Prefix(queue[i])) {
          continue;
        }
        buckets := AddKey(buckets, queue[i]);
      }
      assert queue[..|queue|] == queue;
      queue := [];
      var writes := RecentWrites(written);
      for i := 0 to |buckets|
        invariant queue == KeepAll(buckets[..i], writes)
      {
        assert buckets[..i + 1][..i] == buckets[..i];
        var kept := ThinGroup(buckets[i].keys);
        queue := queue + kept;
      }
      assert buckets[..|buckets|] == buckets;
    }

    /** Keeps the three states with most last writes, and after them those that write differently. */
    method ThinGroup(keys: seq<Key>) returns (kept: seq<Key>)
      ensures kept == Keep(keys, RecentWrites(written))
    {
      hide Thin, SortDown, SameSlots;
      var writes := RecentWrites(written);
      if |keys| == 1 {
        KeepSingle(keys, writes);
        return keys;
      }
      var sorted := SortDown(keys, Size(writes));
      kept := [];
      var current: seq<Slot> := [];
      for i := 0 to |sorted|
        invariant Keep(keys, writes) == kept + Thin(sorted[i..], writes, Free(i), current)
      {
        ThinStep(sorted, writes, i, current);
        if i <= 2 || !SameSlots(current, writes(sorted[i])) {
          Regroup(kept, [sorted[i]], Thin(sorted[i + 1..], writes, Free(i + 1), writes(sorted[i])));
          kept := kept + [sorted[i]];
          current := writes(sorted[i]);
        }
      }
      NothingLeft(sorted, writes, Free(|sorted|), current);
    }

    /** Takes the state with the lexicographically largest values out of the queue. */
    method PickUpAState(targets: seq<Function>, random: nat) returns (key: Key)
      requires queue != [] && Valid()
      modifies this`queue
      ensures multiset(old(queue)) == multiset(queue) + multiset{key}
      ensures forall d :: d in old(queue) ==> AtMostAs(ViewOf(targets), d, key)
    {
      hide Value, AtMostAs, Sound, Scored, SortDown, StorageValue;
      var v := ViewOf(targets);
      SoundKeys(Contents());
      if |queue| == 1 {
        key := queue[0];
        AtMostItself(v, key);
        queue := queue[1..];
        return;
      }
      var scored := EvaluateAll(v);
      var sorted := SortPairs(queue, scored, StorageValue(v));
      var win;
      queue, win := Choose(v, queue, sorted, random);
      TakeOut(queue, win);
      key := queue[win];
      queue := queue[..win] + queue[win + 1..];
    }

    /** One state of the queue and the functions to execute on it. */
    method AssignStates(dk: seq<Coverage>, batch: seq<(Key, WorldState)>, random: nat -> nat) returns (r: Assignment)
      requires Valid() && Fresh(Contents(), batch) && Budgeted(assignment, dk)
      modifies this`queue, this`worldStates, this`stateStorage, this`written, this`last, this`oneStart, assignment`assignmentTimes
      ensures Valid() && Budgeted(assignment, dk)
      ensures r == NoState <==> dk != [] && old(oneStart) && old(Queued(Contents(), last, batch)) == []
      ensures r == Nothing ==> dk == [] || (!old(oneStart) && queue == [])
      ensures dk == [] ==> r == Nothing && Contents() == old(Contents()) && last == old(last) && oneStart == old(oneStart)
      ensures dk != [] ==> Contents() == SavedAll(old(Contents()), old(last), batch).(queue := queue) && !oneStart
      ensures dk != [] && old(oneStart) ==> TookOnly(old(Queued(Contents(), last, batch)), queue, r, assignment.allFunctions)
      ensures dk != [] && !old(oneStart) ==> TookBest(ViewOf(TargetsOf(dk)), old(Queued(Contents(), last, batch)), queue, r)
      ensures dk != [] && !old(oneStart) && r.Assigned? ==>
        r.key.functions != [] && r.functions != [] && forall c :: c in r.functions <==> old(Executable(assignment, r.key, dk, c))
      ensures dk != [] && !old(oneStart) ==>
        forall k :: k in old(Queued(Contents(), last, batch)) && k !in queue && !(r.Assigned? && r.key == k) ==>
          old(Idle(assignment, k, dk))
      ensures last == if r.Assigned? then Some(r.key) else old(last)
      ensures Counted(old(assignment.assignmentTimes), assignment.assignmentTimes, r)
      ensures r.Assigned? && assignment.Unrepeated() && (old(oneStart) ==> Simple(assignment.allFunctions)) ==> Simple(r.functions)
    {
      hide Sound, Executable, SavedAll, Queued, TookBest, ViewOf, Idle, CountedEach, Simple;
      OneIsSimple("original_instruction_list");
      if |dk| == 0 {
        return Nothing;
      }
      TakeIn(batch);
      if oneStart {
        oneStart := false;
        if |queue| == 0 {
          return NoState;
        }
        var key := queue[0];
        RestIsSound(Contents(), queue[1..], key);
        queue := queue[1..];
        var functions := assignment.AssignAllFunctions();
        last := Some(key);
        return Assigned(key, functions);
      }
      r := AssignBest(dk, random);
    }

    /** Saves new states and thins the queue. */
    method TakeIn(batch: seq<(Key, WorldState)>)
      requires Valid() && Fresh(Contents(), batch)
      modifies this`queue, this`worldStates, this`stateStorage, this`written
      ensures Valid()
      ensures Contents() == SavedAll(old(Contents()), last, batch).(queue := queue) && queue == Queued(old(Contents()), last, batch)
    {
      hide Filtered, Sound;
      QueuedIsSound(Contents(), last, batch);
      if |batch| > 0 {
        UpdateStates(batch);
        FilterStates();
      }
    }

    /** Picks up states until one has functions to execute. */
    method AssignBest(dk: seq<Coverage>, random: nat -> nat) returns (r: Assignment)
      requires Valid() && Budgeted(assignment, dk)
      modifies this`queue, this`last, assignment`assignmentTimes
      ensures Valid() && Budgeted(assignment, dk) && r != NoState && (r == Nothing ==> queue == [])
      ensures TookBest(ViewOf(TargetsOf(dk)), old(queue), queue, r)
      ensures r.Assigned? ==> r.key.functions != [] && r.functions != [] && forall c :: c in r.functions <==> old(Executable(assignment, r.key, dk, c))
      ensures forall k :: k in old(queue) && k !in queue && !(r.Assigned? && r.key == k) ==>
          old(Idle(assignment, k, dk))
      ensures last == if r.Assigned? then Some(r.key) else old(last)
      ensures Counted(old(assignment.assignmentTimes), assignment.assignmentTimes, r)
      ensures r.Assigned? && assignment.Unrepeated() ==> Simple(r.functions)
    {
      hide Sound, AtMostAs, Simple, CountedEach, Executable, Idle;
      var targets := Targets(dk);
      var round := 0;
      while true
        invariant Valid() && assignment.assignmentTimes == old(assignment.assignmentTimes) && last == old(last)
        invariant multiset(queue) <= multiset(old(queue))
        invariant forall k :: k in old(queue) && k !in queue ==> old(Idle(assignment, k, dk))
        decreases |queue|
      {
        if |queue| == 0 {
          return Nothing;
        }
        ghost var before := Contents();
        var key := PickUpAState(targets, random(round));
        TakenKey(before, queue, key);
        round := round + 1;
        var functions := FunctionsFor(key, dk);
        if |functions| > 0 {
          last := Some(key);
          return Assigned(key, functions);
        }
      }
    }

    /** What is executed on one state; nothing is counted for a state without functions to execute. */
    method FunctionsFor(key: Key, dk: seq<Coverage>) returns (functions: seq<Function>)
      requires key.functions != [] && Budgeted(assignment, dk)
      modifies assignment`assignmentTimes
      ensures Budgeted(assignment, dk)
      ensures forall c :: c in functions <==> old(Executable(assignment, key, dk, c))
      ensures functions == [] ==> assignment.assignmentTimes == old(assignment.assignmentTimes) && old(Idle(assignment, key, dk))
      ensures Counted(old(assignment.assignmentTimes), assignment.assignmentTimes, Assigned(key, functions))
      ensures assignment.Unrepeated() ==> Simple(functions)
    {
      hide Simple;
      functions := assignment.AssignFunctions(key, dk, [], []);
    }

    method Targets(dk: seq<Coverage>) returns (targets: seq<Function>)
      ensures targets == TargetsOf(dk)
    {
      targets := [];
      for i := 0 to |dk|
        invariant targets == TargetsOf(dk[..i])
      {
        assert dk[..i + 1][..i] == dk[..i];
        targets := targets + [dk[i].0];
      }
      assert dk[..|dk|] == dk;
    }

    method EvaluateAll(v: View) returns (scored: seq<(Key, real)>)
      requires v == ViewOf(v.targets) && forall k :: k in queue ==> k in stateStorage
      ensures |scored| == |queue| && forall i :: 0 <= i < |queue| ==> scored[i] == (queue[i], StorageValue(v)(queue[i]))
    {
      scored := [];
      for j := 0 to |queue|
        invariant |scored| == j && forall i :: 0 <= i < j ==> scored[i] == (queue[i], StorageValue(v)(queue[i]))
      {
        var value := Evaluate(conditionReads, v.targets, stateStorage[queue[j]]);
        scored := scored + [(queue[j], value)];
      }
    }
  }
}
