/** Keccak as uninterpreted functions, one per input size, and the conditions that constrain them. */
module Keccak {
  import opened Intervals

  // ---------- terms, conditions and their meaning ----------

  /** Bit-vector terms. `App` stands for any other operation; `Hash` applies keccak to its argument. */
  datatype Term =
    | Val(value: nat, width: nat)
    | Sym(id: nat, width: nat)
    | App(op: nat, left: Term, right: Term, width: nat)
    | Hash(arg: Term)

  function Size(t: Term): nat {
    if t.Hash? then 256 else t.width
  }

  datatype Cond =
    | True
    | False
    | And(a: Cond, b: Cond)
    | Or(a: Cond, b: Cond)
    | Inverse(t: Term)                  // the inverse of t's hash is t
    | AtLeast(bound: nat, t: Term)      // t's hash is not below the bound
    | Below(t: Term, bound: nat)        // t's hash is below the bound
    | Multiple64(t: Term)               // t's hash is a multiple of 64
    | HashIs(t: Term, value: nat)       // t's hash is the value
    | Same(t: Term, u: Term)

  /** Values of the symbols and meanings of the other operations. */
  datatype Valuation = Valuation(symbols: nat -> nat, ops: (nat, nat, nat) -> nat)

  /** Hashes by (size, input), and inputs by (size, hash). */
  type Table = map<(nat, nat), nat>

  function Look(f: Table, size: nat, x: nat): nat {
    if (size, x) in f then f[(size, x)] else 0
  }

  function Eval(t: Term, rho: Valuation, f: Table): nat {
    match t
    case Val(v, _) => v
    case Sym(id, _) => rho.symbols(id)
    case App(op, l, r, _) => rho.ops(op, Eval(l, rho, f), Eval(r, rho, f))
    case Hash(a) => Look(f, Size(a), Eval(a, rho, f))
  }

  datatype Interp = Interp(rho: Valuation, f: Table, g: Table)

  function HashOf(t: Term, m: Interp): nat {
    Look(m.f, Size(t), Eval(t, m.rho, m.f))
  }

  predicate Holds(c: Cond, m: Interp) {
    match c
    case True => true
    case False => false
    case And(a, b) => Holds(a, m) && Holds(b, m)
    case Or(a, b) => Holds(a, m) || Holds(b, m)
    case Inverse(t) => Look(m.g, Size(t), HashOf(t, m)) == Eval(t, m.rho, m.f)
    case AtLeast(bound, t) => bound <= HashOf(t, m)
    case Below(t, bound) => HashOf(t, m) < bound
    case Multiple64(t) => HashOf(t, m) % 64 == 0
    case HashIs(t, v) => HashOf(t, m) == v
    case Same(t, u) => Eval(t, m.rho, m.f) == Eval(u, m.rho, m.f)
  }

  // ---------- what the conditions demand ----------

  type Hook = map<nat, int>

  predicate InInterval(index: int, h: nat) {
    Low(index) % TT256 <= h < High(index) % TT256 && h % 64 == 0
  }

  /** The demand on a symbolic input: its hash can be inverted, and lies in the interval of its size
      unless the input equals a concrete one. */
  ghost predicate InputOk(t: Term, hook: Hook, concrete: map<Term, nat>, m: Interp) {
    && Size(t) in hook
    && Holds(Inverse(t), m)
    && (InInterval(hook[Size(t)], HashOf(t, m)) || Matches(t, concrete, concrete.Keys, m))
  }

  ghost predicate Matches(t: Term, concrete: map<Term, nat>, keys: set<Term>, m: Interp)
    requires keys <= concrete.Keys
  {
    exists k :: k in keys && Size(k) == Size(t) && HashOf(t, m) == concrete[k] && Eval(k, m.rho, m.f) == Eval(t, m.rho, m.f)
  }

  ghost predicate ConcreteOk(k: Term, hash: nat, m: Interp) {
    HashOf(k, m) == hash && Holds(Inverse(k), m)
  }

  ghost predicate IsInput(inputs: map<nat, seq<Term>>, t: Term) {
    exists n :: n in inputs && t in inputs[n]
  }

  /** Everything that the conditions demand of an interpretation. */
  ghost predicate Demanded(inputs: map<nat, seq<Term>>, hook: Hook, concrete: map<Term, nat>, m: Interp) {
    && (forall t :: IsInput(inputs, t) ==> InputOk(t, hook, concrete, m))
    && (forall k :: k in concrete ==> ConcreteOk(k, concrete[k], m))
  }

  // ---------- intervals in use ----------

  /** Different sizes own different intervals, all among the first `n` that were handed out. */
  ghost predicate Allocated(hook: Hook, n: nat) {
    && (forall s :: s in hook ==> exists k :: 0 <= k < n && hook[s] == IndexAt(k))
    && (forall s, t :: s in hook && t in hook && s != t ==> hook[s] != hook[t])
  }

  lemma AllocatedLonger(hook: Hook, n: nat, m: nat)
    requires Allocated(hook, n) && n <= m
    ensures Allocated(hook, m)
  {
    hide IndexAt;
    forall s | s in hook ensures exists k :: 0 <= k < m && hook[s] == IndexAt(k) {
      var k :| 0 <= k < n && hook[s] == IndexAt(k);
    }
  }

  lemma AllocatedOne(hook: Hook, n: nat, size: nat)
    requires Allocated(hook, n) && size !in hook
    ensures Allocated(hook[size := IndexAt(n)], n + 1)
  {
    AllocatedLonger(hook, n, n + 1);
    forall s | s in hook ensures hook[s] != IndexAt(n) {
      var k :| 0 <= k < n && hook[s] == IndexAt(k);
    }
  }

  /** The intervals of two sizes never meet, and none wraps around. */
  lemma IntervalsOfSizes(hook: Hook, n: nat, s: nat, t: nat)
    requires Allocated(hook, n) && n <= MAX_ALLOCATIONS && s in hook && t in hook && s != t
    ensures 0 <= Low(hook[s]) < High(hook[s]) < TT256
    ensures High(hook[s]) <= Low(hook[t]) || High(hook[t]) <= Low(hook[s])
  {
    hide IndexAt;
    var k :| 0 <= k < n && hook[s] == IndexAt(k);
    var l :| 0 <= l < n && hook[t] == IndexAt(l);
    IndexInRange(k);
    IntervalFits(hook[s]);
    if k < l {
      IntervalsDisjoint(k, l);
    } else {
      IntervalsDisjoint(l, k);
    }
  }

  /** `hook1` adds intervals to `hook0`, one for each allocation, for sizes of recorded inputs. */
  ghost predicate GrownFrom(hook0: Hook, n0: nat, hook1: Hook, n1: nat, sizes: set<nat>) {
    && n0 <= n1 && n1 - n0 == |hook1| - |hook0|
    && (forall s :: s in hook0 ==> s in hook1 && hook1[s] == hook0[s])
    && (forall s :: s in hook1 && s !in hook0 ==> s in sizes)
  }

  lemma GrownSame(hook: Hook, n: nat, sizes: set<nat>)
    ensures GrownFrom(hook, n, hook, n, sizes)
  {
  }

  lemma GrownTrans(hook0: Hook, n0: nat, hook1: Hook, n1: nat, hook2: Hook, n2: nat, sizes: set<nat>)
    requires GrownFrom(hook0, n0, hook1, n1, sizes) && GrownFrom(hook1, n1, hook2, n2, sizes)
    ensures GrownFrom(hook0, n0, hook2, n2, sizes)
  {
  }

  class KeccakFunctionManager {
    const keccak: (nat, nat) -> nat
    var storeFunction: set<nat>
    var intervalHookForSize: Hook
    var indexCounter: int
    var hashResultStore: map<nat, seq<Term>>
    var concreteHashes: map<Term, nat>
    var symbolicInputs: map<nat, seq<Term>>
    ghost var allocations: nat

    ghost predicate Valid()
      reads this
    {
      && indexCounter == IndexAt(allocations)
      && Allocated(intervalHookForSize, allocations)
      && hashResultStore.Keys == storeFunction
      && Consistent(concreteHashes, symbolicInputs)
    }

    /** Concrete inputs carry their real hash; symbolic inputs are filed under their size. */
    ghost predicate Consistent(concrete: map<Term, nat>, inputs: map<nat, seq<Term>>) {
      && (forall k :: k in concrete ==> k.Val? && concrete[k] == keccak(k.value, k.width))
      && (forall n, t :: n in inputs && t in inputs[n] ==> Size(t) == n && !t.Val?)
    }

    constructor (keccak: (nat, nat) -> nat)
      ensures this.keccak == keccak && Valid() && allocations == 0
      ensures intervalHookForSize == map[] && concreteHashes == map[] && symbolicInputs == map[]
    {
      this.keccak := keccak;
      storeFunction, intervalHookForSize, indexCounter := {}, map[], FIRST_INDEX;
      hashResultStore, concreteHashes, symbolicInputs := map[], map[], map[];
      allocations := 0;
    }

    /** Forgets everything but the index counter. */
    method Reset()
      requires Valid()
      modifies this
      ensures Valid() && allocations == old(allocations) && indexCounter == old(indexCounter)
      ensures storeFunction == {} && intervalHookForSize == map[] && concreteHashes == map[] && symbolicInputs == map[]
    {
      storeFunction, intervalHookForSize := {}, map[];
      hashResultStore, concreteHashes, symbolicInputs := map[], map[], map[];
    }

    /** Takes over the data of another manager, but never its index counter. The other manager is an
        earlier copy of this one, so it cannot have handed out more intervals. */
    method SetData(data: KeccakFunctionManager)
      requires Valid() && data.Valid() && data != this
      requires data.keccak == keccak && data.allocations <= allocations
      modifies this
      ensures Valid() && allocations == old(allocations) && indexCounter == old(indexCounter)
      ensures storeFunction == data.storeFunction && intervalHookForSize == data.intervalHookForSize
      ensures hashResultStore == data.hashResultStore
      ensures concreteHashes == data.concreteHashes && symbolicInputs == data.symbolicInputs
    {
      storeFunction, intervalHookForSize := data.storeFunction, data.intervalHookForSize;
      hashResultStore, concreteHashes, symbolicInputs := data.hashResultStore, data.concreteHashes, data.symbolicInputs;
      AllocatedLonger(intervalHookForSize, data.allocations, allocations);
    }

    /** Makes sure that there is a function for inputs of this size. */
    method GetFunction(length: nat)
      requires Valid()
      modifies this`storeFunction, this`hashResultStore
      ensures Valid() && storeFunction == old(storeFunction) + {length}
      ensures hashResultStore == if length in old(storeFunction) then old(hashResultStore) else old(hashResultStore)[length := []]
    {
      if length !in storeFunction {
        storeFunction := storeFunction + {length};
        hashResultStore := hashResultStore[length := []];
      }
    }

    lemma HashedIsConsistent(concrete: map<Term, nat>, inputs: map<nat, seq<Term>>, data: Term)
      requires Consistent(concrete, inputs) && data.Val?
      ensures Consistent(concrete[data := keccak(data.value, data.width)], inputs)
    {
    }

    lemma FiledIsConsistent(concrete: map<Term, nat>, inputs: map<nat, seq<Term>>, data: Term)
      requires Consistent(concrete, inputs) && !data.Val?
      ensures Consistent(concrete, Filed(inputs, Size(data), data))
    {
    }

    /** The keccak of concrete data is computed; symbolic data is recorded as an input. */
    method CreateKeccak(data: Term) returns (r: Term)
      requires Valid()
      modifies this`storeFunction, this`hashResultStore, this`concreteHashes, this`symbolicInputs
      ensures Valid()
      ensures data.Val? ==>
        && r == Val(keccak(data.value, data.width), 256)
        && concreteHashes == old(concreteHashes)[data := r.value] && symbolicInputs == old(symbolicInputs)
      ensures !data.Val? ==>
        && r == Hash(data)
        && concreteHashes == old(concreteHashes)
        && symbolicInputs == Filed(old(symbolicInputs), Size(data), data)
        && hashResultStore == Filed(old(hashResultStore), Size(data), r)
        && (forall t :: IsInput(symbolicInputs, t) <==> IsInput(old(symbolicInputs), t) || t == data)
    {
      hide Allocated, IndexAt, IsInput, Consistent;
      var length := Size(data);
      GetFunction(length);
      if data.Val? {
        var concreteHash := keccak(data.value, data.width);
        HashedIsConsistent(concreteHashes, symbolicInputs, data);
        concreteHashes := concreteHashes[data := concreteHash];
        return Val(concreteHash, 256);
      }
      if length !in symbolicInputs {
        symbolicInputs := symbolicInputs[length := []];
      }
      InputAdded(old(symbolicInputs), length, data);
      FiledIsConsistent(concreteHashes, old(symbolicInputs), data);
      symbolicInputs := symbolicInputs[length := symbolicInputs[length] + [data]];
      assert symbolicInputs == Filed(old(symbolicInputs), length, data);
      hashResultStore := hashResultStore[length := hashResultStore[length] + [Hash(data)]];
      assert hashResultStore == Filed(old(hashResultStore), length, Hash(data));
      return Hash(data);
    }

    /** The conjunction of the demands on all inputs. Intervals are handed out to new sizes on the way. */
    method CreateConditions() returns (condition: Cond)
      requires Valid()
      modifies this`storeFunction, this`hashResultStore, this`intervalHookForSize, this`indexCounter, this`allocations
      ensures Valid()
      ensures old(allocations) <= allocations && allocations - old(allocations) == |intervalHookForSize| - |old(intervalHookForSize)|
      ensures forall s :: s in old(intervalHookForSize) ==> s in intervalHookForSize && intervalHookForSize[s] == old(intervalHookForSize)[s]
      ensures forall s :: s in intervalHookForSize && s !in old(intervalHookForSize) ==> s in symbolicInputs
      ensures forall t :: IsInput(symbolicInputs, t) ==> Size(t) in intervalHookForSize
      ensures forall m :: Holds(condition, m) <==> Demanded(symbolicInputs, intervalHookForSize, concreteHashes, m)
    {
      hide Holds, InputOk, ConcreteOk, Allocated, IndexAt, Consistent;
      condition := SymbolicConditions();
      condition := ConcreteConditions(condition);
      forall m ensures Holds(condition, m) <==> Demanded(symbolicInputs, intervalHookForSize, concreteHashes, m) {
        assert RowsOk({}, m) <==> forall t :: IsInput(symbolicInputs, t) ==> InputOk(t, intervalHookForSize, concreteHashes, m);
      }
    }

    /** The first loop: the demands on all symbolic inputs. */
    method SymbolicConditions() returns (condition: Cond)
      requires Valid()
      modifies this`storeFunction, this`hashResultStore, this`intervalHookForSize, this`indexCounter, this`allocations
      ensures Valid() && Grown(old(intervalHookForSize), old(allocations))
      ensures Hooked({})
      ensures forall m :: Holds(condition, m) <==> RowsOk({}, m)
    {
      hide Holds, InputOk, Allocated, IndexAt, Consistent;
      condition := True;
      var sizes := symbolicInputs.Keys;
      TrueHolds();
      while sizes != {}
        invariant sizes <= symbolicInputs.Keys && Valid()
        invariant Grown(old(intervalHookForSize), old(allocations))
        invariant forall m :: Holds(condition, m) <==> RowsOk(sizes, m)
        invariant Hooked(sizes)
      {
        var n :| n in sizes;
        ghost var hook0 := intervalHookForSize;
        ghost var condition0 := condition;
        label before:
        condition := AddRow(n, condition);
        forall m ensures RowsOk(sizes - {n}, m) <==> old@before(RowsOk(sizes, m)) && RowOk(n, |symbolicInputs[n]|, m) {
          RowsStay(hook0, sizes, n, m);
        }
        sizes := sizes - {n};
      }
    }

    /** The second loop: the hashes of concrete inputs and their inverses. */
    method ConcreteConditions(symbolic: Cond) returns (condition: Cond)
      requires Valid()
      modifies this`storeFunction, this`hashResultStore
      ensures Valid()
      ensures forall m :: Holds(condition, m) <==> Holds(symbolic, m) && forall k :: k in concreteHashes ==> ConcreteOk(k, concreteHashes[k], m)
    {
      hide Holds, ConcreteOk, Allocated, IndexAt, Consistent;
      condition := symbolic;
      var keys := concreteHashes.Keys;
      while keys != {}
        invariant keys <= concreteHashes.Keys && Valid()
        invariant forall m :: Holds(condition, m) <==> Holds(symbolic, m) && forall k :: k in concreteHashes && k !in keys ==> ConcreteOk(k, concreteHashes[k], m)
      {
        var k :| k in keys;
        GetFunction(Size(k));
        condition := ConjoinConcrete(condition, k, concreteHashes[k]);
        keys := keys - {k};
      }
    }

    /** Outside `sizes` every input has an interval. */
    ghost predicate Hooked(sizes: set<nat>)
      reads this`symbolicInputs, this`intervalHookForSize
    {
      forall n, t :: n in symbolicInputs && n !in sizes && t in symbolicInputs[n] ==> Size(t) in intervalHookForSize
    }

    /** Intervals are only ever added, for sizes of recorded inputs. */
    ghost predicate Grown(hook0: Hook, n0: nat)
      reads this`allocations, this`intervalHookForSize, this`symbolicInputs
    {
      GrownFrom(hook0, n0, intervalHookForSize, allocations, symbolicInputs.Keys)
    }

    ghost predicate RowsOk(sizes: set<nat>, m: Interp)
      reads this`intervalHookForSize, this`symbolicInputs, this`concreteHashes
    {
      RowsOkWith(sizes, intervalHookForSize, m)
    }

    ghost predicate RowsOkWith(sizes: set<nat>, hook: Hook, m: Interp)
      reads this`symbolicInputs, this`concreteHashes
    {
      forall n, t :: n in symbolicInputs && n !in sizes && t in symbolicInputs[n] ==> InputOk(t, hook, concreteHashes, m)
    }

    ghost predicate RowOk(n: nat, count: nat, m: Interp)
      reads this`intervalHookForSize, this`symbolicInputs, this`concreteHashes
      requires n in symbolicInputs && count <= |symbolicInputs[n]|
    {
      RowOkWith(n, count, intervalHookForSize, m)
    }

    lemma RowsStay(hook0: Hook, sizes: set<nat>, n: nat, m: Interp)
      requires n in symbolicInputs && n in sizes
      requires forall s :: s in hook0 ==> s in intervalHookForSize && intervalHookForSize[s] == hook0[s]
      requires forall k, t :: k in symbolicInputs && k !in sizes && t in symbolicInputs[k] ==> Size(t) in hook0
      ensures RowsOk(sizes - {n}, m) <==> RowsOkWith(sizes, hook0, m) && RowOk(n, |symbolicInputs[n]|, m)
    {
      hide InputOk;
      forall k, t | k in symbolicInputs && k !in sizes && t in symbolicInputs[k]
        ensures InputOk(t, hook0, concreteHashes, m) <==> InputOk(t, intervalHookForSize, concreteHashes, m)
      {
        InputOkStays(t, hook0, intervalHookForSize, concreteHashes, m);
      }
      assert RowOk(n, |symbolicInputs[n]|, m) <==> forall t :: t in symbolicInputs[n] ==> InputOk(t, intervalHookForSize, concreteHashes, m);
      forall k | k in symbolicInputs ensures k !in sizes - {n} <==> k !in sizes || k == n {}
    }

    /** The first `count` inputs of size `n` have an interval. */
    ghost predicate RowHooked(n: nat, count: nat)
      reads this`intervalHookForSize, this`symbolicInputs
      requires n in symbolicInputs && count <= |symbolicInputs[n]|
    {
      forall i :: 0 <= i < count ==> Size(symbolicInputs[n][i]) in intervalHookForSize
    }

    /** Conjoins the demands on the inputs of one size. */
    method AddRow(n: nat, condition0: Cond) returns (condition: Cond)
      requires Valid() && n in symbolicInputs
      modifies this`storeFunction, this`hashResultStore, this`intervalHookForSize, this`indexCounter, this`allocations
      ensures Valid() && Grown(old(intervalHookForSize), old(allocations))
      ensures RowHooked(n, |symbolicInputs[n]|)
      ensures forall m :: Holds(condition, m) <==> Holds(condition0, m) && RowOk(n, |symbolicInputs[n]|, m)
    {
      hide Holds, InputOk, Valid, RowOk, RowHooked, GrownFrom;
      condition := condition0;
      GrownSame(intervalHookForSize, allocations, symbolicInputs.Keys);
      EmptyRow(n);
      for i := 0 to |symbolicInputs[n]|
        invariant Valid() && Grown(old(intervalHookForSize), old(allocations))
        invariant RowHooked(n, i)
        invariant forall m :: Holds(condition, m) <==> Holds(condition0, m) && RowOk(n, i, m)
      {
        ghost var hook1, n1 := intervalHookForSize, allocations;
        condition := AddInput(n, i, condition);
        GrownTrans(old(intervalHookForSize), old(allocations), hook1, n1, intervalHookForSize, allocations, symbolicInputs.Keys);
      }
    }

    /** Conjoins the demand on one input; the demands on those in front of it stay. */
    method AddInput(n: nat, i: nat, condition0: Cond) returns (condition: Cond)
      requires Valid() && n in symbolicInputs && i < |symbolicInputs[n]| && RowHooked(n, i)
      modifies this`storeFunction, this`hashResultStore, this`intervalHookForSize, this`indexCounter, this`allocations
      ensures Valid() && Grown(old(intervalHookForSize), old(allocations))
      ensures RowHooked(n, i + 1)
      ensures forall m :: Holds(condition, m) <==> Holds(condition0, m) && InputOk(symbolicInputs[n][i], intervalHookForSize, concreteHashes, m)
      ensures forall m :: RowOk(n, i + 1, m) <==> old(RowOk(n, i, m)) && InputOk(symbolicInputs[n][i], intervalHookForSize, concreteHashes, m)
    {
      hide Holds, InputOk, Valid, RowOkWith, Size;
      ghost var hook0 := intervalHookForSize;
      FiledUnderSize(n, i);
      var c := CreateCondition(symbolicInputs[n][i]);
      condition := Conjoin(condition0, c);
      forall m ensures RowOk(n, i + 1, m) <==> old(RowOk(n, i, m)) && InputOk(symbolicInputs[n][i], intervalHookForSize, concreteHashes, m) {
        RowGrows(hook0, n, i, m);
      }
    }

    lemma FiledUnderSize(n: nat, i: nat)
      requires Valid() && n in symbolicInputs && i < |symbolicInputs[n]|
      ensures Size(symbolicInputs[n][i]) == n
    {
      hide Allocated;
    }

    ghost predicate RowOkWith(n: nat, count: nat, hook: Hook, m: Interp)
      reads this`symbolicInputs, this`concreteHashes
      requires n in symbolicInputs && count <= |symbolicInputs[n]|
    {
      forall i :: 0 <= i < count ==> InputOk(symbolicInputs[n][i], hook, concreteHashes, m)
    }

    lemma EmptyRow(n: nat)
      requires n in symbolicInputs
      ensures RowHooked(n, 0) && forall m :: RowOk(n, 0, m)
    {
    }

    lemma RowGrows(hook0: Hook, n: nat, i: nat, m: Interp)
      requires n in symbolicInputs && i < |symbolicInputs[n]|
      requires forall s :: s in hook0 ==> s in intervalHookForSize && intervalHookForSize[s] == hook0[s]
      requires forall j :: 0 <= j < i ==> Size(symbolicInputs[n][j]) in hook0
      ensures RowOk(n, i + 1, m) <==> RowOkWith(n, i, hook0, m) && InputOk(symbolicInputs[n][i], intervalHookForSize, concreteHashes, m)
    {
      hide InputOk;
      forall j | 0 <= j < i
        ensures InputOk(symbolicInputs[n][j], hook0, concreteHashes, m) <==> InputOk(symbolicInputs[n][j], intervalHookForSize, concreteHashes, m)
      {
        InputOkStays(symbolicInputs[n][j], hook0, intervalHookForSize, concreteHashes, m);
      }
    }

    /** The demand on one symbolic input, with an interval for its size. */
    method CreateCondition(funcInput: Term) returns (c: Cond)
      requires Valid() && Size(funcInput) in symbolicInputs
      modifies this`storeFunction, this`hashResultStore, this`intervalHookForSize, this`indexCounter, this`allocations
      ensures Valid() && Grown(old(intervalHookForSize), old(allocations))
      ensures Size(funcInput) in intervalHookForSize
      ensures forall m :: Holds(c, m) <==> InputOk(funcInput, intervalHookForSize, concreteHashes, m)
    {
      hide Holds, Matches, IndexAt, Allocated, Consistent, InInterval;
      GetFunction(Size(funcInput));
      var index := IntervalIndex(Size(funcInput));
      var concreteCond := ConcreteCondition(funcInput);
      c := InputCondition(funcInput, index, concreteCond);
    }

    /** The interval of a size; a new size gets the next one. */
    method IntervalIndex(length: nat) returns (index: int)
      requires Valid() && length in symbolicInputs
      modifies this`intervalHookForSize, this`indexCounter, this`allocations
      ensures Valid() && Grown(old(intervalHookForSize), old(allocations))
      ensures length in intervalHookForSize && index == intervalHookForSize[length]
      ensures length !in old(intervalHookForSize) ==> index == IndexAt(old(allocations)) && allocations == old(allocations) + 1
    {
      hide IndexAt, Consistent;
      if length in intervalHookForSize {
        return intervalHookForSize[length];
      }
      AllocatedOne(intervalHookForSize, allocations, length);
      NextIndex(allocations);
      intervalHookForSize := intervalHookForSize[length := indexCounter];
      index := indexCounter;
      indexCounter := indexCounter - INTERVAL_DIFFERENCE;
      allocations := allocations + 1;
    }

    /** The input equals one of the concrete inputs of its size, and so does the hash. */
    method ConcreteCondition(t: Term) returns (c: Cond)
      ensures forall m :: Holds(c, m) <==> Matches(t, concreteHashes, concreteHashes.Keys, m)
    {
      hide Holds, Matches;
      c := False;
      NothingMatches(t, concreteHashes);
      var keys := concreteHashes.Keys;
      assert concreteHashes.Keys - keys == {};
      while keys != {}
        invariant keys <= concreteHashes.Keys
        invariant forall m :: Holds(c, m) <==> Matches(t, concreteHashes, concreteHashes.Keys - keys, m)
      {
        var k :| k in keys;
        if Size(k) == Size(t) {
          c := OrMatch(c, t, k, concreteHashes[k]);
        }
        MatchesOneMore(t, k, concreteHashes, concreteHashes.Keys - keys);
        assert concreteHashes.Keys - (keys - {k}) == concreteHashes.Keys - keys + {k};
        keys := keys - {k};
      }
      assert concreteHashes.Keys - {} == concreteHashes.Keys;
    }
  }

  lemma MatchesOneMore(t: Term, k: Term, concrete: map<Term, nat>, keys: set<Term>)
    requires keys <= concrete.Keys && k in concrete
    ensures forall m :: Matches(t, concrete, keys + {k}, m) <==>
      Matches(t, concrete, keys, m) || (Size(k) == Size(t) && HashOf(t, m) == concrete[k] && Eval(k, m.rho, m.f) == Eval(t, m.rho, m.f))
  {
    hide HashOf, Eval;
  }

  lemma NextIndex(n: nat)
    ensures IndexAt(n) - INTERVAL_DIFFERENCE == IndexAt(n + 1)
  {
  }

  lemma TrueHolds()
    ensures forall m :: Holds(True, m)
  {
  }

  /** `And` of two conditions. */
  function Conjoin(a: Cond, b: Cond): (c: Cond)
    ensures forall m :: Holds(c, m) <==> Holds(a, m) && Holds(b, m)
  {
    And(a, b)
  }

  function ConjoinConcrete(a: Cond, k: Term, hash: nat): (c: Cond)
    ensures forall m :: Holds(c, m) <==> Holds(a, m) && ConcreteOk(k, hash, m)
  {
    Conjoin(a, Conjoin(HashIs(k, hash), Inverse(k)))
  }

  /** `Or` with the case that `t` equals the concrete input `k`. */
  function OrMatch(a: Cond, t: Term, k: Term, hash: nat): (c: Cond)
    ensures forall m :: Holds(c, m) <==> Holds(a, m) || (HashOf(t, m) == hash && Eval(k, m.rho, m.f) == Eval(t, m.rho, m.f))
  {
    Disjoin(a, Conjoin(HashIs(t, hash), Same(k, t)))
  }

  function Disjoin(a: Cond, b: Cond): (c: Cond)
    ensures forall m :: Holds(c, m) <==> Holds(a, m) || Holds(b, m)
  {
    Or(a, b)
  }

  lemma NothingMatches(t: Term, concrete: map<Term, nat>)
    ensures forall m :: Holds(False, m) <==> Matches(t, concrete, {}, m)
  {
  }

  /** The formula for one input; bounds are 256-bit constants. */
  function InputCondition(t: Term, index: int, concreteCond: Cond): (c: Cond)
    ensures forall m :: Holds(c, m) <==> Holds(Inverse(t), m) && (InInterval(index, HashOf(t, m)) || Holds(concreteCond, m))
  {
    var cond := Conjoin(Inverse(t), Conjoin(AtLeast(Low(index) % TT256, t), Conjoin(Below(t, High(index) % TT256), Multiple64(t))));
    Conjoin(Inverse(t), Disjoin(cond, concreteCond))
  }

  lemma InputOkStays(t: Term, hook0: Hook, hook: Hook, concrete: map<Term, nat>, m: Interp)
    requires Size(t) in hook0 && Size(t) in hook && hook[Size(t)] == hook0[Size(t)]
    ensures InputOk(t, hook0, concrete, m) <==> InputOk(t, hook, concrete, m)
  {
  }

  /** A further term under its size. */
  function Filed(terms: map<nat, seq<Term>>, n: nat, t: Term): map<nat, seq<Term>> {
    terms[n := (if n in terms then terms[n] else []) + [t]]
  }

  lemma InputAdded(inputs: map<nat, seq<Term>>, n: nat, t: Term)
    ensures forall u :: IsInput(Filed(inputs, n, t), u) <==> IsInput(inputs, u) || u == t
  {
    var after := Filed(inputs, n, t);
    forall u ensures IsInput(after, u) <==> IsInput(inputs, u) || u == t {
      if IsInput(inputs, u) {
        var m :| m in inputs && u in inputs[m];
        assert m in after && u in after[m];
      }
      if u == t {
        assert n in after && u in after[n];
      }
    }
  }
}
