/** The conditions on keccak are never contradictory, and they keep hashes apart. */
module KeccakConsistency {
  import opened Intervals
  import opened Keccak

  // ---------- assumptions ----------

  /** Concrete inputs of one size have different 256-bit hashes. */
  ghost predicate NoCollision(concrete: map<Term, nat>) {
    && (forall k :: k in concrete ==> k.Val? && concrete[k] < TT256)
    && forall k, l :: k in concrete && l in concrete && k != l && k.width == l.width ==> concrete[k] != concrete[l]
  }

  /** Number of hash applications in a term. */
  function Hashes(t: Term): nat {
    match t
    case Hash(a) => 1 + Hashes(a)
    case App(_, l, r, _) => Hashes(l) + Hashes(r)
    case _ => 0
  }

  /** Number of hash applications that the inputs give rise to, nested ones included. */
  function Weight(inputs: seq<Term>): nat {
    if inputs == [] then 0 else Weight(inputs[..|inputs| - 1]) + Hashes(Hash(inputs[|inputs| - 1]))
  }

  /** Multiples of 64 in one interval, rounded down. */
  const CAPACITY: nat := PART / 64

  // ---------- tables of hashes ----------

  function IndexOf(hook: Hook, size: nat): int {
    if size in hook then hook[size] else 0
  }

  ghost predicate HookOk(hook: Hook) {
    forall s :: s in hook ==> 0 <= hook[s] <= FIRST_INDEX
  }

  /** A table that meets all demands: it holds the concrete hashes, every other hash lies in the interval
      of its size, and no two inputs of one size share a hash. */
  ghost predicate Good(f: Table, hook: Hook, concrete: map<Term, nat>) {
    && (forall k :: k in concrete ==> k.Val? && (k.width, k.value) in f && f[(k.width, k.value)] == concrete[k])
    && (forall p :: p in f ==> f[p] < TT256 && (Val(p.1, p.0) in concrete || InInterval(IndexOf(hook, p.0), f[p])))
    && (forall p, q :: p in f && q in f && p.0 == q.0 && p.1 != q.1 ==> f[p] != f[q])
  }

  ghost predicate Includes(f': Table, f: Table) {
    forall p :: p in f ==> p in f' && f'[p] == f[p]
  }

  lemma {:induction false} ValuesAtMost(f: Table)
    ensures |f.Values| <= |f|
  {
    if |f| > 0 {
      var p :| p in f;
      var rest := f - {p};
      ValuesAtMost(rest);
      assert f.Keys == rest.Keys + {p};
      assert f.Values <= rest.Values + {f[p]};
      Subset(f.Values, rest.Values + {f[p]});
    } else {
      assert f.Values == {};
    }
  }

  lemma {:induction false} Subset(a: set<nat>, b: set<nat>)
    requires a <= b
    ensures |a| <= |b|
  {
    if a != {} {
      var x :| x in a;
      Subset(a - {x}, b - {x});
    }
  }

  /** One of `|taken| + 1` consecutive multiples of 64 is not taken. */
  function Fresh(taken: set<nat>, h: nat): (r: nat)
    requires h % 64 == 0
    ensures r !in taken && r % 64 == 0 && h <= r <= h + 64 * |taken|
    decreases |taken|
  {
    if h !in taken then h else Fresh(taken - {h}, h + 64)
  }

  /** An unused hash in an interval. */
  lemma UnusedHash(f: Table, index: int) returns (h: nat)
    requires 0 <= index <= FIRST_INDEX && |f| < CAPACITY
    ensures index * PART <= h < index * PART + PART && h % 64 == 0
    ensures InInterval(index, h) && h < TT256 && forall p :: p in f ==> f[p] != h
  {
    IntervalFits(index);
    ValuesAtMost(f);
    var first := FirstMultiple(Low(index));
    h := Fresh(f.Values, first);
    WideEnough(index, h);
    assert forall p :: p in f ==> f[p] in f.Values;
  }

  lemma FirstMultiple(low: int) returns (first: nat)
    requires low >= 0
    ensures first % 64 == 0 && low <= first < low + 64
  {
    first := (low + 63) / 64 * 64;
  }

  lemma WideEnough(index: int, h: nat)
    requires 0 <= index <= FIRST_INDEX && h % 64 == 0 && Low(index) <= h < Low(index) + 64 + 64 * (CAPACITY - 1)
    ensures index * PART <= h < index * PART + PART && h % 64 == 0
    ensures InInterval(index, h) && h < TT256
  {
    PartSize();
    assert index * PART <= FIRST_INDEX * PART;
  }

  lemma AddHash(f: Table, hook: Hook, concrete: map<Term, nat>, size: nat, x: nat) returns (f': Table)
    requires Good(f, hook, concrete) && HookOk(hook) && |f| < CAPACITY
    ensures Good(f', hook, concrete) && Includes(f', f) && (size, x) in f' && |f'| <= |f| + 1
  {
    hide InInterval;
    if (size, x) in f {
      return f;
    }
    var h := UnusedHash(f, IndexOf(hook, size));
    f' := f[(size, x) := h];
  }

  // ---------- evaluating terms under growing tables ----------

  /** Every hash that `t` applies is in the table. */
  predicate Resolved(t: Term, rho: Valuation, f: Table) {
    match t
    case Hash(a) => Resolved(a, rho, f) && (Size(a), Eval(a, rho, f)) in f
    case App(_, l, r, _) => Resolved(l, rho, f) && Resolved(r, rho, f)
    case _ => true
  }

  lemma {:induction false} ResolvedIsStable(t: Term, rho: Valuation, f: Table, f': Table)
    requires Resolved(t, rho, f) && Includes(f', f)
    ensures Resolved(t, rho, f') && Eval(t, rho, f') == Eval(t, rho, f)
  {
    match t
    case Hash(a) => ResolvedIsStable(a, rho, f, f');
    case App(_, l, r, _) =>
      ResolvedIsStable(l, rho, f, f');
      ResolvedIsStable(r, rho, f, f');
    case _ =>
  }

  /** Any term can be resolved by adding at most one hash for each application in it. */
  lemma {:induction false} Resolve(t: Term, rho: Valuation, hook: Hook, concrete: map<Term, nat>, f: Table) returns (f': Table)
    requires Good(f, hook, concrete) && HookOk(hook) && |f| + Hashes(t) <= CAPACITY
    ensures Good(f', hook, concrete) && Includes(f', f) && Resolved(t, rho, f') && |f'| <= |f| + Hashes(t)
  {
    hide Good;
    match t
    case Hash(a) =>
      var f1 := Resolve(a, rho, hook, concrete, f);
      f' := AddHash(f1, hook, concrete, Size(a), Eval(a, rho, f1));
      ResolvedIsStable(a, rho, f1, f');
    case App(_, l, r, _) =>
      var f1 := Resolve(l, rho, hook, concrete, f);
      f' := Resolve(r, rho, hook, concrete, f1);
      ResolvedIsStable(l, rho, f1, f');
    case _ => f' := f;
  }

  lemma {:induction false} ResolveAll(inputs: seq<Term>, rho: Valuation, hook: Hook, concrete: map<Term, nat>, f: Table) returns (f': Table)
    requires Good(f, hook, concrete) && HookOk(hook) && |f| + Weight(inputs) <= CAPACITY
    ensures Good(f', hook, concrete) && |f'| <= |f| + Weight(inputs)
    ensures forall t :: t in inputs ==> Resolved(Hash(t), rho, f')
  {
    hide Good, Resolved;
    if inputs == [] {
      return f;
    }
    var n := |inputs| - 1;
    var f1 := ResolveAll(inputs[..n], rho, hook, concrete, f);
    f' := Resolve(Hash(inputs[n]), rho, hook, concrete, f1);
    forall t | t in inputs ensures Resolved(Hash(t), rho, f') {
      if t in inputs[..n] {
        ResolvedIsStable(Hash(t), rho, f1, f');
      } else {
        assert t == inputs[n];
      }
    }
  }

  function ConcreteTable(concrete: map<Term, nat>): Table
    requires forall k :: k in concrete ==> k.Val?
  {
    map k | k in concrete :: (k.width, k.value) := concrete[k]
  }

  lemma ConcreteTableIsGood(concrete: map<Term, nat>, hook: Hook)
    requires NoCollision(concrete)
    ensures Good(ConcreteTable(concrete), hook, concrete) && |ConcreteTable(concrete)| <= |concrete|
  {
    hide InInterval;
    var f := ConcreteTable(concrete);
    forall p | p in f ensures Val(p.1, p.0) in concrete && f[p] == concrete[Val(p.1, p.0)] {
    }
    KeysAtMost(f, concrete);
  }

  lemma {:induction false} KeysAtMost(f: Table, concrete: map<Term, nat>)
    requires forall p :: p in f ==> Val(p.1, p.0) in concrete
    ensures |f| <= |concrete|
  {
    if |f| > 0 {
      var p :| p in f;
      var k := Val(p.1, p.0);
      var f', concrete' := f - {p}, concrete - {k};
      forall q | q in f' ensures Val(q.1, q.0) in concrete' {
        assert Val(q.1, q.0) != k;
      }
      KeysAtMost(f', concrete');
      assert f.Keys == f'.Keys + {p} && concrete.Keys == concrete'.Keys + {k};
    }
  }

  /** The inverse functions: each hash leads back to its input. */
  function InverseTable(f: Table): (g: Table)
    requires forall p, q :: p in f && q in f && p.0 == q.0 && p.1 != q.1 ==> f[p] != f[q]
    ensures forall p :: p in f ==> Look(g, p.0, f[p]) == p.1
  {
    map p | p in f :: (p.0, f[p]) := p.1
  }

  /** For every valuation of the symbols and every finite set of concrete inputs without collisions there
      are hash and inverse functions that meet all demands at once, nested hashes included, as long as
      the number of hash applications stays within the multiples of 64 in one interval. */
  lemma DemandsAreSatisfiable(inputs: map<nat, seq<Term>>, list: seq<Term>, hook: Hook, concrete: map<Term, nat>, rho: Valuation)
    returns (m: Interp)
    requires forall t :: IsInput(inputs, t) ==> t in list && Size(t) in hook
    requires NoCollision(concrete) && HookOk(hook) && |concrete| + Weight(list) <= CAPACITY
    ensures m.rho == rho && Demanded(inputs, hook, concrete, m)
    ensures forall p :: p in m.f ==> m.f[p] < TT256
  {
    hide Good, InputOk, ConcreteOk, Resolved, InverseTable, NoCollision, HookOk, Weight, IsModel, ConcreteTable, IsInput;
    var f := StartTable(hook, concrete);
    f := ResolveAll(list, rho, hook, concrete, f);
    m := ModelOf(f, hook, concrete, rho);
    forall t | IsInput(inputs, t) ensures InputOk(t, hook, concrete, m) {
      InputIsOk(t, hook, concrete, m);
    }
    forall k | k in concrete ensures ConcreteOk(k, concrete[k], m) {
      ConcreteIsOk(k, hook, concrete, m);
    }
  }

  lemma StartTable(hook: Hook, concrete: map<Term, nat>) returns (f: Table)
    requires NoCollision(concrete)
    ensures Good(f, hook, concrete) && |f| <= |concrete|
  {
    ConcreteTableIsGood(concrete, hook);
    f := ConcreteTable(concrete);
  }

  ghost predicate IsModel(m: Interp, hook: Hook, concrete: map<Term, nat>) {
    && Good(m.f, hook, concrete)
    && forall p :: p in m.f ==> Look(m.g, p.0, m.f[p]) == p.1
  }

  lemma ModelOf(f: Table, hook: Hook, concrete: map<Term, nat>, rho: Valuation) returns (m: Interp)
    requires Good(f, hook, concrete)
    ensures m.rho == rho && m.f == f && IsModel(m, hook, concrete)
    ensures forall p :: p in m.f ==> m.f[p] < TT256
  {
    hide InInterval;
    m := Interp(rho, f, InverseTable(f));
  }

  lemma InputIsOk(t: Term, hook: Hook, concrete: map<Term, nat>, m: Interp)
    requires IsModel(m, hook, concrete) && Resolved(Hash(t), m.rho, m.f) && Size(t) in hook
    ensures InputOk(t, hook, concrete, m)
  {
    hide InInterval;
    var p := (Size(t), Eval(t, m.rho, m.f));
    var k := Val(p.1, p.0);
    assert p in m.f && HashOf(t, m) == m.f[p];
    EvalVal(k, m.rho, m.f);
    if k in concrete {
      assert Size(k) == Size(t) && HashOf(t, m) == concrete[k];
      assert Matches(t, concrete, concrete.Keys, m);
    }
  }

  lemma ConcreteIsOk(k: Term, hook: Hook, concrete: map<Term, nat>, m: Interp)
    requires IsModel(m, hook, concrete) && k in concrete
    ensures ConcreteOk(k, concrete[k], m)
  {
    hide InInterval;
    EvalVal(k, m.rho, m.f);
    assert (k.width, k.value) in m.f;
  }

  lemma EvalVal(k: Term, rho: Valuation, f: Table)
    requires k.Val?
    ensures Eval(k, rho, f) == k.value
  {
  }

  /** The condition that the manager creates has a model for every valuation. */
  lemma ConditionsAreSatisfiable(k: KeccakFunctionManager, condition: Cond, list: seq<Term>, rho: Valuation) returns (m: Interp)
    requires k.Valid() && k.allocations <= MAX_ALLOCATIONS
    requires forall t :: IsInput(k.symbolicInputs, t) ==> Size(t) in k.intervalHookForSize
    requires forall i: Interp :: Holds(condition, i) <==> Demanded(k.symbolicInputs, k.intervalHookForSize, k.concreteHashes, i)
    requires NoCollision(k.concreteHashes)
    requires (forall t :: IsInput(k.symbolicInputs, t) ==> t in list) && |k.concreteHashes| + Weight(list) <= CAPACITY
    ensures m.rho == rho && Holds(condition, m)
  {
    hide Holds, Demanded;
    AllocatedIsOk(k.intervalHookForSize, k.allocations);
    m := DemandsAreSatisfiable(k.symbolicInputs, list, k.intervalHookForSize, k.concreteHashes, rho);
  }

  lemma AllocatedIsOk(hook: Hook, n: nat)
    requires Allocated(hook, n) && n <= MAX_ALLOCATIONS
    ensures HookOk(hook)
  {
    hide IndexAt;
    forall s | s in hook ensures 0 <= hook[s] <= FIRST_INDEX {
      var k :| 0 <= k < n && hook[s] == IndexAt(k);
      IndexInRange(k);
    }
  }

  // ---------- what the conditions guarantee ----------

  /** `t` has the value and the hash of a concrete input of its size. */
  ghost predicate HasKnownHash(t: Term, concrete: map<Term, nat>, m: Interp) {
    exists k :: k in concrete && Size(k) == Size(t) && Eval(k, m.rho, m.f) == Eval(t, m.rho, m.f) && HashOf(t, m) == concrete[k]
  }

  /** All demands in numbers: the inverse of every hash is its input; the hash of a symbolic input is a
      multiple of 64 in the part of the 256-bit space that belongs to its size, or is the known hash of a
      concrete input that it equals; and concrete inputs have their known hashes. */
  lemma DemandedExactly(inputs: map<nat, seq<Term>>, hook: Hook, concrete: map<Term, nat>, n: nat, m: Interp)
    requires Allocated(hook, n) && n <= MAX_ALLOCATIONS
    ensures Demanded(inputs, hook, concrete, m) <==>
      && (forall t :: IsInput(inputs, t) ==>
            && Size(t) in hook && Look(m.g, Size(t), HashOf(t, m)) == Eval(t, m.rho, m.f)
            && ((hook[Size(t)] * PART <= HashOf(t, m) < hook[Size(t)] * PART + PART && HashOf(t, m) % 64 == 0) || HasKnownHash(t, concrete, m)))
      && (forall k :: k in concrete ==> HashOf(k, m) == concrete[k] && Look(m.g, Size(k), concrete[k]) == Eval(k, m.rho, m.f))
  {
    hide Allocated, HashOf, Eval, Look, Low, High, IsInput, Matches, HasKnownHash;
    AllocatedIsOk(hook, n);
    forall t | Size(t) in hook
      ensures InInterval(hook[Size(t)], HashOf(t, m)) <==>
        hook[Size(t)] * PART <= HashOf(t, m) < hook[Size(t)] * PART + PART && HashOf(t, m) % 64 == 0
    {
      BoundsAreThemselves(hook[Size(t)]);
    }
    forall t ensures Matches(t, concrete, concrete.Keys, m) <==> HasKnownHash(t, concrete, m) {
      KnownMatches(t, concrete, m);
    }
  }

  lemma KnownMatches(t: Term, concrete: map<Term, nat>, m: Interp)
    ensures Matches(t, concrete, concrete.Keys, m) <==> HasKnownHash(t, concrete, m)
  {
    hide HashOf, Eval;
  }

  /** In every interpretation that meets the created condition, a recorded symbolic input that equals no
      concrete one has a hash that is a multiple of 64 in the part that belongs to its size. */
  lemma HashesAreAligned(k: KeccakFunctionManager, condition: Cond, m: Interp, t: Term)
    requires k.Valid() && k.allocations <= MAX_ALLOCATIONS
    requires forall i: Interp :: Holds(condition, i) <==> Demanded(k.symbolicInputs, k.intervalHookForSize, k.concreteHashes, i)
    requires Holds(condition, m) && IsInput(k.symbolicInputs, t)
    requires forall c :: c in k.concreteHashes && Size(c) == Size(t) ==> Eval(c, m.rho, m.f) != Eval(t, m.rho, m.f)
    ensures Size(t) in k.intervalHookForSize
    ensures HashOf(t, m) % 64 == 0
    ensures var index := k.intervalHookForSize[Size(t)]; index * PART <= HashOf(t, m) < index * PART + PART
  {
    hide Holds, Demanded, HashOf, Eval, Look, IsInput, Allocated;
    DemandedExactly(k.symbolicInputs, k.intervalHookForSize, k.concreteHashes, k.allocations, m);
  }

  /** A symbolic input that equals a concrete one of its size has the known hash. */
  lemma EqualInputsHaveKnownHash(inputs: map<nat, seq<Term>>, hook: Hook, concrete: map<Term, nat>, m: Interp, t: Term, k: Term)
    requires Demanded(inputs, hook, concrete, m) && k in concrete
    requires Size(t) == Size(k) && Eval(t, m.rho, m.f) == Eval(k, m.rho, m.f)
    ensures HashOf(t, m) == concrete[k]
  {
    hide InputOk;
    assert ConcreteOk(k, concrete[k], m);
  }

  /** In every model, equal hashes of inputs of one size mean equal inputs. */
  lemma HashesAreInjective(inputs: map<nat, seq<Term>>, hook: Hook, concrete: map<Term, nat>, m: Interp, t: Term, u: Term)
    requires Demanded(inputs, hook, concrete, m)
    requires IsInput(inputs, t) || t in concrete
    requires IsInput(inputs, u) || u in concrete
    requires Size(t) == Size(u) && HashOf(t, m) == HashOf(u, m)
    ensures Eval(t, m.rho, m.f) == Eval(u, m.rho, m.f)
  {
    hide HashOf, Eval, InInterval, Matches;
  }

  /** In every model, hashes of symbolic inputs of different sizes differ, unless one of the inputs
      equals a concrete one. */
  lemma HashesOfSizesDiffer(inputs: map<nat, seq<Term>>, hook: Hook, concrete: map<Term, nat>, m: Interp, n: nat, t: Term, u: Term)
    requires Demanded(inputs, hook, concrete, m) && Allocated(hook, n) && n <= MAX_ALLOCATIONS
    requires IsInput(inputs, t) && IsInput(inputs, u) && Size(t) != Size(u)
    requires !Matches(t, concrete, concrete.Keys, m) && !Matches(u, concrete, concrete.Keys, m)
    ensures HashOf(t, m) != HashOf(u, m)
  {
    hide HashOf, Eval, Matches, Low, High, Allocated;
    assert InputOk(t, hook, concrete, m) && InputOk(u, hook, concrete, m);
    IntervalsOfSizes(hook, n, Size(t), Size(u));
    IntervalsOfSizes(hook, n, Size(u), Size(t));
  }

  // ---------- any mix of allocations, resets and restored snapshots ----------

  datatype Action = Allocate(size: nat) | Reset | Save | Restore(snapshot: nat)

  datatype Run = Run(hook: Hook, allocations: nat, snapshots: seq<Hook>)

  /** One action on the intervals, as the manager's methods perform it. */
  function Act(r: Run, a: Action): Run {
    match a
    case Allocate(size) =>
      if size in r.hook then r else Run(r.hook[size := IndexAt(r.allocations)], r.allocations + 1, r.snapshots)
    case Reset => r.(hook := map[])
    case Save => r.(snapshots := r.snapshots + [r.hook])
    case Restore(i) => if i < |r.snapshots| then r.(hook := r.snapshots[i]) else r
  }

  function After(actions: seq<Action>): Run {
    if actions == [] then Run(map[], 0, []) else Act(After(actions[..|actions| - 1]), actions[|actions| - 1])
  }

  ghost predicate Sound(r: Run) {
    Allocated(r.hook, r.allocations) && forall i :: 0 <= i < |r.snapshots| ==> Allocated(r.snapshots[i], r.allocations)
  }

  lemma ActKeepsSound(r: Run, a: Action)
    requires Sound(r)
    ensures Sound(Act(r, a))
  {
    hide Allocated;
    match a {
      case Allocate(size) =>
        if size !in r.hook {
          AllocatedOne(r.hook, r.allocations, size);
          forall i | 0 <= i < |r.snapshots| ensures Allocated(r.snapshots[i], r.allocations + 1) {
            AllocatedLonger(r.snapshots[i], r.allocations, r.allocations + 1);
          }
        }
      case Reset => EmptyHook(r.allocations);
      case _ =>
    }
  }

  lemma EmptyHook(n: nat)
    ensures Allocated(map[], n)
  {
  }

  lemma {:induction false} RunsAreSound(actions: seq<Action>)
    ensures Sound(After(actions)) && After(actions).allocations <= |actions|
  {
    if actions == [] {
      EmptyHook(0);
    } else {
      RunsAreSound(actions[..|actions| - 1]);
      ActKeepsSound(After(actions[..|actions| - 1]), actions[|actions| - 1]);
    }
  }

  /** After any mix of actions with at most 10^10 allocations, the intervals of different sizes are
      disjoint, lie in the 256-bit space and hold a multiple of 64. */
  lemma IntervalsStayApart(actions: seq<Action>, s: nat, t: nat)
    requires After(actions).allocations <= MAX_ALLOCATIONS
    requires s in After(actions).hook && t in After(actions).hook && s != t
    ensures var i, j := After(actions).hook[s], After(actions).hook[t];
      && 0 <= i * PART && i * PART + PART < TT256
      && (i * PART + PART <= j * PART || j * PART + PART <= i * PART)
      && exists h: nat :: i * PART <= h < i * PART + PART && h % 64 == 0
  {
    hide Allocated, InInterval, After;
    RunsAreSound(actions);
    var r := After(actions);
    IntervalsOfSizes(r.hook, r.allocations, s, t);
    AllocatedIsOk(r.hook, r.allocations);
    var h := UnusedHash(map[], r.hook[s]);
  }
}
