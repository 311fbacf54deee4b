/** The storage of an account: a symbolic array that is filled from the chain on demand. */
module Storage {
  import opened Instructions

  const WORDS: int := 0x1_00000000_00000000_00000000_00000000_00000000_00000000_00000000_00000000

  type Word = w: int | 0 <= w < WORDS

  // ---------- terms ----------

  datatype Term = Const(value: Word) | Symbol(name: string) | If(condition: Condition, yes: Term, no: Term) | Select(content: Array, index: Term)

  datatype Condition = Truth(name: string) | Equal(left: Term, right: Term)

  datatype Array = Filled(word: Word) | Unknown(name: string) | Stored(base: Array, key: Term, value: Term)

  /** Values for the symbols of a term. */
  datatype Valuation = Valuation(words: string -> Word, truths: string -> bool, arrays: string -> Word -> Word)

  function Eval(t: Term, v: Valuation): Word {
    match t
    case Const(w) => w
    case Symbol(name) => v.words(name)
    case If(c, yes, no) => if Holds(c, v) then Eval(yes, v) else Eval(no, v)
    case Select(a, index) => At(a, v, Eval(index, v))
  }

  function Holds(c: Condition, v: Valuation): bool {
    match c
    case Truth(name) => v.truths(name)
    case Equal(left, right) => Eval(left, v) == Eval(right, v)
  }

  function At(a: Array, v: Valuation, i: Word): Word {
    match a
    case Filled(w) => w
    case Unknown(name) => v.arrays(name)(i)
    case Stored(base, key, value) => if Eval(key, v) == i then Eval(value, v) else At(base, v, i)
  }

  /** Simplification changes a term but never its value. */
  ghost predicate Preserves(simplify: Term -> Term) {
    forall t, v :: Eval(simplify(t), v) == Eval(t, v)
  }

  // ---------- what a storage should hold ----------

  /** All writes so far, oldest first. */
  type Writes = seq<(Term, Term)>

  /** The latest write whose key evaluates to an index. */
  function Latest(writes: Writes, v: Valuation, i: Word): Option<Word> {
    if writes == [] then None
    else
      var n := |writes| - 1;
      if Eval(writes[n].0, v) == i then Some(Eval(writes[n].1, v)) else Latest(writes[..n], v, i)
  }

  function KeysOf(writes: Writes): set<Term> {
    set i | 0 <= i < |writes| :: writes[i].0
  }

  /** What the chain knows: a word for an index, or a failure to read it. */
  type Chain = Word -> Option<Word>

  /** The word behind the writes: what was loaded, or the word in the initial array. */
  function Under(chain: Chain, loaded: set<Word>, initial: Array, v: Valuation, i: Word): Word {
    if i in loaded && chain(i).Some? then chain(i).value else At(initial, v, i)
  }

  function Held(chain: Chain, loaded: set<Word>, initial: Array, writes: Writes, v: Valuation, i: Word): Word {
    match Latest(writes, v, i)
    case Some(w) => w
    case None => Under(chain, loaded, initial, v, i)
  }

  /** The array agrees with the plain overlay of writes, loaded words and initial array under every valuation. */
  ghost predicate Agrees(content: Array, chain: Chain, loaded: set<Word>, initial: Array, writes: Writes) {
    forall v, i :: At(content, v, i) == Held(chain, loaded, initial, writes, v, i)
  }

  /** An index counts as loaded when the chain was read for it or a concrete write hides it. */
  ghost predicate Settled(loaded: set<Word>, chain: Chain, writes: Writes) {
    forall i :: i in loaded ==> chain(i).Some? || exists n :: 0 <= n < |writes| && writes[n].0 == Const(i)
  }

  lemma {:induction false} LatestOfKey(writes: Writes, v: Valuation, i: Word)
    ensures Latest(writes, v, i).Some? <==> Hit(KeysOf(writes), v, i)
  {
    if writes != [] {
      var n := |writes| - 1;
      LatestOfKey(writes[..n], v, i);
      assert writes == writes[..n] + [(writes[n].0, writes[n].1)];
      KeysOfMore(writes[..n], writes[n].0, writes[n].1);
      HitMore(KeysOf(writes[..n]), writes[n].0, v, i);
    }
  }

  /** A write keeps the agreement; a concrete key may be marked as loaded, because the write hides what is under it. */
  lemma WriteAgrees(content: Array, chain: Chain, loaded: set<Word>, initial: Array, writes: Writes, key: Term, value: Term)
    requires Agrees(content, chain, loaded, initial, writes)
    ensures Agrees(Stored(content, key, value), chain, loaded, initial, writes + [(key, value)])
    ensures key.Const? ==> Agrees(Stored(content, key, value), chain, loaded + {key.value}, initial, writes + [(key, value)])
  {
    var more := writes + [(key, value)];
    assert more[..|writes|] == writes;
  }

  /** Some key evaluates to an index. */
  ghost predicate Hit(keys: set<Term>, v: Valuation, i: Word) {
    exists key :: key in keys && Eval(key, v) == i
  }

  /** The term that a read from the chain puts under the existing writes. */
  ghost predicate Guarded(t: Term, content: Array, item: Word, fetched: Word, keys: set<Term>) {
    forall v :: Eval(t, v) == if Hit(keys, v, item) then At(content, v, item) else fetched
  }

  /** Loading a word from the chain keeps the agreement: it shows only where no write does. */
  lemma LoadAgrees(content: Array, chain: Chain, loaded: set<Word>, initial: Array, writes: Writes, item: Word, t: Term)
    requires Agrees(content, chain, loaded, initial, writes) && chain(item).Some?
    requires Guarded(t, content, item, chain(item).value, KeysOf(writes))
    ensures Agrees(Stored(content, Const(item), t), chain, loaded + {item}, initial, writes)
  {
    hide Latest, KeysOf;
    forall v, i ensures At(Stored(content, Const(item), t), v, i) == Held(chain, loaded + {item}, initial, writes, v, i) {
      LatestOfKey(writes, v, i);
      assert At(content, v, i) == Held(chain, loaded, initial, writes, v, i);
    }
  }

  // ---------- the class ----------

  datatype Value = Bits(term: Term) | Flag(name: string)

  class Storage {
    const address: Option<Word>
    const chain: Chain
    /** The loader is present and active. */
    const active: bool
    const unconstrained: bool
    const simplify: Term -> Term
    var standard: Array
    var printable: map<Term, Term>
    var keysLoaded: set<Word>
    var keysSet: set<Term>
    var keysGet: set<Term>
    ghost var initial: Array
    ghost var writes: Writes

    constructor (concrete: bool, address: Option<Word>, name: string, chain: Chain, active: bool, unconstrained: bool, simplify: Term -> Term)
      requires Preserves(simplify)
      ensures Valid() && writes == [] && keysLoaded == {} && keysGet == {}
      ensures initial == if concrete && !unconstrained then Filled(0) else Unknown(name)
      ensures this.address == address && this.chain == chain && this.active == active && this.unconstrained == unconstrained && this.simplify == simplify
    {
      this.address, this.chain, this.active, this.unconstrained, this.simplify := address, chain, active, unconstrained, simplify;
      standard := if concrete && !unconstrained then Filled(0) else Unknown(name);
      initial := if concrete && !unconstrained then Filled(0) else Unknown(name);
      printable, keysLoaded, keysSet, keysGet, writes := map[], {}, {}, {}, [];
    }

    ghost predicate Valid()
      reads this`standard, this`printable, this`keysLoaded, this`keysSet, this`initial, this`writes
    {
      && Preserves(simplify)
      && Agrees(standard, chain, keysLoaded, initial, writes)
      && Settled(keysLoaded, chain, writes)
      && keysSet == KeysOf(writes)
      && printable.Keys == keysSet + (set i | i in keysLoaded :: Const(i))
    }

    /** Missing words are read from the chain. */
    predicate Lazy() {
      address.Some? && address.value != 0 && active && !unconstrained
    }

    /** Reads an index; a missing concrete one is first loaded from the chain, under the existing writes. */
    method GetItem(item: Term) returns (r: Term)
      requires Valid()
      modifies this`standard, this`printable, this`keysLoaded, this`keysGet
      ensures Valid() && keysGet == old(keysGet) + {item}
      ensures printable == if keysLoaded == old(keysLoaded) then old(printable) else old(printable)[item := Select(standard, item)]
      ensures keysLoaded == if item.Const? && address.Some? && address.value != 0 && active && !unconstrained && chain(item.value).Some?
                            then old(keysLoaded) + {item.value} else old(keysLoaded)
      ensures forall v :: Eval(r, v) == Held(chain, keysLoaded, initial, writes, v, Eval(item, v))
      ensures item.Const? && address.Some? && address.value != 0 && active && !unconstrained && chain(item.value).Some? ==>
        forall v :: Eval(r, v) == Expected(chain, writes, v, item.value)
    {
      hide Latest, Under, Agrees, Settled, Preserves, Held;
      keysGet := keysGet + {item};
      if address.Some? && address.value != 0 && item.Const? && item.value !in keysLoaded && active && !unconstrained {
        match chain(item.value) {
          case Some(fetched) =>
            var value := Fetch(item, fetched);
            LoadAgrees(standard, chain, keysLoaded, initial, writes, item.value, value);
            MoreSettled(keysLoaded, chain, writes, item.value);
            standard := Stored(standard, item, value);
            keysLoaded := keysLoaded + {item.value};
            printable := printable[item := Select(standard, item)];
          case None =>
        }
      }
      r := simplify(Select(standard, item));
      ReadAgrees(simplify, standard, chain, keysLoaded, initial, writes, item);
      if item.Const? && Lazy() && chain(item.value).Some? {
        forall v ensures Eval(r, v) == Expected(chain, writes, v, item.value) {
          ConcreteReadIsExpected(chain, keysLoaded, initial, writes, v, item.value);
        }
      }
    }

    /** The fetched word, except where a key that was written evaluates to the index. */
    method Fetch(item: Term, fetched: Word) returns (value: Term)
      requires item.Const?
      ensures Guarded(value, standard, item.value, fetched, keysSet)
    {
      value := Const(fetched);
      var rest := keysSet;
      while rest != {}
        invariant rest <= keysSet
        invariant Guarded(value, standard, item.value, fetched, keysSet - rest)
      {
        var key :| key in rest;
        GuardMore(value, standard, item.value, fetched, keysSet - rest, key);
        assert keysSet - (rest - {key}) == (keysSet - rest) + {key};
        value := If(Equal(key, item), Select(standard, item), value);
        rest := rest - {key};
      }
      assert keysSet - rest == keysSet;
    }

    /** Writes an index. A concrete one is never loaded afterwards. */
    method SetItem(key: Term, value: Value)
      requires Valid()
      modifies this`standard, this`printable, this`keysLoaded, this`keysSet, this`writes
      ensures Valid()
      ensures writes == old(writes) + [(key, AsTerm(value))] && printable == old(printable)[key := AsTerm(value)]
      ensures keysLoaded == if key.Const? then old(keysLoaded) + {key.value} else old(keysLoaded)
    {
      hide Agrees, Settled, Preserves;
      var term := AsTerm(value);
      WriteAgrees(standard, chain, keysLoaded, initial, writes, key, term);
      WriteSettled(keysLoaded, chain, writes, key, term);
      KeysOfMore(writes, key, term);
      printable := printable[key := term];
      standard := Stored(standard, key, term);
      keysSet := keysSet + {key};
      if key.Const? {
        keysLoaded := keysLoaded + {key.value};
      }
      writes := writes + [(key, term)];
    }

    /** A copy starts with the same contents; the two then change independently. */
    method DeepCopy(name: string) returns (copy: Storage)
      requires Valid()
      ensures fresh(copy) && copy.Valid()
      ensures copy.standard == standard && copy.printable == printable && copy.keysLoaded == keysLoaded
      ensures copy.keysSet == keysSet && copy.keysGet == keysGet && copy.initial == initial && copy.writes == writes
      ensures copy.address == address && copy.chain == chain && copy.active == active && copy.unconstrained == unconstrained && copy.simplify == simplify
    {
      hide Agrees, Settled, Preserves;
      copy := new Storage(standard.Filled?, address, name, chain, active, unconstrained, simplify);
      copy.standard := standard;
      copy.printable := printable;
      copy.keysLoaded := keysLoaded;
      copy.keysSet := keysSet;
      copy.keysGet := keysGet;
      copy.initial := initial;
      copy.writes := writes;
    }
  }

  function AsTerm(value: Value): Term {
    match value
    case Bits(t) => t
    case Flag(name) => If(Truth(name), Const(1), Const(0))
  }

  /** A flag is the word one where it is true and the word zero elsewhere; other values are stored as they are. */
  lemma FlagsAreWords(value: Value, v: Valuation)
    ensures value.Bits? ==> Eval(AsTerm(value), v) == Eval(value.term, v)
    ensures value.Flag? ==> Eval(AsTerm(value), v) == if v.truths(value.name) then 1 else 0
  {
  }

  /** A write changes nothing under other indices; where nothing was written and the chain was read, its word
      shows, and elsewhere the initial array. */
  lemma OthersShow(chain: Chain, loaded: set<Word>, initial: Array, writes: Writes, key: Term, value: Term, v: Valuation, i: Word)
    ensures Eval(key, v) != i ==> Held(chain, loaded, initial, writes + [(key, value)], v, i) == Held(chain, loaded, initial, writes, v, i)
    ensures Held(chain, loaded, initial, [], v, i) == if i in loaded && chain(i).Some? then chain(i).value else At(initial, v, i)
  {
    var all := writes + [(key, value)];
    assert all[|writes|] == (key, value) && all[..|writes|] == writes;
  }

  /** Whatever was written before, and whatever is on chain, the index just written holds what was written. */
  lemma StoredReadsBack(chain: Chain, loaded: set<Word>, initial: Array, writes: Writes, key: Term, value: Value, v: Valuation)
    ensures var r := Held(chain, loaded, initial, writes + [(key, AsTerm(value))], v, Eval(key, v));
      if value.Bits? then r == Eval(value.term, v) else r == if v.truths(value.name) then 1 else 0
  {
    var all := writes + [(key, AsTerm(value))];
    assert all[|writes|] == (key, AsTerm(value));
    FlagsAreWords(value, v);
  }

  lemma HitMore(keys: set<Term>, key: Term, v: Valuation, i: Word)
    ensures Hit(keys + {key}, v, i) <==> Hit(keys, v, i) || Eval(key, v) == i
  {
    if Eval(key, v) == i {
      assert key in keys + {key};
    }
    if Hit(keys, v, i) {
      var k :| k in keys && Eval(k, v) == i;
      assert k in keys + {key};
    }
  }

  lemma GuardMore(t: Term, content: Array, item: Word, fetched: Word, keys: set<Term>, key: Term)
    requires Guarded(t, content, item, fetched, keys)
    ensures Guarded(If(Equal(key, Const(item)), Select(content, Const(item)), t), content, item, fetched, keys + {key})
  {
    hide Hit;
    forall v
      ensures Eval(If(Equal(key, Const(item)), Select(content, Const(item)), t), v)
           == if Hit(keys + {key}, v, item) then At(content, v, item) else fetched
    {
      HitMore(keys, key, v, item);
      assert Holds(Equal(key, Const(item)), v) <==> Eval(key, v) == item;
      assert Eval(Select(content, Const(item)), v) == At(content, v, item);
      assert Eval(t, v) == if Hit(keys, v, item) then At(content, v, item) else fetched;
    }
  }

  lemma MoreSettled(loaded: set<Word>, chain: Chain, writes: Writes, item: Word)
    requires Settled(loaded, chain, writes) && chain(item).Some?
    ensures Settled(loaded + {item}, chain, writes)
  {
  }

  lemma WriteSettled(loaded: set<Word>, chain: Chain, writes: Writes, key: Term, value: Term)
    requires Settled(loaded, chain, writes)
    ensures Settled(if key.Const? then loaded + {key.value} else loaded, chain, writes + [(key, value)])
  {
    var more := writes + [(key, value)];
    assert more[|writes|] == (key, value);
    assert forall n :: 0 <= n < |writes| ==> more[n] == writes[n];
  }

  lemma KeysOfMore(writes: Writes, key: Term, value: Term)
    ensures KeysOf(writes + [(key, value)]) == KeysOf(writes) + {key}
  {
    var more := writes + [(key, value)];
    assert more[|writes|] == (key, value);
    assert forall n :: 0 <= n < |writes| ==> more[n] == writes[n];
  }

  lemma ReadAgrees(simplify: Term -> Term, content: Array, chain: Chain, loaded: set<Word>, initial: Array, writes: Writes, item: Term)
    requires Preserves(simplify) && Agrees(content, chain, loaded, initial, writes)
    ensures forall v :: Eval(simplify(Select(content, item)), v) == Held(chain, loaded, initial, writes, v, Eval(item, v))
  {
    hide Held;
    forall v ensures Eval(simplify(Select(content, item)), v) == Held(chain, loaded, initial, writes, v, Eval(item, v)) {
      assert Eval(Select(content, item), v) == At(content, v, Eval(item, v));
    }
  }

  // ---------- what a reader may rely on ----------

  /** The content the chain and the writes together define. */
  function Expected(chain: Chain, writes: Writes, v: Valuation, i: Word): Word
    requires chain(i).Some?
  {
    match Latest(writes, v, i)
    case Some(w) => w
    case None => chain(i).value
  }

  /** After a read at a concrete index with a chain that answers, the latest write or else the on-chain word is held. */
  lemma ConcreteReadIsExpected(chain: Chain, loaded: set<Word>, initial: Array, writes: Writes, v: Valuation, i: Word)
    requires chain(i).Some? && i in loaded
    ensures Held(chain, loaded, initial, writes, v, i) == Expected(chain, writes, v, i)
  {
  }

  /** A read at a symbolic index loads nothing. It is right exactly where its index was written or loaded, or
      the initial array happens to hold the on-chain word. */
  lemma SymbolicReadIsExpected(chain: Chain, loaded: set<Word>, initial: Array, writes: Writes, v: Valuation, i: Word)
    requires chain(i).Some?
    ensures Held(chain, loaded, initial, writes, v, i) == Expected(chain, writes, v, i)
      <==> Hit(KeysOf(writes), v, i) || i in loaded || At(initial, v, i) == chain(i).value
  {
    LatestOfKey(writes, v, i);
  }

  /** Reading at a symbol from a fresh concrete storage gives zero where the chain holds seven. */
  lemma SymbolicReadMisses(v: Valuation)
    ensures var chain := (i: Word) => Some(7 as Word);
      var i := Eval(Symbol("x"), v);
      Held(chain, {}, Filled(0), [], v, i) == 0 && Expected(chain, [], v, i) == 7
  {
  }
}
