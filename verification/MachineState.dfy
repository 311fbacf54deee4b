/** Gas and memory of a machine state. */
module MachineState {
  import opened Instructions
  import opened Storage
  import opened Memory

  // ---------- the price of memory ----------

  const GAS_MEMORY := 3
  const GAS_MEMORY_QUADRATIC_DENOMINATOR := 512

  /** Words that hold `n` bytes. */
  function Words(n: nat): nat {
    (if n % 32 == 0 then n else n + 32 - n % 32) / 32
  }

  /** The cost of `w` words, as in Appendix H of the Yellow Paper. */
  function Fee(w: nat): nat {
    w * GAS_MEMORY + w * w / GAS_MEMORY_QUADRATIC_DENOMINATOR
  }

  function ExtensionSize(memorySize: nat, start: nat, size: nat): int {
    if memorySize > start + size then 0 else (Words(start + size) - memorySize / 32) * 32
  }

  function MemoryGas(memorySize: nat, start: nat, size: nat): int {
    Fee(Words(start + size)) - Fee(memorySize / 32)
  }

  /** An access to a range of memory. */
  datatype Access = Access(start: nat, size: nat)

  /** The words of memory after an access. */
  function Grown(words: nat, a: Access): nat {
    if Words(a.start + a.size) > words then Words(a.start + a.size) else words
  }

  function GrownAll(words: nat, accesses: seq<Access>): nat {
    if accesses == [] then words else Grown(GrownAll(words, accesses[..|accesses| - 1]), accesses[|accesses| - 1])
  }

  /** The gas of all accesses, each priced when it happens. */
  function Paid(words: nat, accesses: seq<Access>): int {
    if accesses == [] then 0
    else
      var n := |accesses| - 1;
      var before := GrownAll(words, accesses[..n]);
      Paid(words, accesses[..n]) + if ExtensionSize(32 * before, accesses[n].start, accesses[n].size) != 0
                                   then MemoryGas(32 * before, accesses[n].start, accesses[n].size) else 0
  }

  lemma FeeGrows(a: nat, b: nat)
    requires a <= b
    ensures Fee(a) <= Fee(b)
  {
    Squares(a, b);
  }

  lemma Squares(a: nat, b: nat)
    requires a <= b
    ensures a * a <= b * b
  {
    assert a * a <= a * b;
    assert a * b <= b * b;
  }

  /** The charge of an access in numbers: three for every further word, and the growth of the 512th part of
      the square of the words. */
  lemma ChargeInNumbers(words: nat, start: nat, size: nat)
    ensures var w := if (start + size + 31) / 32 > words then (start + size + 31) / 32 else words;
      && Grown(words, Access(start, size)) == w
      && Fee(Grown(words, Access(start, size))) - Fee(words) == 3 * (w - words) + (w * w / 512 - words * words / 512)
  {
  }

  lemma ExtensionIsGrowth(words: nat, start: nat, size: nat)
    ensures ExtensionSize(32 * words, start, size) == 32 * (Grown(words, Access(start, size)) - words)
    ensures 32 * Grown(words, Access(start, size)) >= start + size
  {
  }

  /** Gas telescopes: whatever the accesses, their sum is the difference of two costs. */
  lemma {:induction false} GasTelescopes(words: nat, accesses: seq<Access>)
    ensures Paid(words, accesses) == Fee(GrownAll(words, accesses)) - Fee(words)
  {
    hide Fee;
    if accesses != [] {
      var n := |accesses| - 1;
      GasTelescopes(words, accesses[..n]);
      ExtensionIsGrowth(GrownAll(words, accesses[..n]), accesses[n].start, accesses[n].size);
    }
  }

  /** Memory never shrinks and covers every access; it is no larger than the start or one of the accesses needs. */
  lemma {:induction false} GrownIsLargest(words: nat, accesses: seq<Access>)
    ensures GrownAll(words, accesses) >= words
    ensures forall a :: a in accesses ==> 32 * GrownAll(words, accesses) >= a.start + a.size && GrownAll(words, accesses) >= Words(a.start + a.size)
    ensures GrownAll(words, accesses) == words || exists a :: a in accesses && GrownAll(words, accesses) == Words(a.start + a.size)
  {
    hide Words;
    if accesses != [] {
      var n := |accesses| - 1;
      GrownIsLargest(words, accesses[..n]);
      assert accesses == accesses[..n] + [accesses[n]];
      WordsCover(accesses[n].start + accesses[n].size);
    }
  }

  lemma WordsCover(n: nat)
    ensures 32 * Words(n) >= n
  {
  }

  /** Neither the final size nor the total gas depends on the order of the accesses. */
  lemma OrderDoesNotMatter(words: nat, a: seq<Access>, b: seq<Access>)
    requires multiset(a) == multiset(b)
    ensures GrownAll(words, a) == GrownAll(words, b) && Paid(words, a) == Paid(words, b)
  {
    hide Words, Fee, Paid, GrownAll;
    GrownIsLargest(words, a);
    GrownIsLargest(words, b);
    forall x ensures x in a <==> x in b {
      assert x in a <==> x in multiset(a);
      assert x in b <==> x in multiset(b);
    }
    GasTelescopes(words, a);
    GasTelescopes(words, b);
  }

  /** The size after an access in the Yellow Paper, where an empty range needs no memory. */
  function YellowPaper(words: nat, a: Access): nat {
    if a.size == 0 then words else Grown(words, a)
  }

  /** The code extends memory even for an empty range, unless its start is covered already. */
  lemma EmptyRangeExtends(words: nat, a: Access)
    ensures Grown(words, a) == YellowPaper(words, a) <==> a.size > 0 || a.start <= 32 * words
  {
  }

  /** Memory whose price fits a word of gas is far from the sign bit of addresses. */
  lemma PaidMemoryIsSmall(w: nat)
    requires Fee(w) < WORDS
    ensures 32 * w < WORDS / 2
  {
    var bound := 0x20_00000000_00000000_00000000_00000000;
    if w >= bound {
      Squares(bound, w);
    }
  }

  // ---------- the plain array ----------

  /** Writes in the order they happened: single bytes from an offset on, or a word. */
  datatype Write = Bytes(offset: Word, cells: seq<Cell>) | Whole(offset: Word, value: Input)

  /** The content of a zero-initialised byte array after some writes. */
  function Plain(writes: seq<Write>, v: Valuation, a: Word): Byte {
    if writes == [] then 0
    else
      var n := |writes| - 1;
      match writes[n]
      case Bytes(offset, cells) => if Off(a, offset) < |cells| then CellAt(cells[Off(a, offset)], v) else Plain(writes[..n], v, a)
      case Whole(offset, value) => if Off(a, offset) < 32 then WordByte(value, v, Off(a, offset)) else Plain(writes[..n], v, a)
  }

  /** The 32 bytes of the plain array from an address on. */
  function PlainBytes(writes: seq<Write>, v: Valuation, index: Word): (r: seq<Byte>)
    ensures |r| == 32
  {
    seq(32, k requires 0 <= k < 32 => Plain(writes, v, Plus(index, k)))
  }

  /** Reading back a word that was just written gives the word. */
  lemma WordRoundTrip(writes: seq<Write>, v: Valuation, index: Word, value: Input)
    ensures BigEndian(PlainBytes(writes + [Whole(index, value)], v, index)) == Meaning(value, v)
  {
    hide BigEndian, Meaning, LowByte;
    var all := writes + [Whole(index, value)];
    var w := Meaning(value, v);
    WordsHave32Bytes();
    BytesRoundTrip(w, 32);
    forall k | 0 <= k < 32 ensures PlainBytes(all, v, index)[k] == ToBytes(w, 32)[k] {
      OffPlus(index, k);
      ToBytesAt(w, 32, k);
    }
    assert PlainBytes(all, v, index) == ToBytes(w, 32);
  }

  /** Single bytes show at their distance from the offset, counted modulo 2^256, and nothing else changes. */
  lemma BytesReadBack(writes: seq<Write>, v: Valuation, offset: Word, cells: seq<Cell>, a: Word)
    ensures var k := (a - offset) % 0x1_00000000_00000000_00000000_00000000_00000000_00000000_00000000_00000000;
      Plain(writes + [Bytes(offset, cells)], v, a) == if k < |cells| then CellAt(cells[k], v) else Plain(writes, v, a)
    ensures Plain([], v, a) == 0
  {
    var all := writes + [Bytes(offset, cells)];
    assert all[|writes|] == Bytes(offset, cells) && all[..|writes|] == writes;
    Distance(a, offset);
  }

  lemma Distance(a: Word, offset: Word)
    ensures Off(a, offset) == (a - offset) % WORDS
  {
  }

  /** A word changes nothing outside its 32 bytes. */
  lemma WordStaysInside(writes: seq<Write>, v: Valuation, offset: Word, value: Input, a: Word)
    requires (a - offset) % 0x1_00000000_00000000_00000000_00000000_00000000_00000000_00000000_00000000 >= 32
    ensures Plain(writes + [Whole(offset, value)], v, a) == Plain(writes, v, a)
  {
    var all := writes + [Whole(offset, value)];
    assert all[|writes|] == Whole(offset, value) && all[..|writes|] == writes;
    Distance(a, offset);
  }

  /** The memory holds what the plain array holds. */
  ghost predicate Mirrors(cells: Cells, writes: seq<Write>) {
    forall v, a :: CellAt(GetIn(cells, a), v) == Plain(writes, v, a)
  }

  lemma WindowMirrors(cells: Cells, writes: seq<Write>, v: Valuation, index: Word)
    requires Mirrors(cells, writes)
    ensures CellBytes(Window(cells, index, 32), v) == PlainBytes(writes, v, index)
  {
    hide Plain, CellAt, GetIn;
  }

  lemma WroteBytes(before: Cells, after: Cells, writes: seq<Write>, offset: Word, data: seq<Cell>)
    requires Mirrors(before, writes)
    requires forall a :: GetIn(after, a) == if Off(a, offset) < |data| then data[Off(a, offset)] else GetIn(before, a)
    ensures Mirrors(after, writes + [Bytes(offset, data)])
  {
    hide CellAt, GetIn;
    var all := writes + [Bytes(offset, data)];
    assert all[..|writes|] == writes;
  }

  lemma WroteWord(before: Cells, after: Cells, writes: seq<Write>, offset: Word, value: Input)
    requires Mirrors(before, writes)
    requires forall v, a :: CellAt(GetIn(after, a), v) == if Off(a, offset) < 32 then WordByte(value, v, Off(a, offset)) else CellAt(GetIn(before, a), v)
    ensures Mirrors(after, writes + [Whole(offset, value)])
  {
    hide CellAt, GetIn, WordByte;
    var all := writes + [Whole(offset, value)];
    assert all[..|writes|] == writes && all[|writes|] == Whole(offset, value);
    forall v, a ensures CellAt(GetIn(after, a), v) == Plain(all, v, a) {
      assert CellAt(GetIn(before, a), v) == Plain(writes, v, a);
    }
  }

  /** Inside memory that is below the sign bit, the bounds test lets every write through. */
  lemma CoveredLands(size: nat, a: Word, offset: Word, n: nat)
    requires size < WORDS / 2 && offset + n <= size && Off(a, offset) < n
    ensures Signed(a) < Signed(size % WORDS)
  {
    assert size % WORDS == size;
  }

  class MachineState {
    const gasLimit: nat
    const memory: Memory
    var minGasUsed: nat
    var maxGasUsed: nat
    /** All writes so far. */
    ghost var writes: seq<Write>

    constructor (gasLimit: nat, minGasUsed: nat, maxGasUsed: nat)
      requires gasLimit < WORDS
      ensures Valid() && fresh(memory) && memory.size == 0 && writes == []
      ensures this.gasLimit == gasLimit && this.minGasUsed == minGasUsed && this.maxGasUsed == maxGasUsed
    {
      this.gasLimit, this.minGasUsed, this.maxGasUsed, writes := gasLimit, minGasUsed, maxGasUsed, [];
      memory := new Memory();
    }

    /** Whole words, paid for within the limit, with the content of the plain array. */
    ghost predicate Valid()
      reads this`minGasUsed, this`writes, memory
    {
      && gasLimit < WORDS
      && memory.size % 32 == 0
      && Fee(memory.size / 32) <= gasLimit && Fee(memory.size / 32) <= minGasUsed
      && Mirrors(memory.cells, writes)
    }

    /** An access costs the difference of the fees, whether or not it can be paid. */
    ghost predicate Charged(min0: nat, max0: nat, size0: nat, start: nat, size: nat)
      reads this`minGasUsed, this`maxGasUsed
    {
      && minGasUsed - min0 == Fee(Grown(size0 / 32, Access(start, size))) - Fee(size0 / 32)
      && maxGasUsed - max0 == minGasUsed - min0
    }

    /** Raises out-of-gas after charging and before extending. */
    method MemExtend(start: nat, size: nat) returns (ok: bool)
      requires Valid()
      modifies this`minGasUsed, this`maxGasUsed, memory`size
      ensures ok ==> Valid() && memory.size == 32 * Grown(old(memory.size) / 32, Access(start, size)) && start + size <= memory.size
      ensures !ok ==> memory.size == old(memory.size) && minGasUsed > gasLimit
      ensures Charged(old(minGasUsed), old(maxGasUsed), old(memory.size), start, size)
    {
      hide Fee, Mirrors;
      var extend := ExtensionSize(memory.size, start, size);
      ghost var words := memory.size / 32;
      assert memory.size == 32 * words;
      ExtensionIsGrowth(words, start, size);
      FeeGrows(words, Grown(words, Access(start, size)));
      if extend != 0 {
        var gas := MemoryGas(memory.size, start, size);
        minGasUsed := minGasUsed + gas;
        maxGasUsed := maxGasUsed + gas;
        if minGasUsed > gasLimit {
          return false;
        }
        memory.Extend(extend);
      }
      ok := true;
    }

    /** Extends the memory, then writes. */
    method MemoryWrite(offset: Word, data: seq<Cell>) returns (ok: bool)
      requires Valid() && |data| < WORDS
      modifies this`minGasUsed, this`maxGasUsed, this`writes, memory
      ensures ok ==> Valid() && writes == old(writes) + [Bytes(offset, data)]
      ensures ok ==> memory.size == 32 * Grown(old(memory.size) / 32, Access(offset, |data|))
      ensures !ok ==> minGasUsed > gasLimit && memory.size == old(memory.size) && memory.cells == old(memory.cells) && writes == old(writes)
      ensures Charged(old(minGasUsed), old(maxGasUsed), old(memory.size), offset, |data|)
    {
      hide Fee, Mirrors;
      ok := MemExtend(offset, |data|);
      if ok {
        PaidMemoryIsSmall(memory.size / 32);
        ghost var before := memory.cells;
        memory.SetSlice(offset, data);
        forall a | Off(a, offset) < |data| ensures memory.Lands(a) {
          CoveredLands(memory.size, a, offset, |data|);
        }
        forall a ensures GetIn(memory.cells, a) == if Off(a, offset) < |data| then data[Off(a, offset)] else GetIn(before, a) {
        }
        WroteBytes(before, memory.cells, writes, offset, data);
        writes := writes + [Bytes(offset, data)];
      }
    }

    /** A word store: running out of gas while extending does not keep it from writing what fits. */
    method StoreWord(offset: Word, value: Input) returns (ok: bool)
      requires Valid()
      modifies this`minGasUsed, this`maxGasUsed, this`writes, memory
      ensures ok ==> Valid() && writes == old(writes) + [Whole(offset, value)]
      ensures ok ==> memory.size == 32 * Grown(old(memory.size) / 32, Access(offset, 32))
      ensures !ok ==> minGasUsed > gasLimit && memory.size == old(memory.size) && writes == old(writes)
      ensures forall v, a :: CellAt(GetIn(memory.cells, a), v) == if Off(a, offset) < 32 && memory.Lands(a) then WordByte(value, v, Off(a, offset)) else CellAt(GetIn(old(memory.cells), a), v)
      ensures Charged(old(minGasUsed), old(maxGasUsed), old(memory.size), offset, 32)
    {
      hide Fee, Mirrors, WordByte, CellAt;
      ok := MemExtend(offset, 32);
      ghost var before := memory.cells;
      memory.WriteWordAt(offset, value);
      if ok {
        PaidMemoryIsSmall(memory.size / 32);
        forall a | Off(a, offset) < 32 ensures memory.Lands(a) {
          CoveredLands(memory.size, a, offset, 32);
        }
        forall v, a ensures CellAt(GetIn(memory.cells, a), v) == if Off(a, offset) < 32 then WordByte(value, v, Off(a, offset)) else CellAt(GetIn(before, a), v) {
          assert Off(a, offset) < 32 ==> memory.Lands(a);
        }
        WroteWord(before, memory.cells, writes, offset, value);
        writes := writes + [Whole(offset, value)];
      }
    }

    /** A byte store: out of gas stops it. */
    method StoreByte(offset: Word, value: Value) returns (ok: bool)
      requires Valid()
      modifies this`minGasUsed, this`maxGasUsed, this`writes, memory
      ensures ok ==> Valid() && exists c :: writes == old(writes) + [Bytes(offset, [c])] && forall v :: CellAt(c, v) == Eval(AsTerm(value), v) % 256
      ensures ok ==> memory.size == 32 * Grown(old(memory.size) / 32, Access(offset, 1))
      ensures !ok ==> minGasUsed > gasLimit && memory.size == old(memory.size) && memory.cells == old(memory.cells) && writes == old(writes)
      ensures Charged(old(minGasUsed), old(maxGasUsed), old(memory.size), offset, 1)
    {
      hide Fee, Mirrors;
      var term := AsTerm(value);
      var cell := if term.Const? then Number(term.value % 256) else Extract(term, 0);
      ok := MemoryWrite(offset, [cell]);
    }

    /** A word load reads the plain array, unless joining symbolic bytes raises. */
    method LoadWord(index: Word, raises: bool) returns (ok: bool, r: Content)
      requires Valid()
      modifies this`minGasUsed, this`maxGasUsed, memory`size
      ensures ok ==> Valid()
      ensures ok && raises && HasSymbolic(Window(memory.cells, index, 32)) ==> r == Known(0)
      ensures ok && !(raises && HasSymbolic(Window(memory.cells, index, 32))) ==> forall v :: ContentWord(r, v) == BigEndian(PlainBytes(writes, v, index))
      ensures !ok ==> minGasUsed > gasLimit && memory.size == old(memory.size)
      ensures Charged(old(minGasUsed), old(maxGasUsed), old(memory.size), index, 32)
    {
      hide Fee, Mirrors, PlainBytes, CellBytes, Window;
      r := Known(0);
      ok := MemExtend(index, 32);
      if ok {
        r := memory.GetWordAt(index, raises);
        forall v ensures CellBytes(Window(memory.cells, index, 32), v) == PlainBytes(writes, v, index) {
          WindowMirrors(memory.cells, writes, v, index);
        }
      }
    }
  }
}
