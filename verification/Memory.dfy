/** The memory of a machine state: a dictionary from byte addresses to concrete or symbolic bytes. */
module Memory {
  import opened Instructions
  import opened Storage

  // ---------- bytes of words ----------

  function Place(n: nat): nat {
    if n == 0 then 1 else 256 * Place(n - 1)
  }

  /** Byte `k` of a word, counted from the low end. */
  function LowByte(w: nat, k: nat): Byte {
    if k == 0 then w % 256 else LowByte(w / 256, k - 1)
  }

  function ToBytes(w: nat, n: nat): (r: seq<Byte>)
    ensures |r| == n
  {
    if n == 0 then [] else ToBytes(w / 256, n - 1) + [w % 256]
  }

  lemma {:induction false} ToBytesAt(w: nat, n: nat, j: nat)
    requires j < n
    ensures ToBytes(w, n)[j] == LowByte(w, n - 1 - j)
  {
    if j < n - 1 {
      ToBytesAt(w / 256, n - 1, j);
    }
  }

  lemma {:induction false} BytesRoundTrip(w: nat, n: nat)
    requires w < Place(n)
    ensures BigEndian(ToBytes(w, n)) == w
  {
    if n > 0 {
      BytesRoundTrip(w / 256, n - 1);
      assert ToBytes(w, n)[..n - 1] == ToBytes(w / 256, n - 1);
    }
  }

  lemma {:induction false} BigEndianBound(s: seq<Byte>)
    ensures BigEndian(s) < Place(|s|)
  {
    if s != [] {
      BigEndianBound(s[..|s| - 1]);
    }
  }

  lemma {:induction false} PlaceSum(m: nat, n: nat)
    ensures Place(m + n) == Place(m) * Place(n)
  {
    if m > 0 {
      PlaceSum(m - 1, n);
      assert Place(m + n) == 256 * (Place(m - 1) * Place(n));
    }
  }

  lemma WordsHave32Bytes()
    ensures Place(32) == WORDS
  {
    var two := Place(2);
    assert two == 0x1_0000;
    PlaceSum(2, 2);
    PlaceSum(4, 4);
    PlaceSum(8, 8);
    PlaceSum(16, 16);
  }

  // ---------- cells ----------

  /** A concrete byte, or byte `place` from the low end of a symbolic word. */
  datatype Cell = Number(number: Byte) | Extract(word: Term, place: nat)

  function CellAt(c: Cell, v: Valuation): Byte {
    match c
    case Number(b) => b
    case Extract(t, place) => LowByte(Eval(t, v), place)
  }

  function CellBytes(cells: seq<Cell>, v: Valuation): (r: seq<Byte>)
    ensures |r| == |cells|
  {
    seq(|cells|, i requires 0 <= i < |cells| => CellAt(cells[i], v))
  }

  /** What is read: a number, or the concatenation of bytes of which some are symbolic. */
  datatype Content = Known(number: Word) | Concat(cells: seq<Cell>)

  function ContentWord(c: Content, v: Valuation): nat {
    match c
    case Known(w) => w
    case Concat(cells) => BigEndian(CellBytes(cells, v))
  }

  /** What can be written as a word. */
  datatype Input = Int(number: Word) | Python(truth: bool) | Symbolic(value: Value)

  function Meaning(x: Input, v: Valuation): Word {
    match x
    case Int(w) => w
    case Python(b) => if b then 1 else 0
    case Symbolic(value) => Eval(AsTerm(value), v)
  }

  /** Byte `j` of an input, counted from the high end of its 32 bytes. */
  function WordByte(x: Input, v: Valuation, j: nat): Byte
    requires j < 32
  {
    LowByte(Meaning(x, v), 31 - j)
  }

  /** The number that an input is known to be. */
  function Concretized(x: Input): (r: Option<Word>)
    ensures r.Some? ==> forall v :: Meaning(x, v) == r.value
  {
    match x
    case Int(w) => Some(w)
    case Python(b) => Some(if b then 1 else 0)
    case Symbolic(Bits(Const(w))) => Some(w)
    case Symbolic(_) => None
  }

  // ---------- addresses ----------

  /** Addresses wrap around at 2^256. */
  function Plus(start: Word, k: nat): Word
    requires k < WORDS
  {
    if start + k < WORDS then start + k else start + k - WORDS
  }

  /** The distance from `start` up to `a`. */
  function Off(a: Word, start: Word): nat {
    if a >= start then a - start else a - start + WORDS
  }

  lemma OffPlus(start: Word, k: nat)
    requires k < WORDS
    ensures Off(Plus(start, k), start) == k
  {
  }

  function Signed(w: int): int
    requires 0 <= w < WORDS
  {
    if w < WORDS / 2 then w else w - WORDS
  }

  type Cells = map<Word, Cell>

  function GetIn(cells: Cells, a: Word): Cell {
    if a in cells then cells[a] else Number(0)
  }

  /** `n` cells from an address on. */
  function Window(cells: Cells, start: Word, n: nat): (r: seq<Cell>)
    requires n < WORDS
    ensures |r| == n
  {
    seq(n, k requires 0 <= k < n => GetIn(cells, Plus(start, k)))
  }

  function Numbers(cells: seq<Cell>): (r: seq<Byte>)
    requires forall c :: c in cells ==> c.Number?
    ensures |r| == |cells|
  {
    seq<Byte>(|cells|, i requires 0 <= i < |cells| => cells[i].number)
  }

  predicate HasSymbolic(cells: seq<Cell>) {
    exists c :: c in cells && !c.Number?
  }

  lemma NumbersAreKnown(cells: seq<Cell>, v: Valuation)
    requires forall c :: c in cells ==> c.Number?
    ensures CellBytes(cells, v) == Numbers(cells)
  {
    assert forall i :: 0 <= i < |cells| ==> cells[i] in cells;
  }

  // ---------- the class ----------

  class Memory {
    var size: nat
    var cells: Cells

    constructor ()
      ensures size == 0 && cells == map[]
    {
      size, cells := 0, map[];
    }

    method Copy() returns (copy: Memory)
      ensures fresh(copy) && copy.size == size && copy.cells == cells
    {
      copy := new Memory();
      copy.cells := cells;
      copy.size := size;
    }

    method Extend(n: nat)
      modifies this`size
      ensures size == old(size) + n
    {
      size := size + n;
    }

    function Get(a: Word): Cell
      reads this`cells
    {
      GetIn(cells, a)
    }

    /** The bounds test compares as signed 256-bit numbers. */
    predicate Lands(a: Word)
      reads this`size
    {
      Signed(a) < Signed(size % WORDS)
    }

    /** In numbers: addresses and size from 2^255 on count as negative. */
    lemma LandsExactly(a: Word)
      ensures Lands(a) <==>
        var half, s := 0x80000000_00000000_00000000_00000000_00000000_00000000_00000000_00000000, size % (2 * 0x80000000_00000000_00000000_00000000_00000000_00000000_00000000_00000000);
        if a < half then s < half && a < s else s < half || a < s
    {
    }

    /** A write behind the end of memory is dropped. */
    method SetByte(a: Word, c: Cell)
      modifies this`cells
      ensures forall b :: GetIn(cells, b) == if b == a && Lands(a) then c else GetIn(old(cells), b)
    {
      if Signed(a) >= Signed(size % WORDS) {
        return;
      }
      cells := cells[a := c];
    }

    method GetSlice(start: Word, count: nat) returns (r: seq<Cell>)
      requires count < WORDS
      ensures r == Window(cells, start, count)
    {
      r := [];
      var itr := 0;
      while itr != count
        invariant 0 <= itr <= count && |r| == itr
        invariant forall k :: 0 <= k < itr ==> r[k] == GetIn(cells, Plus(start, k))
      {
        r := r + [Get(Plus(start, itr))];
        itr := itr + 1;
      }
    }

    method SetSlice(start: Word, values: seq<Cell>)
      requires |values| < WORDS
      modifies this`cells
      ensures forall a :: GetIn(cells, a) == if Off(a, start) < |values| && Lands(a) then values[Off(a, start)] else GetIn(old(cells), a)
    {
      var itr := 0;
      while itr != |values|
        invariant 0 <= itr <= |values|
        invariant forall a :: GetIn(cells, a) == if Off(a, start) < itr && Lands(a) then values[Off(a, start)] else GetIn(old(cells), a)
      {
        OffPlus(start, itr);
        SetByte(Plus(start, itr), values[itr]);
        itr := itr + 1;
      }
    }

    /** Big-endian reading; a known number when every byte is known. When joining symbolic bytes raises, the
        word is taken to be zero. */
    method GetWordAt(index: Word, raises: bool) returns (r: Content)
      ensures raises && HasSymbolic(Window(cells, index, 32)) ==> r == Known(0)
      ensures !(raises && HasSymbolic(Window(cells, index, 32))) ==> forall v :: ContentWord(r, v) == BigEndian(CellBytes(Window(cells, index, 32), v))
    {
      hide BigEndian, Place, CellBytes, Window;
      var slice := GetSlice(index, 32);
      if !HasSymbolic(slice) {
        BigEndianBound(Numbers(slice));
        WordsHave32Bytes();
        r := Known(BigEndian(Numbers(slice)));
        forall v ensures CellBytes(slice, v) == Numbers(slice) {
          NumbersAreKnown(slice, v);
        }
      } else if raises {
        r := Known(0);
      } else {
        r := Concat(slice);
      }
    }

    /** Writes the bytes of a known number in one go, and those of a symbolic word one by one from the low end. */
    method WriteWordAt(index: Word, value: Input)
      modifies this`cells
      ensures forall v, a :: CellAt(GetIn(cells, a), v) == if Off(a, index) < 32 && Lands(a) then WordByte(value, v, Off(a, index)) else CellAt(GetIn(old(cells), a), v)
    {
      match Concretized(value) {
        case Some(w) =>
          var bytes := ToBytes(w, 32);
          forall j | 0 <= j < 32 ensures bytes[j] == LowByte(w, 31 - j) {
            ToBytesAt(w, 32, j);
          }
          SetSlice(index, seq(32, k requires 0 <= k < 32 => Number(bytes[k])));
        case None =>
          var term := AsTerm(value.value);
          for i := 0 to 32
            invariant forall a :: GetIn(cells, a) == if 32 - i <= Off(a, index) < 32 && Lands(a) then Extract(term, 31 - Off(a, index)) else GetIn(old(cells), a)
          {
            OffPlus(index, 31 - i);
            SetByte(Plus(index, 31 - i), Extract(term, i));
          }
      }
    }
  }
}
