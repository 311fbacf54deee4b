/** A small dispatcher with one split, in the shape that the Solidity compiler emits. */
module DispatcherExample {
  import opened Instructions
  import opened Grouping
  import opened Dispatcher
  import opened Machine
  import opened DispatcherPatching
  import opened DispatcherTheorem

  function Plain(address: nat, opcode: Opcode): Instr {
    Instr(address, opcode, [])
  }

  function Push1(address: nat, value: Byte): Instr {
    Instr(address, PUSH(1), [value])
  }

  function BlockFor(address: nat, first: Byte, cmp: Opcode, to: Byte): Block {
    Block(Plain(address, DUP1), Instr(address + 1, PUSH(4), [first, 0, 0, 0]), Plain(address + 6, cmp), Push1(address + 7, to), Plain(address + 9, JUMPI))
  }

  const PROLOGUE := [Plain(0, CALLDATASIZE), Push1(1, 47), Plain(3, JUMPI), Push1(4, 0)]
  const DECODE := [Push1(7, 224), Plain(9, OTHER(0x1c))]
  const SPLIT := BlockFor(13, 2, GT, 36)
  const HIGH := BlockFor(23, 3, EQ, 49)
  const LOW := BlockFor(37, 1, EQ, 48)
  const TREE := Node(SPLIT, Leaf([HIGH], Some((Push1(33, 47), Plain(35, JUMP)))), Plain(36, JUMPDEST), Leaf([LOW], None))
  const BODY := [Plain(48, JUMPDEST), Plain(49, JUMPDEST)]
  const EXAMPLE := Dispatcher(PROLOGUE, Plain(6, CALLDATALOAD), DECODE, TREE, Plain(47, JUMPDEST), BODY)

  lemma ExampleTokens()
    ensures Tokens(TREE) == [Split(SPLIT), Compare(HIGH), Exit(Push1(33, 47), Plain(35, JUMP)), Target(Plain(36, JUMPDEST)), Compare(LOW)]
  {
    assert Tokens(Leaf([HIGH], Some((Push1(33, 47), Plain(35, JUMP))))) == [Compare(HIGH), Exit(Push1(33, 47), Plain(35, JUMP))];
    assert Tokens(Leaf([LOW], None)) == [Compare(LOW)];
  }

  /** Strictly increasing addresses from `first` to `last`. */
  ghost predicate Between(s: seq<Instr>, first: nat, last: nat) {
    s != [] && s[0].address == first && s[|s| - 1].address == last && Increasing(s)
  }

  lemma Joined(a: seq<Instr>, b: seq<Instr>, i: nat, j: nat, k: nat, l: nat)
    requires Between(a, i, j) && Between(b, k, l) && j < k
    ensures Between(a + b, i, l)
  {
    var c := a + b;
    forall m, n | 0 <= m < n < |c| ensures c[m].address < c[n].address {
      assert m < |a| ==> c[m].address <= a[|a| - 1].address;
      assert n >= |a| ==> c[n].address >= b[0].address;
    }
  }

  lemma Parts()
    ensures Between(PROLOGUE, 0, 4) && Between([EXAMPLE.load], 6, 6) && Between(DECODE, 7, 9)
    ensures Between([Push1(33, 47), Plain(35, JUMP)], 33, 35) && Between([Plain(36, JUMPDEST)], 36, 36)
    ensures Between([EXAMPLE.revert], 47, 47) && Between(BODY, 48, 49)
  {
  }

  lemma BlockParts(address: nat, first: Byte, cmp: Opcode, to: Byte)
    ensures var b := BlockFor(address, first, cmp, to); Between([b.dup] + Core(b), address, address + 9)
  {
  }

  lemma ExampleCode()
    ensures |Tokens(TREE)| == 5
    ensures Code(Tokens(TREE), 5) == [SPLIT.dup] + Core(SPLIT) + ([HIGH.dup] + Core(HIGH)) + [Push1(33, 47), Plain(35, JUMP)] + [Plain(36, JUMPDEST)] + ([LOW.dup] + Core(LOW))
  {
    ExampleTokens();
    var ts := Tokens(TREE);
    assert Code(ts, 0) == [];
    assert Code(ts, 1) == [SPLIT.dup] + Core(SPLIT);
    assert Code(ts, 2) == [SPLIT.dup] + Core(SPLIT) + ([HIGH.dup] + Core(HIGH));
    assert Code(ts, 3) == Code(ts, 2) + [Push1(33, 47), Plain(35, JUMP)];
    assert Code(ts, 4) == Code(ts, 3) + [Plain(36, JUMPDEST)];
    assert Code(ts, 5) == Code(ts, 4) + ([LOW.dup] + Core(LOW));
  }

  lemma ExampleIncreases()
    ensures Increasing(CodeOf(EXAMPLE))
  {
    hide Between, Tokens, Code;
    ExampleCode();
    Parts();
    BlockParts(13, 2, GT, 36);
    BlockParts(23, 3, EQ, 49);
    BlockParts(37, 1, EQ, 48);
    var a := PROLOGUE + [EXAMPLE.load] + DECODE;
    Joined(PROLOGUE, [EXAMPLE.load], 0, 4, 6, 6);
    Joined(PROLOGUE + [EXAMPLE.load], DECODE, 0, 6, 7, 9);
    var c := [SPLIT.dup] + Core(SPLIT) + ([HIGH.dup] + Core(HIGH));
    Joined([SPLIT.dup] + Core(SPLIT), [HIGH.dup] + Core(HIGH), 13, 22, 23, 32);
    Joined(c, [Push1(33, 47), Plain(35, JUMP)], 13, 32, 33, 35);
    Joined(c + [Push1(33, 47), Plain(35, JUMP)], [Plain(36, JUMPDEST)], 13, 35, 36, 36);
    Joined(c + [Push1(33, 47), Plain(35, JUMP)] + [Plain(36, JUMPDEST)], [LOW.dup] + Core(LOW), 13, 36, 37, 46);
    var t := Code(Tokens(TREE), 5);
    Joined(a, t, 0, 9, 13, 46);
    Joined(a + t, [EXAMPLE.revert], 0, 46, 47, 47);
    Joined(a + t + [EXAMPLE.revert], BODY, 0, 47, 48, 49);
    assert CodeOf(EXAMPLE) == a + t + [EXAMPLE.revert] + BODY;
    assert Between(CodeOf(EXAMPLE), 0, 49);
    Whole();
  }

  lemma Whole()
    requires Between(CodeOf(EXAMPLE), 0, 49)
    ensures Increasing(CodeOf(EXAMPLE))
  {
    hide CodeOf;
  }

  lemma Selectors()
    ensures BigEndian([47]) == 47 && BigEndian([36]) == 36 && BigEndian([48]) == 48 && BigEndian([49]) == 49 && BigEndian([0]) == 0
    ensures ValueOf(SPLIT) == 0x2000000 && ValueOf(HIGH) == 0x3000000 && ValueOf(LOW) == 0x1000000
  {
    assert BigEndian([]) == 0;
    forall b: Byte ensures BigEndian([b]) == b && BigEndian([b, 0, 0, 0]) == b * 0x1000000 {
      assert [b][..0] == [];
      assert BigEndian([b]) == b;
      assert [b, 0][..1] == [b] && BigEndian([b, 0]) == 256 * b;
      assert [b, 0, 0][..2] == [b, 0] && BigEndian([b, 0, 0]) == 0x10000 * b;
      assert [b, 0, 0, 0][..3] == [b, 0, 0];
    }
  }

  lemma TreeIsOk()
    ensures TokensOk(Tokens(TREE), 47) && Sorted(TREE) && Linked(TREE)
  {
    hide BigEndian, Tokens;
    ExampleTokens();
    Selectors();
  }

  lemma EndsAreOk()
    ensures PrologueOk(PROLOGUE, 47) && DecodeOk(DECODE) && EntriesOk(TREE, BODY)
  {
    hide BigEndian;
    Selectors();
    assert NamesRevert(PROLOGUE, 1, 47);
    assert PROLOGUE[0].opcode == CALLDATASIZE;
    assert IsEntry(BODY, 0, 48) && IsEntry(BODY, 1, 49);
    assert Blocks(TREE) == [HIGH, LOW];
  }

  /** The example meets every condition of a well-formed dispatcher. */
  lemma ExampleIsWellFormed()
    ensures WellFormed(EXAMPLE)
  {
    hide CodeOf, Increasing, BigEndian, Tokens, TokensOk, Sorted, Linked, PrologueOk, DecodeOk, EntriesOk;
    ExampleIncreases();
    TreeIsOk();
    EndsAreOk();
  }

  /** With only the lower function kept, its selector still reaches its entry, and the other is blocked. */
  lemma ExampleIsMasked(rest: seq<nat>)
    requires |rest| + 3 <= STACK_LIMIT
    ensures WellFormed(EXAMPLE) && ScanFrom(CodeOf(EXAMPLE), 0, INITIAL).Grouped?
    ensures var start := State(Base(EXAMPLE), rest + [0x1000000]);
      Reaches(MaskedList(EXAMPLE, {KeyOf(LOW)}), Limit(EXAMPLE), start, State(Destination(EXAMPLE, AllKeys(EXAMPLE), 0x1000000), rest + [0x1000000]))
    ensures var start := State(Base(EXAMPLE), rest + [0x3000000]);
      Reaches(MaskedList(EXAMPLE, {KeyOf(LOW)}), Limit(EXAMPLE), start, State(Limit(EXAMPLE), rest + [0x3000000]))
  {
    hide Reaches, MaskedList, WellFormed, Limit, Base, ScanFrom, CodeOf, BigEndian;
    ExampleIsWellFormed();
    Selectors();
    MaskingPreservesDispatch(EXAMPLE, {KeyOf(LOW)}, rest, 0x1000000);
    MaskingPreservesDispatch(EXAMPLE, {KeyOf(LOW)}, rest, 0x3000000);
    assert Lookup(TREE, 0x1000000) == Some(LOW) && Lookup(TREE, 0x3000000) == Some(HIGH);
    assert KeyOf(LOW) != KeyOf(HIGH);
  }
}
