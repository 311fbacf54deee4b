/** Linear-sweep disassembly and the lookup of instructions by address. */
module Disassembler {
  import opened Instructions
  import opened Grouping

  // ---------- opcodes ----------

  /** The bytes that name an instruction. */
  predicate Named(b: Byte) {
    || b <= 0x0b || 0x10 <= b <= 0x1d || b == 0x20 || 0x30 <= b <= 0x48 || 0x50 <= b <= 0x5e || 0x60 <= b <= 0x9f
    || 0xa0 <= b <= 0xa4 || 0xf0 <= b <= 0xf5 || b == 0xfa || 0xfd <= b <= 0xff
  }

  function OpcodeOf(b: Byte): Opcode {
    if !Named(b) || b == 0xfe then INVALID
    else if b == 0x11 then GT
    else if b == 0x14 then EQ
    else if b == 0x35 then CALLDATALOAD
    else if b == 0x36 then CALLDATASIZE
    else if b == 0x56 then JUMP
    else if b == 0x57 then JUMPI
    else if b == 0x5b then JUMPDEST
    else if 0x60 <= b <= 0x7f then PUSH(b - 0x5f)
    else if b == 0x80 then DUP1
    else OTHER(b)
  }

  function DataSize(op: Opcode): nat {
    match op
    case PUSH(n) => n
    case DUP1 => 0
    case CALLDATASIZE => 0
    case CALLDATALOAD => 0
    case JUMPDEST => 0
    case EQ => 0
    case GT => 0
    case JUMP => 0
    case JUMPI => 0
    case EMPTY => 0
    case INVALID => 0
    case OTHER(_) => 0
  }

  function Slice(code: seq<Byte>, from: nat, to: nat): seq<Byte>
    requires from <= to
  {
    code[if from <= |code| then from else |code|..if to <= |code| then to else |code|]
  }

  /** The instruction at an address; the data of a push may be cut off by the end of the code. */
  function InstrAt(code: seq<Byte>, i: nat): Instr
    requires i < |code|
  {
    var op := OpcodeOf(code[i]);
    Instr(i, op, Slice(code, i + 1, i + 1 + DataSize(op)))
  }

  function NextAddress(code: seq<Byte>, i: nat): nat
    requires i < |code|
  {
    i + 1 + DataSize(OpcodeOf(code[i]))
  }

  // ---------- the metadata trailer ----------

  /** The printed form of a byte ends in `b`: the letter itself, or a byte printed in hexadecimal with that last digit. */
  predicate PrintsB(b: Byte) {
    b == 0x62 || (b % 16 == 11 && (b < 0x20 || b >= 0x7f))
  }

  /** The printed form of some bytes contains `bzzr`. */
  predicate Mentions(s: seq<Byte>) {
    exists i :: 0 <= i && i + 4 <= |s| && PrintsB(s[i]) && s[i + 1] == 0x7a && s[i + 2] == 0x7a && s[i + 3] == 0x72
  }

  /** How many bytes are swept: all, or all but the last 43 when these mention the Swarm hash. */
  function SweptLength(code: seq<Byte>): int {
    var tail := if |code| >= 43 then code[|code| - 43..] else code;
    if Mentions(tail) then |code| - 43 else |code|
  }

  function Swept(code: seq<Byte>): seq<Byte> {
    if SweptLength(code) <= 0 then [] else code[..SweptLength(code)]
  }

  /** 0x7a7a72 behind a byte whose printed form ends in `b`. */
  predicate HasMark(code: seq<Byte>, i: nat) {
    && i + 4 <= |code| && code[i + 1] == 0x7a && code[i + 2] == 0x7a && code[i + 3] == 0x72
    && (code[i] == 0x62 || (code[i] % 16 == 0xb && (code[i] <= 0x1f || 0x7f <= code[i])))
  }

  /** The code is swept whole, unless the mark is among its last 43 bytes, or anywhere in a shorter code; then
      43 bytes are left out at the end. */
  lemma SweptExactly(code: seq<Byte>)
    ensures SweptLength(code) == if exists i: nat :: |code| - 43 <= i && HasMark(code, i) then |code| - 43 else |code|
  {
    hide HasMark, Mentions;
    var from := if |code| >= 43 then |code| - 43 else 0;
    MarkedFrom(code, from);
    assert code[0..] == code;
  }

  lemma MarkedFrom(code: seq<Byte>, from: nat)
    requires from <= |code|
    ensures Mentions(code[from..]) <==> exists i: nat :: from <= i && HasMark(code, i)
  {
    hide HasMark, Mentions;
    if Mentions(code[from..]) {
      var j := MentionedMark(code[from..]);
      MarkShifts(code, from, j);
    }
    if i: nat :| from <= i && HasMark(code, i) {
      MarkShifts(code, from, i - from);
      MarkIsMentioned(code[from..], i - from);
    }
  }

  lemma MarkShifts(code: seq<Byte>, from: nat, j: nat)
    requires from <= |code|
    ensures HasMark(code[from..], j) <==> HasMark(code, from + j)
  {
  }

  lemma MarkIsMentioned(s: seq<Byte>, j: nat)
    requires HasMark(s, j)
    ensures Mentions(s)
  {
    assert PrintsB(s[j]) && s[j + 1] == 0x7a && s[j + 2] == 0x7a && s[j + 3] == 0x72;
  }

  lemma MentionedMark(s: seq<Byte>) returns (j: nat)
    requires Mentions(s)
    ensures HasMark(s, j)
  {
    j :| 0 <= j && j + 4 <= |s| && PrintsB(s[j]) && s[j + 1] == 0x7a && s[j + 2] == 0x7a && s[j + 3] == 0x72;
  }

  // ---------- the sweep ----------

  function SweepFrom(code: seq<Byte>, length: int, i: nat): seq<Instr>
    requires length <= |code|
    decreases length - i
  {
    if i >= length then [] else [InstrAt(code, i)] + SweepFrom(code, length, NextAddress(code, i))
  }

  function Sweep(code: seq<Byte>): seq<Instr> {
    SweepFrom(code, SweptLength(code), 0)
  }

  method Disassemble(bytecode: seq<Byte>) returns (list: seq<Instr>)
    ensures list == Sweep(bytecode)
  {
    hide SweepFrom, InstrAt, NextAddress, OpcodeOf, Named, Slice, Mentions, DataSize;
    list := [];
    var address := 0;
    var length := |bytecode|;
    var part := if |bytecode| >= 43 then bytecode[|bytecode| - 43..] else bytecode;
    if Mentions(part) {
      length := length - 43;
    }
    while address < length
      invariant 0 <= address
      invariant SweepFrom(bytecode, length, 0) == list + SweepFrom(bytecode, length, address)
      decreases length - address
    {
      SweepStep(bytecode, length, address);
      Regroup(list, [InstrAt(bytecode, address)], SweepFrom(bytecode, length, NextAddress(bytecode, address)));
      if !Named(bytecode[address]) {
        list := list + [Instr(address, INVALID, [])];
        address := address + 1;
        continue;
      }
      var op := OpcodeOf(bytecode[address]);
      var instr := Instr(address, op, []);
      if op.PUSH? {
        instr := Instr(address, op, Slice(bytecode, address + 1, address + 1 + op.size));
        address := address + op.size;
      }
      list := list + [instr];
      address := address + 1;
    }
    SweepDone(bytecode, length, address);
  }

  lemma SweepDone(code: seq<Byte>, length: int, i: nat)
    requires length <= |code| && length <= i
    ensures SweepFrom(code, length, i) == []
  {
  }

  lemma Regroup(a: seq<Instr>, b: seq<Instr>, c: seq<Instr>)
    ensures a + (b + c) == (a + b) + c
  {
  }

  lemma SweepStep(code: seq<Byte>, length: int, i: nat)
    requires i < length <= |code|
    ensures SweepFrom(code, length, i) == [InstrAt(code, i)] + SweepFrom(code, length, NextAddress(code, i))
    ensures !Named(code[i]) ==> InstrAt(code, i) == Instr(i, INVALID, []) && NextAddress(code, i) == i + 1
    ensures var op := OpcodeOf(code[i]);
      if op.PUSH? then InstrAt(code, i) == Instr(i, op, Slice(code, i + 1, i + 1 + op.size)) && NextAddress(code, i) == i + op.size + 1
      else InstrAt(code, i) == Instr(i, op, []) && NextAddress(code, i) == i + 1
  {
  }

  // ---------- tiling ----------

  /** Instructions start at `from`, and each begins where the one before ends. */
  ghost predicate Tiles(list: seq<Instr>, from: nat) {
    && (list != [] ==> list[0].address == from)
    && forall k :: 0 <= k < |list| - 1 ==> list[k + 1].address == list[k].address + 1 + DataSize(list[k].opcode)
  }

  /** The end of the last instruction. */
  function End(list: seq<Instr>, from: nat): nat {
    if list == [] then from else list[|list| - 1].address + 1 + DataSize(list[|list| - 1].opcode)
  }

  lemma {:induction false} SweepTiles(code: seq<Byte>, length: int, i: nat)
    requires length <= |code|
    ensures var list := SweepFrom(code, length, i);
      && Tiles(list, i)
      && (i < length ==> length <= End(list, i))
      && (forall k :: 0 <= k < |list| ==> i <= list[k].address < length && list[k] == InstrAt(code, list[k].address))
    decreases length - i
  {
    hide InstrAt, Slice, OpcodeOf;
    if i < length {
      StartsAt(code, i);
      var rest := SweepFrom(code, length, NextAddress(code, i));
      SweepTiles(code, length, NextAddress(code, i));
      var list := [InstrAt(code, i)] + rest;
      forall k | 0 <= k < |list| - 1 ensures list[k + 1].address == list[k].address + 1 + DataSize(list[k].opcode) {
        assert list[k + 1] == rest[k];
        if k > 0 {
          assert rest[k - 1 + 1].address == rest[k - 1].address + 1 + DataSize(rest[k - 1].opcode);
        }
      }
    }
  }

  lemma StartsAt(code: seq<Byte>, i: nat)
    requires i < |code|
    ensures InstrAt(code, i).address == i && i + 1 + DataSize(InstrAt(code, i).opcode) == NextAddress(code, i)
  {
  }

  lemma {:induction false} TilesIncrease(list: seq<Instr>, from: nat, i: nat, j: nat)
    requires Tiles(list, from) && i < j < |list|
    ensures list[i].address + 1 + DataSize(list[i].opcode) <= list[j].address
  {
    assert list[j - 1 + 1].address == list[j - 1].address + 1 + DataSize(list[j - 1].opcode);
    if i < j - 1 {
      TilesIncrease(list, from, i, j - 1);
    }
  }

  /** The disassembly tiles the swept bytes from address 0, in strictly increasing order; every instruction
      is the one its byte names, and the last ends at or after the end of the swept bytes. */
  lemma SweepCovers(code: seq<Byte>)
    ensures var list := Sweep(code);
      && Tiles(list, 0) && Increasing(list) && |Swept(code)| <= End(list, 0)
      && (forall k :: 0 <= k < |list| ==> list[k].address < |Swept(code)| && list[k] == InstrAt(code, list[k].address))
  {
    var list := Sweep(code);
    SweepTiles(code, SweptLength(code), 0);
    forall i, j | 0 <= i < j < |list| ensures list[i].address < list[j].address {
      TilesIncrease(list, 0, i, j);
    }
  }

  // ---------- assembling again ----------

  /** The byte that an opcode stands for; an invalid one stands for `unnamed`. */
  function ByteOf(op: Opcode, unnamed: Byte): int {
    match op
    case PUSH(n) => 0x5f + n
    case DUP1 => 0x80
    case CALLDATASIZE => 0x36
    case CALLDATALOAD => 0x35
    case JUMPDEST => 0x5b
    case EQ => 0x14
    case GT => 0x11
    case JUMP => 0x56
    case JUMPI => 0x57
    case OTHER(b) => b
    case INVALID => unnamed
    case EMPTY => -1
  }

  /** The bytes of an instruction list: each opcode followed by its argument. */
  function Assembled(list: seq<Instr>, code: seq<Byte>): seq<int> {
    if list == [] then []
    else [ByteOf(list[0].opcode, if list[0].address < |code| then code[list[0].address] else 0)] + list[0].argument + Assembled(list[1..], code)
  }

  lemma {:induction false} SweepAssembles(code: seq<Byte>, length: int, i: nat) returns (e: nat)
    requires length <= |code| && i <= |code|
    ensures i <= e <= |code| && (length <= e || e == i) && (i < length ==> length <= e)
    ensures Assembled(SweepFrom(code, length, i), code) == code[i..e]
    decreases length - i
  {
    hide OpcodeOf, Slice;
    e := i;
    if i < length {
      var instr, next := InstrAt(code, i), NextAddress(code, i);
      var rest := SweepFrom(code, length, next);
      OneAssembles(code, i);
      assert SweepFrom(code, length, i)[1..] == rest;
      if next <= |code| {
        e := SweepAssembles(code, length, next);
        assert code[i..e] == code[i..next] + code[next..e];
      } else {
        e := |code|;
      }
    }
  }

  /** An instruction stands for its byte and the data behind it, as far as the code goes. */
  lemma OneAssembles(code: seq<Byte>, i: nat)
    requires i < |code|
    ensures var instr, next := InstrAt(code, i), NextAddress(code, i);
      && instr.address == i && next > i
      && [ByteOf(instr.opcode, code[i])] + instr.argument == code[i..if next <= |code| then next else |code|]
  {
    OpcodeByte(code[i]);
  }

  lemma OpcodeByte(b: Byte)
    ensures ByteOf(OpcodeOf(b), b) == b
  {
  }

  /** 0xfe and the bytes that name no instruction. */
  predicate IsInvalid(b: Byte) {
    || 0x0c <= b <= 0x0f || 0x1e <= b <= 0x1f || 0x21 <= b <= 0x2f || 0x49 <= b <= 0x4f || b == 0x5f
    || 0xa5 <= b <= 0xef || 0xf6 <= b <= 0xf9 || 0xfb <= b <= 0xfc || b == 0xfe
  }

  /** Assembled again, the instructions give the bytes of the code, up to the end of the last push, which is at or
      behind the end of the swept bytes; the instructions of invalid bytes are exactly the invalid ones. */
  lemma AssemblyGivesCode(code: seq<Byte>)
    ensures Assembled(Sweep(code), code) <= code && SweptLength(code) <= |Assembled(Sweep(code), code)|
    ensures forall k :: 0 <= k < |Sweep(code)| ==>
      Sweep(code)[k].address < |code| && (Sweep(code)[k].opcode == INVALID <==> IsInvalid(code[Sweep(code)[k].address]))
  {
    hide SweepFrom, SweptLength, OpcodeOf, Named;
    SweptIsShort(code);
    var e := SweepAssembles(code, SweptLength(code), 0);
    assert code[0..e] == code[..e];
    SweepTiles(code, SweptLength(code), 0);
    forall k | 0 <= k < |Sweep(code)|
      ensures Sweep(code)[k].address < |code| && (Sweep(code)[k].opcode == INVALID <==> IsInvalid(code[Sweep(code)[k].address]))
    {
      InvalidBytes(code[Sweep(code)[k].address]);
    }
  }

  lemma SweptIsShort(code: seq<Byte>)
    ensures SweptLength(code) <= |code|
  {
    hide Mentions;
  }

  lemma InvalidBytes(b: Byte)
    ensures OpcodeOf(b) == INVALID <==> IsInvalid(b)
  {
  }

  // ---------- valid jump destinations ----------

  /** Section 9.4.3 of the Yellow Paper: the positions of JUMPDEST that are not data of a push. */
  function ValidJumps(code: seq<Byte>, i: nat): set<nat>
    decreases |code| - i
  {
    if i >= |code| then {}
    else if code[i] == 0x5b then {i} + ValidJumps(code, Following(i, code[i]))
    else ValidJumps(code, Following(i, code[i]))
  }

  /** The next valid instruction position. */
  function Following(i: nat, w: Byte): nat {
    if 0x60 <= w <= 0x7f then i + w - 0x60 + 2 else i + 1
  }

  function Jumpdests(list: seq<Instr>): set<nat> {
    set k | 0 <= k < |list| && list[k].opcode == JUMPDEST :: list[k].address
  }

  lemma JumpdestsOfCons(first: Instr, rest: seq<Instr>)
    ensures Jumpdests([first] + rest) == Jumpdests(rest) + if first.opcode == JUMPDEST then {first.address} else {}
  {
    var list := [first] + rest;
    assert list[0] == first && forall k :: 0 <= k < |rest| ==> list[k + 1] == rest[k];
  }

  lemma {:induction false} SweptJumps(code: seq<Byte>, length: nat, i: nat)
    requires length <= |code|
    ensures Jumpdests(SweepFrom(code, length, i)) == ValidJumps(code[..length], i)
    decreases length - i
  {
    hide Slice;
    if i < length {
      SweptJumps(code, length, NextAddress(code, i));
      JumpdestsOfCons(InstrAt(code, i), SweepFrom(code, length, NextAddress(code, i)));
      SameStep(code[i], i);
    }
  }

  lemma SameStep(b: Byte, i: nat)
    ensures Following(i, b) == i + 1 + DataSize(OpcodeOf(b)) && (OpcodeOf(b) == JUMPDEST <==> b == 0x5b)
  {
  }

  lemma {:induction false} JumpsLieBehind(code: seq<Byte>, i: nat)
    ensures forall a :: a in ValidJumps(code, i) ==> a >= i
    decreases |code| - i
  {
    if i < |code| {
      JumpsLieBehind(code, Following(i, code[i]));
    }
  }

  /** Cutting the code off cuts its valid destinations off. */
  lemma {:induction false} JumpsOfPrefix(code: seq<Byte>, n: nat, i: nat)
    requires n <= |code|
    ensures ValidJumps(code[..n], i) == set a | a in ValidJumps(code, i) && a < n
    decreases |code| - i
  {
    hide Following;
    JumpsLieBehind(code, i);
    if i < n {
      Onward(i, code[i]);
      JumpsOfPrefix(code, n, Following(i, code[i]));
    }
  }

  lemma Onward(i: nat, w: Byte)
    ensures Following(i, w) > i
  {
  }

  /** The addresses of JUMPDEST instructions are exactly the valid destinations of the code that lie in the
      swept bytes. */
  lemma JumpdestsAreValid(code: seq<Byte>)
    ensures Jumpdests(Sweep(code)) == set a | a in ValidJumps(code, 0) && a < SweptLength(code)
    ensures Jumpdests(Sweep(code)) == ValidJumps(Swept(code), 0)
  {
    hide Mentions;
    if SweptLength(code) > 0 {
      SweptJumps(code, SweptLength(code), 0);
      JumpsOfPrefix(code, SweptLength(code), 0);
    }
  }

  // ---------- lookup ----------

  /** The index of the first instruction at or after an address. */
  method GetInstructionIndex(list: seq<Instr>, address: nat) returns (r: Option<nat>)
    ensures r == InstructionIndex(list, address)
  {
    var index := 0;
    while index < |list|
      invariant 0 <= index <= |list|
      invariant IndexFrom(list, address, index) == InstructionIndex(list, address)
    {
      if list[index].address >= address {
        return Some(index);
      }
      index := index + 1;
    }
    return None;
  }

  /** In a disassembly the index of an instruction's address is the instruction's own; an address inside the
      data of a push leads to the instruction after it. */
  lemma IndexOfAddress(code: seq<Byte>, k: nat, address: nat)
    requires k < |Sweep(code)|
    requires (if k == 0 then 0 else Sweep(code)[k - 1].address + 1) <= address <= Sweep(code)[k].address
    ensures InstructionIndex(Sweep(code), address) == Some(k)
  {
    hide Sweep;
    var list := Sweep(code);
    SweepCovers(code);
    LeastIndex(list, address, k, 0);
  }

  lemma {:induction false} LeastIndex(list: seq<Instr>, address: nat, k: nat, from: nat)
    requires Increasing(list) && from <= k < |list| && list[k].address >= address
    requires k > 0 ==> list[k - 1].address < address
    ensures IndexFrom(list, address, from) == Some(k)
    decreases k - from
  {
    if from < k {
      assert from == k - 1 || list[from].address < list[k - 1].address;
      LeastIndex(list, address, k, from + 1);
    }
  }

  /** Masking the dispatcher changes no lookup. */
  lemma MaskingKeepsIndices(code: seq<Instr>, keep: set<Key>, address: nat)
    requires ScanFrom(code, 0, INITIAL).Grouped?
    ensures var out := ScanFrom(code, 0, INITIAL);
      InstructionIndex(MaskedCode(code, out.scan, out.end, keep), address) == InstructionIndex(code, address)
  {
    hide ScanFrom, MaskedCode;
    var out := ScanFrom(code, 0, INITIAL);
    MaskingIsLocal(code, keep);
    SameAddressesSameIndex(MaskedCode(code, out.scan, out.end, keep), code, address, 0);
  }
}
