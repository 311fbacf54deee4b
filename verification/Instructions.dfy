/** Disassembled EVM instructions, as the dictionaries `{"address", "opcode", "argument"}`
    that the disassembler hands to the rest of the program. */
module Instructions {

  datatype Option<+T> = None | Some(value: T)

  type Byte = b: int | 0 <= b < 256

  datatype Opcode =
    | PUSH(size: nat)
    | DUP1
    | CALLDATASIZE
    | CALLDATALOAD
    | JUMPDEST
    | EQ
    | GT
    | JUMP
    | JUMPI
    | EMPTY
    | INVALID
    | OTHER(code: Byte)

  /** An absent "argument" entry is the empty sequence: the disassembler only stores
      the entry when it is not empty. */
  datatype Instr = Instr(address: nat, opcode: Opcode, argument: seq<Byte>)

  /** The dictionary `{"address": a, "opcode": "EMPTY"}` that replaces an instruction. */
  function Erase(i: Instr): Instr {
    Instr(i.address, EMPTY, [])
  }

  function EraseAll(s: seq<Instr>): (r: seq<Instr>)
    ensures |r| == |s| && forall k :: 0 <= k < |s| ==> r[k] == Erase(s[k])
  {
    seq(|s|, k requires 0 <= k < |s| => Erase(s[k]))
  }

  /** Big-endian value of a byte string. */
  function BigEndian(s: seq<Byte>): nat {
    if s == [] then 0 else 256 * BigEndian(s[..|s| - 1]) + s[|s| - 1]
  }

  /** The disassembler emits addresses in strictly increasing order. */
  ghost predicate Increasing(code: seq<Instr>) {
    forall i, j :: 0 <= i < j < |code| ==> code[i].address < code[j].address
  }

  /** The least index whose address is not below `address`. */
  function InstructionIndex(code: seq<Instr>, address: nat): (r: Option<nat>)
    ensures r.Some? ==> r.value < |code| && code[r.value].address >= address
    ensures r.Some? ==> forall k :: 0 <= k < r.value ==> code[k].address < address
    ensures r.None? ==> forall k :: 0 <= k < |code| ==> code[k].address < address
  {
    IndexFrom(code, address, 0)
  }

  function IndexFrom(code: seq<Instr>, address: nat, from: nat): (r: Option<nat>)
    requires from <= |code|
    ensures r.Some? ==> from <= r.value < |code| && code[r.value].address >= address
    ensures r.Some? ==> forall k :: from <= k < r.value ==> code[k].address < address
    ensures r.None? ==> forall k :: from <= k < |code| ==> code[k].address < address
    decreases |code| - from
  {
    if from == |code| then None
    else if code[from].address >= address then Some(from)
    else IndexFrom(code, address, from + 1)
  }

  /** Only the addresses matter to the lookup. */
  lemma {:induction false} SameAddressesSameIndex(code: seq<Instr>, other: seq<Instr>, address: nat, from: nat)
    requires from <= |code| == |other|
    requires forall k :: 0 <= k < |code| ==> code[k].address == other[k].address
    ensures IndexFrom(code, address, from) == IndexFrom(other, address, from)
    decreases |code| - from
  {
    if from < |code| {
      SameAddressesSameIndex(code, other, address, from + 1);
    }
  }
}
