/** The part of the engine that runs a dispatcher, on concrete stack values. */
module Machine {
  import opened Instructions

  const STACK_LIMIT := 1024

  /** The top of the stack is the last element. */
  datatype State = State(pc: nat, stack: seq<nat>)

  function Push(s: State, value: nat): Option<State> {
    if |s.stack| >= STACK_LIMIT then None else Some(State(s.pc + 1, s.stack + [value]))
  }

  function Top(s: State, depth: nat): nat
    requires depth < |s.stack|
  {
    s.stack[|s.stack| - 1 - depth]
  }

  function Drop(s: State, count: nat): seq<nat>
    requires count <= |s.stack|
  {
    s.stack[..|s.stack| - count]
  }

  /** Jumps go to the first instruction not before the address, which must be a JUMPDEST. */
  function JumpTo(code: seq<Instr>, address: nat, stack: seq<nat>): Option<State> {
    var index := InstructionIndex(code, address);
    if index.Some? && code[index.value].opcode == JUMPDEST then Some(State(index.value, stack)) else None
  }

  /** One instruction. None stands for an exception or for a state without successors. */
  function Step(code: seq<Instr>, s: State): Option<State> {
    if s.pc >= |code| then None
    else
      match code[s.pc].opcode
      case PUSH(_) => Push(s, BigEndian(code[s.pc].argument))
      case DUP1 => if |s.stack| < 1 then None else Push(s, Top(s, 0))
      case EMPTY => Some(s.(pc := s.pc + 1))
      case JUMPDEST => Some(s.(pc := s.pc + 1))
      case EQ => if |s.stack| < 2 then None else Push(s.(stack := Drop(s, 2)), if Top(s, 0) == Top(s, 1) then 1 else 0)
      case GT => if |s.stack| < 2 then None else Push(s.(stack := Drop(s, 2)), if Top(s, 0) > Top(s, 1) then 1 else 0)
      case JUMP => if |s.stack| < 1 then None else JumpTo(code, Top(s, 0), Drop(s, 1))
      case JUMPI =>
        if |s.stack| < 2 then None
        else if Top(s, 1) == 0 then Some(State(s.pc + 1, Drop(s, 2)))
        else JumpTo(code, Top(s, 0), Drop(s, 2))
      case _ => None
  }

  /** `n` steps, all of them taken in front of index `limit`. */
  function Run(code: seq<Instr>, limit: nat, s: State, n: nat): Option<State>
    decreases n
  {
    if n == 0 then Some(s)
    else if s.pc >= limit then None
    else match Step(code, s)
      case None => None
      case Some(t) => Run(code, limit, t, n - 1)
  }

  /** `t` is reached from `s` by steps that all lie in front of `limit`. */
  ghost predicate Reaches(code: seq<Instr>, limit: nat, s: State, t: State) {
    exists n: nat :: Run(code, limit, s, n) == Some(t)
  }

  lemma {:induction false} RunCompose(code: seq<Instr>, limit: nat, s: State, t: State, n: nat, m: nat)
    requires Run(code, limit, s, n) == Some(t)
    ensures Run(code, limit, s, n + m) == Run(code, limit, t, m)
    decreases n
  {
    hide Step;
    if n > 0 {
      RunCompose(code, limit, Step(code, s).value, t, n - 1, m);
    }
  }

  lemma ReachesSelf(code: seq<Instr>, limit: nat, s: State)
    ensures Reaches(code, limit, s, s)
  {
    assert Run(code, limit, s, 0) == Some(s);
  }

  lemma ReachesTrans(code: seq<Instr>, limit: nat, s: State, t: State, u: State)
    requires Reaches(code, limit, s, t) && Reaches(code, limit, t, u)
    ensures Reaches(code, limit, s, u)
  {
    hide Run;
    var n: nat :| Run(code, limit, s, n) == Some(t);
    var m: nat :| Run(code, limit, t, m) == Some(u);
    RunCompose(code, limit, s, t, n, m);
  }

  lemma ReachesStep(code: seq<Instr>, limit: nat, s: State, t: State)
    requires s.pc < limit && Step(code, s) == Some(t)
    ensures Reaches(code, limit, s, t)
  {
    assert Run(code, limit, t, 0) == Some(t);
    assert Run(code, limit, s, 1) == Some(t);
  }

  /** The first state outside the dispatcher is unique. */
  lemma {:induction false} ExitIsUnique(code: seq<Instr>, limit: nat, s: State, t: State, u: State, n: nat, m: nat)
    requires Run(code, limit, s, n) == Some(t) && t.pc >= limit
    requires Run(code, limit, s, m) == Some(u) && u.pc >= limit
    ensures t == u
    decreases n
  {
    hide Step;
    if n > 0 && m > 0 {
      ExitIsUnique(code, limit, Step(code, s).value, t, u, n - 1, m - 1);
    }
  }

  /** In a disassembled list a jump to the address of an instruction finds that instruction. */
  lemma JumpFinds(code: seq<Instr>, k: nat, stack: seq<nat>)
    requires k < |code| && Increasing(code) && code[k].opcode == JUMPDEST
    ensures InstructionIndex(code, code[k].address) == Some(k)
    ensures JumpTo(code, code[k].address, stack) == Some(State(k, stack))
  {
    assert forall j :: 0 <= j < k ==> code[j].address < code[k].address;
    assert InstructionIndex(code, code[k].address) == Some(k);
  }
}
