/** Masking preserves what the dispatcher does with every selected function, and sends every other
    selector to the revert block. */
module DispatcherTheorem {
  import opened Instructions
  import opened Grouping
  import opened Erasure
  import opened Dispatcher
  import opened DispatcherMasking
  import opened DispatcherPatching
  import opened Machine
  import opened InstructionModification

  // ---------- running one token ----------

  /** An unmasked block compares the selector, with its own DUP1 or with a pending duplicate. */
  lemma RunComparison(code: seq<Instr>, limit: nat, p: nat, b: Block, cmp: Opcode, dup: bool, rest: seq<nat>, x: nat)
    requires BlockAt(code, p, b, dup, false) && BlockOk(b, cmp) && (cmp == EQ || cmp == GT)
    requires p + 5 <= limit && |rest| + 3 <= STACK_LIMIT
    ensures var c := if (if cmp == EQ then ValueOf(b) == x else ValueOf(b) > x) then 1 else 0;
      Reaches(code, limit, State(p, rest + [x] + if dup then [] else [x]), State(p + 4, rest + [x] + [c] + [BigEndian(b.dst.argument)]))
  {
    hide SelectorKey, BigEndian, JumpTo, Reaches, ValueOf;
    var c := if (if cmp == EQ then ValueOf(b) == x else ValueOf(b) > x) then 1 else 0;
    var s0, s1 := State(p, rest + [x] + if dup then [] else [x]), State(p + 1, rest + [x] + [x]);
    var s2 := State(p + 2, rest + [x] + [x] + [ValueOf(b)]);
    var s3, s4 := State(p + 3, rest + [x] + [c]), State(p + 4, rest + [x] + [c] + [BigEndian(b.dst.argument)]);
    assert rest + [x] + [] == rest + [x];
    ReachesStep(code, limit, s0, s1);
    assert ValueOf(b) == BigEndian(b.sel.argument) by { ValueIs(b); }
    ReachesStep(code, limit, s1, s2);
    assert Drop(s2, 2) == rest + [x];
    ReachesStep(code, limit, s2, s3);
    ReachesStep(code, limit, s3, s4);
    ReachesTrans(code, limit, s0, s1, s2);
    ReachesTrans(code, limit, s0, s2, s3);
    ReachesTrans(code, limit, s0, s3, s4);
  }

  lemma ValueIs(b: Block)
    ensures ValueOf(b) == BigEndian(b.sel.argument)
  {
  }

  /** A masked block does nothing but leave its DUP1's duplicate, if the DUP1 is still there. */
  lemma RunErasedBlock(code: seq<Instr>, limit: nat, p: nat, b: Block, dup: bool, rest: seq<nat>, x: nat, pending: bool)
    requires BlockAt(code, p, b, dup, true) && b.dup.opcode == DUP1
    requires p + 5 <= limit && |rest| + 3 <= STACK_LIMIT
    requires dup ==> !pending
    ensures Reaches(code, limit, State(p, Stack(rest, x, pending)), State(p + 5, Stack(rest, x, pending || dup)))
  {
    hide Reaches, JumpTo, BigEndian;
    var s0, stack := State(p, Stack(rest, x, pending)), Stack(rest, x, pending || dup);
    ReachesStep(code, limit, s0, State(p + 1, stack));
    RunErased(code, limit, p + 1, 4, stack);
    ReachesTrans(code, limit, s0, State(p + 1, stack), State(p + 5, stack));
  }

  lemma {:induction false} RunErased(code: seq<Instr>, limit: nat, p: nat, n: nat, stack: seq<nat>)
    requires p + n <= |code| && p + n <= limit
    requires forall k :: p <= k < p + n ==> code[k].opcode == EMPTY
    ensures Reaches(code, limit, State(p, stack), State(p + n, stack))
    decreases n
  {
    hide Reaches;
    if n == 0 {
      ReachesSelf(code, limit, State(p, stack));
    } else {
      ReachesStep(code, limit, State(p, stack), State(p + 1, stack));
      RunErased(code, limit, p + 1, n - 1, stack);
      ReachesTrans(code, limit, State(p, stack), State(p + 1, stack), State(p + n, stack));
    }
  }

  /** The caller's stack, the selector, and possibly a duplicate of it. */
  function Stack(rest: seq<nat>, x: nat, pending: bool): seq<nat> {
    if pending then rest + [x] + [x] else rest + [x]
  }

  lemma RunUnmaskedBlock(code: seq<Instr>, limit: nat, p: nat, b: Block, cmp: Opcode, dup: bool, rest: seq<nat>, x: nat, to: nat)
    requires BlockAt(code, p, b, dup, false) && BlockOk(b, cmp) && (cmp == EQ || cmp == GT)
    requires p + 5 <= limit && |rest| + 3 <= STACK_LIMIT
    requires JumpTo(code, BigEndian(b.dst.argument), rest + [x]) == Some(State(to, rest + [x]))
    ensures var taken := if cmp == EQ then ValueOf(b) == x else ValueOf(b) > x;
      Reaches(code, limit, State(p, Stack(rest, x, !dup)), State(if taken then to else p + 5, rest + [x]))
  {
    hide Reaches, JumpTo, BigEndian, SelectorKey, ValueOf;
    var taken := if cmp == EQ then ValueOf(b) == x else ValueOf(b) > x;
    var c := if taken then 1 else 0;
    RunComparison(code, limit, p, b, cmp, dup, rest, x);
    assert rest + [x] + [] == rest + [x];
    var s0, s1 := State(p, Stack(rest, x, !dup)), State(p + 4, rest + [x] + [c] + [BigEndian(b.dst.argument)]);
    var s2 := State(if taken then to else p + 5, rest + [x]);
    assert Drop(s1, 2) == rest + [x];
    ReachesStep(code, limit, s1, s2);
    ReachesTrans(code, limit, s0, s1, s2);
  }

  lemma RunExit(code: seq<Instr>, limit: nat, p: nat, push: Instr, jump: Instr, stack: seq<nat>, to: nat)
    requires p + 2 <= |code| && p + 2 <= limit && |stack| < STACK_LIMIT
    requires code[p] == push && code[p + 1] == jump && push.opcode.PUSH? && jump.opcode == JUMP
    requires JumpTo(code, BigEndian(push.argument), stack) == Some(State(to, stack))
    ensures Reaches(code, limit, State(p, stack), State(to, stack))
  {
    hide Reaches, JumpTo, BigEndian;
    var s1 := State(p + 1, stack + [BigEndian(push.argument)]);
    ReachesStep(code, limit, State(p, stack), s1);
    assert Drop(s1, 1) == stack;
    ReachesStep(code, limit, s1, State(to, stack));
    ReachesTrans(code, limit, State(p, stack), s1, State(to, stack));
  }

  // ---------- running the tokens ----------

  /** `code` is the list of `d` in which only `keep` is left. */
  ghost predicate Loaded(code: seq<Instr>, d: Dispatcher, keep: set<Key>) {
    && Renders(code, Base(d), Tokens(d.tree), keep)
    && |code| == |CodeOf(d)| && code[Limit(d)..] == CodeOf(d)[Limit(d)..]
    && forall k :: 0 <= k < |code| ==> code[k].address == CodeOf(d)[k].address
  }

  predicate Pending(ts: seq<Token>, i: nat, keep: set<Key>)
    requires i <= |ts|
  {
    MaskedBefore(ts, i, keep) && UsesDup(ts, i, keep)
  }

  /** The state in front of token `i` while selector `x` is being dispatched. */
  function Front(d: Dispatcher, keep: set<Key>, i: nat, rest: seq<nat>, x: nat): State
    requires i <= |Tokens(d.tree)|
  {
    State(Base(d) + Off(Tokens(d.tree), i), Stack(rest, x, Pending(Tokens(d.tree), i, keep)))
  }

  /** Index of the instruction at an address of the list. */
  function IndexOf(d: Dispatcher, address: nat): nat {
    match InstructionIndex(CodeOf(d), address)
    case Some(k) => k
    case None => 0
  }

  /** A jump inside a loaded list goes where it goes in the original list. */
  lemma JumpInLoaded(code: seq<Instr>, d: Dispatcher, keep: set<Key>, k: nat, stack: seq<nat>)
    requires WellFormed(d) && Loaded(code, d, keep) && k < |code| && code[k].opcode == JUMPDEST
    ensures JumpTo(code, CodeOf(d)[k].address, stack) == Some(State(k, stack))
    ensures IndexOf(d, CodeOf(d)[k].address) == k
  {
    hide CodeOf, Tokens, Renders, TokensOk, Sorted, Linked, EntriesOk, PrologueOk, DecodeOk, JumpTo;
    JumpFinds(code, k, stack);
    SameAddressesSameIndex(code, CodeOf(d), code[k].address, 0);
  }

  // ---------- where tokens lead ----------

  lemma {:induction false} CompareInBlocks(t: Tree, i: nat)
    requires i < |Tokens(t)| && Tokens(t)[i].Compare?
    ensures Tokens(t)[i].b in Blocks(t)
  {
    match t
    case Leaf(blocks, _) =>
    case Node(_, larger, _, smaller) =>
      if i <= |Tokens(larger)| {
        CompareInBlocks(larger, i - 1);
      } else {
        CompareInBlocks(smaller, i - 2 - |Tokens(larger)|);
      }
  }

  /** The target of a split lies behind it. */
  ghost predicate TargetOf(ts: seq<Token>, i: nat, j: nat)
    requires i < |ts| && ts[i].Split?
  {
    i < j < |ts| && ts[j].Target? && ts[j].dest.address == BigEndian(ts[i].b.dst.argument)
  }

  lemma {:induction false} SplitTarget(t: Tree, i: nat) returns (j: nat)
    requires Linked(t) && i < |Tokens(t)| && Tokens(t)[i].Split?
    ensures TargetOf(Tokens(t), i, j)
  {
    var larger, smaller := Tokens(t.larger), Tokens(t.smaller);
    if i == 0 {
      j := 1 + |larger|;
    } else if i <= |larger| {
      j := SplitTarget(t.larger, i - 1);
      j := j + 1;
    } else {
      assert Tokens(t)[i] == smaller[i - 2 - |larger|];
      j := SplitTarget(t.smaller, i - 2 - |larger|);
      assert Tokens(t)[j + 2 + |larger|] == smaller[j];
      j := j + 2 + |larger|;
    }
  }

  lemma TokenLoaded(code: seq<Instr>, d: Dispatcher, keep: set<Key>, i: nat)
    requires WellFormed(d) && Loaded(code, d, keep) && i < |Tokens(d.tree)|
    ensures var ts := Tokens(d.tree);
      && TokenOk(ts[i], d.revert.address)
      && TokenAt(code, Base(d) + Off(ts, i), ts, i, keep, true)
      && Base(d) + Off(ts, i) + |Instrs(ts[i])| <= Limit(d) < |code|
  {
    hide TokenAt, TokenOk, CodeOf, Off, Instrs, Sorted, Linked, EntriesOk, PrologueOk, DecodeOk, Increasing;
    var ts := Tokens(d.tree);
    CodeLaysOut(d);
    assert TokenOk(ts[i], d.revert.address);
    if i + 1 < |ts| {
      OffMonotone(ts, i, |ts|);
    } else {
      OffMonotone(ts, i, i + 1);
    }
  }

  /** A compare block jumps to its function exactly when the function is kept and selected. */
  lemma StepCompare(code: seq<Instr>, d: Dispatcher, keep: set<Key>, i: nat, rest: seq<nat>, x: nat)
    requires WellFormed(d) && Loaded(code, d, keep) && |rest| + 3 <= STACK_LIMIT
    requires i < |Tokens(d.tree)| && Tokens(d.tree)[i].Compare?
    ensures var b := Tokens(d.tree)[i].b;
      Reaches(code, Limit(d), Front(d, keep, i, rest, x),
        if KeyOf(b) in keep && ValueOf(b) == x then State(IndexOf(d, BigEndian(b.dst.argument)), rest + [x])
        else Front(d, keep, i + 1, rest, x))
  {
    hide CodeOf, Sorted, Linked, PrologueOk, DecodeOk, Increasing, Reaches, JumpTo, IndexOf, BigEndian, SelectorKey, Loaded, ValueOf, BlockOk, Limit, TokensOk, EntriesOk;
    hide Tokens, Front, Off, TokenOk, TokenAt, MaskedBefore, DupStays, Pending;
    var ts := Tokens(d.tree);
    var p, b, dup := Base(d) + Off(ts, i), ts[i].b, DupStays(ts, i, keep, true);
    TokenLoaded(code, d, keep, i);
    CompareFacts(code, d, keep, i, rest, x);
    if KeyOf(b) in keep {
      EntryJump(code, d, keep, i, rest + [x]);
      RunUnmaskedBlock(code, Limit(d), p, b, EQ, dup, rest, x, IndexOf(d, BigEndian(b.dst.argument)));
    } else {
      DupOf(b, EQ);
      RunErasedBlock(code, Limit(d), p, b, dup, rest, x, Pending(ts, i, keep));
    }
  }

  lemma CompareFacts(code: seq<Instr>, d: Dispatcher, keep: set<Key>, i: nat, rest: seq<nat>, x: nat)
    requires i < |Tokens(d.tree)| && Tokens(d.tree)[i].Compare?
    requires TokenOk(Tokens(d.tree)[i], d.revert.address) && TokenAt(code, Base(d) + Off(Tokens(d.tree), i), Tokens(d.tree), i, keep, true)
    ensures var ts := Tokens(d.tree); var p := Base(d) + Off(ts, i); var b := ts[i].b; var dup := DupStays(ts, i, keep, true);
      && BlockOk(b, EQ) && |Instrs(ts[i])| == 5
      && BlockAt(code, p, b, dup, KeyOf(b) !in keep)
      && Front(d, keep, i, rest, x) == State(p, Stack(rest, x, Pending(ts, i, keep)))
      && (KeyOf(b) in keep ==> Pending(ts, i, keep) == !dup && Front(d, keep, i + 1, rest, x) == State(p + 5, rest + [x]))
      && (KeyOf(b) !in keep ==> (dup ==> !Pending(ts, i, keep)) && Front(d, keep, i + 1, rest, x) == State(p + 5, Stack(rest, x, Pending(ts, i, keep) || dup)))
  {
    hide Tokens, BlockOk, BlockAt;
  }

  lemma DupOf(b: Block, cmp: Opcode)
    requires BlockOk(b, cmp)
    ensures b.dup.opcode == DUP1
  {
  }

  lemma EntryJump(code: seq<Instr>, d: Dispatcher, keep: set<Key>, i: nat, stack: seq<nat>)
    requires WellFormed(d) && Loaded(code, d, keep)
    requires i < |Tokens(d.tree)| && Tokens(d.tree)[i].Compare?
    ensures var a := BigEndian(Tokens(d.tree)[i].b.dst.argument);
      JumpTo(code, a, stack) == Some(State(IndexOf(d, a), stack)) && IndexOf(d, a) > Limit(d)
  {
    hide WellFormed, Loaded, CodeOf, JumpTo, IndexOf, BigEndian, Tokens, Limit, Blocks;
    var b := Tokens(d.tree)[i].b;
    CompareInBlocks(d.tree, i);
    var k := EntryIndex(d, b);
    LoadedBehind(code, d, keep, k);
    JumpInLoaded(code, d, keep, k, stack);
  }

  /** The entry of a function is a JUMPDEST behind the dispatcher. */
  lemma EntryIndex(d: Dispatcher, b: Block) returns (k: nat)
    requires WellFormed(d) && b in Blocks(d.tree)
    ensures Limit(d) < k < |CodeOf(d)| && CodeOf(d)[k].opcode == JUMPDEST && CodeOf(d)[k].address == BigEndian(b.dst.argument)
  {
    hide CodeOf, Sorted, Linked, PrologueOk, DecodeOk, Increasing, BigEndian, TokensOk, Tokens, Limit, Blocks;
    CodeLaysOut(d);
    var e :| IsEntry(d.body, e, BigEndian(b.dst.argument));
    k := Limit(d) + 1 + e;
    assert CodeOf(d)[Limit(d) + 1..][e] == d.body[e];
  }

  lemma LoadedBehind(code: seq<Instr>, d: Dispatcher, keep: set<Key>, k: nat)
    requires Loaded(code, d, keep) && Limit(d) <= k < |CodeOf(d)|
    ensures k < |code| && code[k] == CodeOf(d)[k]
  {
    hide CodeOf, Limit, Renders;
    assert code[Limit(d)..][k - Limit(d)] == CodeOf(d)[Limit(d)..][k - Limit(d)];
  }

  /** A split goes to its target for selectors below the pivot, and on to the next token for the others. */
  lemma StepSplit(code: seq<Instr>, d: Dispatcher, keep: set<Key>, i: nat, j: nat, rest: seq<nat>, x: nat)
    requires WellFormed(d) && Loaded(code, d, keep) && |rest| + 3 <= STACK_LIMIT
    requires i < |Tokens(d.tree)| && Tokens(d.tree)[i].Split? && TargetOf(Tokens(d.tree), i, j)
    ensures var to := if x < ValueOf(Tokens(d.tree)[i].b) then j else i + 1;
      Reaches(code, Limit(d), Front(d, keep, i, rest, x), Front(d, keep, to, rest, x))
  {
    hide CodeOf, Sorted, Linked, PrologueOk, DecodeOk, Increasing, Reaches, JumpTo, IndexOf, BigEndian, SelectorKey, Loaded, ValueOf, BlockOk, Limit, TokensOk, EntriesOk;
    hide Tokens, Front, Off, TokenOk;
    var ts := Tokens(d.tree);
    var p, b := Base(d) + Off(ts, i), ts[i].b;
    TokenLoaded(code, d, keep, i);
    TargetJump(code, d, keep, j, rest + [x]);
    FrontsOfSplit(d, keep, i, j, rest, x);
    assert BlockOk(b, GT) by { SplitOk(ts[i], d.revert.address); }
    RunUnmaskedBlock(code, Limit(d), p, b, GT, DupStays(ts, i, keep, true), rest, x, Base(d) + Off(ts, j));
  }

  lemma SplitOk(t: Token, revert: nat)
    requires t.Split? && TokenOk(t, revert)
    ensures BlockOk(t.b, GT)
  {
  }

  lemma FrontsOfSplit(d: Dispatcher, keep: set<Key>, i: nat, j: nat, rest: seq<nat>, x: nat)
    requires i < |Tokens(d.tree)| && Tokens(d.tree)[i].Split?
    requires j < |Tokens(d.tree)| && Tokens(d.tree)[j].Target?
    ensures var ts := Tokens(d.tree); var p := Base(d) + Off(ts, i);
      && Front(d, keep, i, rest, x) == State(p, Stack(rest, x, !DupStays(ts, i, keep, true)))
      && Front(d, keep, i + 1, rest, x) == State(p + 5, rest + [x])
      && Front(d, keep, j, rest, x) == State(Base(d) + Off(ts, j), rest + [x])
      && !MaskedBefore(ts, i + 1, keep) && |Instrs(ts[i])| == 5
  {
    hide Tokens;
  }

  lemma TargetJump(code: seq<Instr>, d: Dispatcher, keep: set<Key>, j: nat, stack: seq<nat>)
    requires WellFormed(d) && Loaded(code, d, keep)
    requires j < |Tokens(d.tree)| && Tokens(d.tree)[j].Target?
    ensures JumpTo(code, Tokens(d.tree)[j].dest.address, stack) == Some(State(Base(d) + Off(Tokens(d.tree), j), stack))
  {
    hide CodeOf, Sorted, Linked, PrologueOk, DecodeOk, Increasing, JumpTo, IndexOf, Renders, TokensOk, Tokens, Limit, EntriesOk, Off;
    TokenLoaded(code, d, keep, j);
    JumpInLoaded(code, d, keep, Base(d) + Off(Tokens(d.tree), j), stack);
  }

  /** A jump to the revert block is taken, or has been erased together with the group it is in. */
  lemma StepExit(code: seq<Instr>, d: Dispatcher, keep: set<Key>, i: nat, rest: seq<nat>, x: nat)
    requires WellFormed(d) && Loaded(code, d, keep) && |rest| + 3 <= STACK_LIMIT
    requires i < |Tokens(d.tree)| && Tokens(d.tree)[i].Exit?
    ensures Reaches(code, Limit(d), Front(d, keep, i, rest, x),
      if MaskedBefore(Tokens(d.tree), i, keep) then Front(d, keep, i + 1, rest, x) else State(Limit(d), rest + [x]))
  {
    hide CodeOf, Sorted, Linked, PrologueOk, DecodeOk, Increasing, Reaches, JumpTo, IndexOf, BigEndian, Loaded, Limit, TokensOk, EntriesOk;
    hide Tokens, Front, Off, TokenOk, TokenAt, MaskedBefore, Pending, Stack;
    var ts := Tokens(d.tree);
    var p, stack := Base(d) + Off(ts, i), Stack(rest, x, Pending(ts, i, keep));
    TokenLoaded(code, d, keep, i);
    ExitFacts(code, d, keep, i, rest, x);
    if MaskedBefore(ts, i, keep) {
      RunErased(code, Limit(d), p, 2, stack);
    } else {
      RevertJump(code, d, keep, stack);
      RunExit(code, Limit(d), p, ts[i].push, ts[i].jump, stack, Limit(d));
    }
  }

  lemma ExitFacts(code: seq<Instr>, d: Dispatcher, keep: set<Key>, i: nat, rest: seq<nat>, x: nat)
    requires i < |Tokens(d.tree)| && Tokens(d.tree)[i].Exit? && |rest| + 3 <= STACK_LIMIT
    requires TokenOk(Tokens(d.tree)[i], d.revert.address) && TokenAt(code, Base(d) + Off(Tokens(d.tree), i), Tokens(d.tree), i, keep, true)
    ensures var ts := Tokens(d.tree); var p := Base(d) + Off(ts, i); var stack := Stack(rest, x, Pending(ts, i, keep));
      && |Instrs(ts[i])| == 2 && |stack| < STACK_LIMIT
      && ts[i].push.opcode.PUSH? && ts[i].jump.opcode == JUMP && BigEndian(ts[i].push.argument) == d.revert.address
      && Front(d, keep, i, rest, x) == State(p, stack)
      && (MaskedBefore(ts, i, keep) ==> code[p].opcode == EMPTY && code[p + 1].opcode == EMPTY && Front(d, keep, i + 1, rest, x) == State(p + 2, stack))
      && (!MaskedBefore(ts, i, keep) ==> code[p] == ts[i].push && code[p + 1] == ts[i].jump && stack == rest + [x])
  {
    hide Tokens, BigEndian, Base, BlockOk, BlockAt, KeyOf;
  }

  lemma RevertJump(code: seq<Instr>, d: Dispatcher, keep: set<Key>, stack: seq<nat>)
    requires WellFormed(d) && Loaded(code, d, keep)
    ensures JumpTo(code, d.revert.address, stack) == Some(State(Limit(d), stack))
  {
    hide CodeOf, Sorted, Linked, PrologueOk, DecodeOk, Increasing, JumpTo, IndexOf, Renders, TokensOk, Limit, EntriesOk;
    CodeLaysOut(d);
    assert code[Limit(d)..][0] == CodeOf(d)[Limit(d)..][0];
    JumpInLoaded(code, d, keep, Limit(d), stack);
  }

  lemma StepTarget(code: seq<Instr>, d: Dispatcher, keep: set<Key>, i: nat, rest: seq<nat>, x: nat)
    requires WellFormed(d) && Loaded(code, d, keep)
    requires i < |Tokens(d.tree)| && Tokens(d.tree)[i].Target?
    ensures Reaches(code, Limit(d), Front(d, keep, i, rest, x), Front(d, keep, i + 1, rest, x))
  {
    hide CodeOf, Sorted, Linked, PrologueOk, DecodeOk, Increasing, Reaches, Loaded, Limit, TokensOk, EntriesOk;
    TokenLoaded(code, d, keep, i);
    ReachesStep(code, Limit(d), Front(d, keep, i, rest, x), Front(d, keep, i + 1, rest, x));
  }

  // ---------- running the dispatcher ----------

  /** No unmasked block from token `i` on answers to `x`. */
  ghost predicate NoAnswer(ts: seq<Token>, i: nat, keep: set<Key>, x: nat) {
    forall j :: i <= j < |ts| && ts[j].Compare? && ValueOf(ts[j].b) == x ==> KeyOf(ts[j].b) !in keep
  }

  /** A selector that nothing answers ends at the revert block, from wherever it is. */
  lemma {:induction false} FallsThrough(code: seq<Instr>, d: Dispatcher, keep: set<Key>, i: nat, rest: seq<nat>, x: nat)
    requires WellFormed(d) && Loaded(code, d, keep) && |rest| + 3 <= STACK_LIMIT
    requires i <= |Tokens(d.tree)| && NoAnswer(Tokens(d.tree), i, keep, x)
    ensures Reaches(code, Limit(d), Front(d, keep, i, rest, x), State(Limit(d), rest + [x]))
    decreases |Tokens(d.tree)| - i
  {
    hide CodeOf, Sorted, Linked, PrologueOk, DecodeOk, Increasing, Reaches, Loaded, TokensOk, EntriesOk, Tokens, Front, ValueOf, KeyOf;
    var ts, s, t := Tokens(d.tree), Front(d, keep, i, rest, x), State(Limit(d), rest + [x]);
    if i == |ts| {
      FrontAtEnd(d, keep, rest, x);
      ReachesSelf(code, Limit(d), s);
    } else if ts[i].Compare? {
      StepCompare(code, d, keep, i, rest, x);
      FallsThrough(code, d, keep, i + 1, rest, x);
      ReachesTrans(code, Limit(d), s, Front(d, keep, i + 1, rest, x), t);
    } else if ts[i].Split? {
      LinkedTree(d);
      var j := SplitTarget(d.tree, i);
      StepSplit(code, d, keep, i, j, rest, x);
      var to := if x < ValueOf(ts[i].b) then j else i + 1;
      FallsThrough(code, d, keep, to, rest, x);
      ReachesTrans(code, Limit(d), s, Front(d, keep, to, rest, x), t);
    } else if ts[i].Exit? {
      StepExit(code, d, keep, i, rest, x);
      if MaskedBefore(ts, i, keep) {
        FallsThrough(code, d, keep, i + 1, rest, x);
        ReachesTrans(code, Limit(d), s, Front(d, keep, i + 1, rest, x), t);
      }
    } else {
      StepTarget(code, d, keep, i, rest, x);
      FallsThrough(code, d, keep, i + 1, rest, x);
      ReachesTrans(code, Limit(d), s, Front(d, keep, i + 1, rest, x), t);
    }
  }

  lemma LinkedTree(d: Dispatcher)
    requires WellFormed(d)
    ensures Linked(d.tree) && Sorted(d.tree)
  {
    hide Linked, Sorted;
  }

  lemma FrontAtEnd(d: Dispatcher, keep: set<Key>, rest: seq<nat>, x: nat)
    ensures Front(d, keep, |Tokens(d.tree)|, rest, x) == State(Limit(d), rest + [x])
  {
    hide Tokens, Off, MaskedBefore;
  }

  /** Subtree `t` is laid out from token `i` on. */
  ghost predicate LaidOut(ts: seq<Token>, i: nat, t: Tree) {
    Piece(ts, i, Tokens(t))
  }

  ghost predicate Piece(ts: seq<Token>, i: nat, s: seq<Token>) {
    i + |s| <= |ts| && forall k :: i <= k < i + |s| ==> ts[k] == s[k - i]
  }

  lemma PieceSplits(ts: seq<Token>, i: nat, a: seq<Token>, b: seq<Token>)
    requires Piece(ts, i, a + b)
    ensures Piece(ts, i, a) && Piece(ts, i + |a|, b)
  {
    assert forall k :: i <= k < i + |a| ==> ts[k] == (a + b)[k - i];
    assert forall k :: i + |a| <= k < i + |a| + |b| ==> ts[k] == (a + b)[k - i];
  }

  /** A kept selector of a subtree finds its way from the front of the subtree to its function. */
  lemma {:induction false} Descends(code: seq<Instr>, d: Dispatcher, keep: set<Key>, t: Tree, i: nat, b: Block, rest: seq<nat>, x: nat)
    requires WellFormed(d) && Loaded(code, d, keep) && |rest| + 3 <= STACK_LIMIT
    requires LaidOut(Tokens(d.tree), i, t) && Linked(t)
    requires Lookup(t, x) == Some(b) && KeyOf(b) in keep
    ensures Reaches(code, Limit(d), Front(d, keep, i, rest, x), State(IndexOf(d, BigEndian(b.dst.argument)), rest + [x]))
    decreases t
  {
    hide WellFormed, Reaches, Loaded, Front, ValueOf, KeyOf, BigEndian, IndexOf, Limit, Piece, Off;
    match t
    case Leaf(blocks, _) =>
      LeafLaidOut(Tokens(d.tree), i, t);
      DescendsLeaf(code, d, keep, blocks, i, b, rest, x);
    case Node(split, larger, dest, smaller) =>
      var j := i + 1 + |Tokens(larger)|;
      NodeLaidOut(Tokens(d.tree), i, t);
      StepSplit(code, d, keep, i, j, rest, x);
      var goal := State(IndexOf(d, BigEndian(b.dst.argument)), rest + [x]);
      if x < ValueOf(split) {
        StepTarget(code, d, keep, j, rest, x);
        Descends(code, d, keep, smaller, j + 1, b, rest, x);
        ReachesTrans(code, Limit(d), Front(d, keep, j, rest, x), Front(d, keep, j + 1, rest, x), goal);
        ReachesTrans(code, Limit(d), Front(d, keep, i, rest, x), Front(d, keep, j, rest, x), goal);
      } else {
        Descends(code, d, keep, larger, i + 1, b, rest, x);
        ReachesTrans(code, Limit(d), Front(d, keep, i, rest, x), Front(d, keep, i + 1, rest, x), goal);
      }
  }

  lemma NodeLaidOut(ts: seq<Token>, i: nat, t: Tree)
    requires t.Node? && LaidOut(ts, i, t) && Linked(t)
    ensures var j := i + 1 + |Tokens(t.larger)|;
      && j < |ts| && ts[i] == Split(t.split) && ts[j] == Target(t.dest) && TargetOf(ts, i, j)
      && LaidOut(ts, i + 1, t.larger) && LaidOut(ts, j + 1, t.smaller)
  {
    hide BigEndian, Piece;
    NodePieces(ts, i, Split(t.split), Tokens(t.larger), Target(t.dest), Tokens(t.smaller));
  }

  lemma NodePieces(ts: seq<Token>, i: nat, first: Token, larger: seq<Token>, middle: Token, smaller: seq<Token>)
    requires Piece(ts, i, [first] + larger + [middle] + smaller)
    ensures var j := i + 1 + |larger|;
      && j < |ts| && ts[i] == first && ts[j] == middle
      && Piece(ts, i + 1, larger) && Piece(ts, j + 1, smaller)
  {
    hide Piece;
    PieceSplits(ts, i, [first] + larger + [middle], smaller);
    PieceSplits(ts, i, [first] + larger, [middle]);
    PieceSplits(ts, i, [first], larger);
    PieceOne(ts, i, first);
    PieceOne(ts, i + 1 + |larger|, middle);
  }

  lemma PieceOne(ts: seq<Token>, i: nat, t: Token)
    requires Piece(ts, i, [t])
    ensures i < |ts| && ts[i] == t
  {
  }

  /** The blocks are laid out from token `i` on. */
  ghost predicate BlocksLaidOut(ts: seq<Token>, i: nat, blocks: seq<Block>) {
    i + |blocks| <= |ts| && forall k :: 0 <= k < |blocks| ==> ts[i + k] == Compare(blocks[k])
  }

  lemma LeafLaidOut(ts: seq<Token>, i: nat, t: Tree)
    requires t.Leaf? && LaidOut(ts, i, t)
    ensures BlocksLaidOut(ts, i, t.blocks)
  {
    forall k | 0 <= k < |t.blocks| ensures ts[i + k] == Compare(t.blocks[k]) {
      assert ts[i + k] == Tokens(t)[k];
    }
  }

  lemma {:induction false} DescendsLeaf(code: seq<Instr>, d: Dispatcher, keep: set<Key>, blocks: seq<Block>, i: nat, b: Block, rest: seq<nat>, x: nat)
    requires WellFormed(d) && Loaded(code, d, keep) && |rest| + 3 <= STACK_LIMIT
    requires BlocksLaidOut(Tokens(d.tree), i, blocks)
    requires LookupIn(blocks, x) == Some(b) && KeyOf(b) in keep
    ensures Reaches(code, Limit(d), Front(d, keep, i, rest, x), State(IndexOf(d, BigEndian(b.dst.argument)), rest + [x]))
    decreases |blocks|
  {
    hide WellFormed, Reaches, Loaded, Front, ValueOf, KeyOf, BigEndian, IndexOf, Limit;
    assert Tokens(d.tree)[i + 0] == Compare(blocks[0]);
    StepCompare(code, d, keep, i, rest, x);
    if ValueOf(blocks[0]) != x {
      forall k | 0 <= k < |blocks| - 1 ensures Tokens(d.tree)[i + 1 + k] == Compare(blocks[1..][k]) {
        assert Tokens(d.tree)[i + (k + 1)] == Compare(blocks[k + 1]);
      }
      DescendsLeaf(code, d, keep, blocks[1..], i + 1, b, rest, x);
      ReachesTrans(code, Limit(d), Front(d, keep, i, rest, x), Front(d, keep, i + 1, rest, x),
        State(IndexOf(d, BigEndian(b.dst.argument)), rest + [x]));
    }
  }

  // ---------- the theorem ----------

  function AllKeys(d: Dispatcher): set<Key> {
    set b | b in Blocks(d.tree) :: KeyOf(b)
  }

  /** With every function kept nothing changes: the original list renders its own tokens. */
  lemma OriginalLoaded(d: Dispatcher)
    ensures Loaded(CodeOf(d), d, AllKeys(d))
  {
    hide Lays, Off, CodeOf, Tokens, Limit, AllKeys, TokenAt, MaskedBefore, KeyOf;
    var ts, keep := Tokens(d.tree), AllKeys(d);
    CodeLaysOut(d);
    forall j | 0 <= j < |ts| && ts[j].Compare? ensures KeyOf(ts[j].b) in keep {
      CompareKept(d, j);
    }
    forall i | 0 <= i < |ts| ensures TokenAt(CodeOf(d), Base(d) + Off(ts, i), ts, i, keep, true) {
      LaysAt(CodeOf(d), Base(d), ts, i);
      NothingMasked(ts, i, keep);
      NothingMasked(ts, i + 1, keep);
      UnmaskedToken(CodeOf(d), Base(d) + Off(ts, i), ts, i, keep);
    }
  }

  lemma CompareKept(d: Dispatcher, j: nat)
    requires j < |Tokens(d.tree)| && Tokens(d.tree)[j].Compare?
    ensures KeyOf(Tokens(d.tree)[j].b) in AllKeys(d)
  {
    CompareInBlocks(d.tree, j);
  }

  lemma {:induction false} NothingMasked(ts: seq<Token>, i: nat, keep: set<Key>)
    requires i <= |ts| && forall j :: 0 <= j < |ts| && ts[j].Compare? ==> KeyOf(ts[j].b) in keep
    ensures !MaskedBefore(ts, i, keep)
  {
    if i > 0 {
      NothingMasked(ts, i - 1, keep);
    }
  }

  lemma UnmaskedToken(code: seq<Instr>, p: nat, ts: seq<Token>, i: nat, keep: set<Key>)
    requires i < |ts| && At(code, p, Instrs(ts[i]))
    requires ts[i].Compare? ==> KeyOf(ts[i].b) in keep
    requires !MaskedBefore(ts, i, keep) && !MaskedBefore(ts, i + 1, keep)
    ensures TokenAt(code, p, ts, i, keep, true)
  {
    hide SelectorKey;
    var r := Instrs(ts[i]);
    assert code[p + 0] == r[0];
    if !ts[i].Target? {
      assert code[p + 1] == r[1];
      if !ts[i].Exit? {
        assert code[p + 2] == r[2] && code[p + 3] == r[3] && code[p + 4] == r[4];
      }
    }
  }

  /** Where selector `x` leads when only `keep` is left: to its function's entry, or to the revert block. */
  function Destination(d: Dispatcher, keep: set<Key>, x: nat): nat {
    match Lookup(d.tree, x)
    case Some(b) => if KeyOf(b) in keep then IndexOf(d, BigEndian(b.dst.argument)) else Limit(d)
    case None => Limit(d)
  }

  lemma LoadedDispatch(code: seq<Instr>, d: Dispatcher, keep: set<Key>, rest: seq<nat>, x: nat)
    requires WellFormed(d) && Loaded(code, d, keep) && |rest| + 3 <= STACK_LIMIT
    ensures Reaches(code, Limit(d), State(Base(d), rest + [x]), State(Destination(d, keep, x), rest + [x]))
  {
    hide WellFormed, Reaches, Loaded, BigEndian, IndexOf, Limit, Tokens, Lookup, KeyOf, ValueOf;
    var ts := Tokens(d.tree);
    LinkedTree(d);
    assert Front(d, keep, 0, rest, x) == State(Base(d), rest + [x]);
    if Lookup(d.tree, x).Some? && KeyOf(Lookup(d.tree, x).value) in keep {
      Descends(code, d, keep, d.tree, 0, Lookup(d.tree, x).value, rest, x);
    } else {
      forall j | 0 <= j < |ts| && ts[j].Compare? && ValueOf(ts[j].b) == x ensures KeyOf(ts[j].b) !in keep {
        CompareInBlocks(d.tree, j);
        LookupFinds(d.tree, x);
      }
      FallsThrough(code, d, keep, 0, rest, x);
    }
  }

  /** For every dispatcher, every set of kept functions and every selector value: the original code
      sends a selector to its function's entry, and the masked code sends a kept selector to the same
      entry with the same stack and everything else to the revert block with only the selector added. */
  lemma MaskingPreservesDispatch(d: Dispatcher, keep: set<Key>, rest: seq<nat>, x: nat)
    requires WellFormed(d) && |rest| + 3 <= STACK_LIMIT
    ensures ScanFrom(CodeOf(d), 0, INITIAL).Grouped?
    ensures var start := State(Base(d), rest + [x]);
      && Reaches(CodeOf(d), Limit(d), start, State(Destination(d, AllKeys(d), x), rest + [x]))
      && Reaches(MaskedList(d, keep), Limit(d), start, State(Destination(d, keep, x), rest + [x]))
    ensures match Lookup(d.tree, x)
      case None => Destination(d, keep, x) == Limit(d)
      case Some(b) =>
        && (KeyOf(b) in keep ==> Destination(d, keep, x) == Destination(d, AllKeys(d), x))
        && (KeyOf(b) !in keep ==> Destination(d, keep, x) == Limit(d))
        && Limit(d) < Destination(d, AllKeys(d), x) < |CodeOf(d)|
        && CodeOf(d)[Destination(d, AllKeys(d), x)].opcode == JUMPDEST
        && CodeOf(d)[Destination(d, AllKeys(d), x)].address == BigEndian(b.dst.argument)
  {
    hide WellFormed, Reaches, BigEndian, IndexOf, Limit, Tokens, KeyOf, ValueOf, ScanFrom, Renders, CodeOf, Lookup;
    MaskedListRenders(d, keep);
    LoadedDispatch(MaskedList(d, keep), d, keep, rest, x);
    OriginalLoaded(d);
    LoadedDispatch(CodeOf(d), d, AllKeys(d), rest, x);
    if Lookup(d.tree, x).Some? {
      EntryOf(d, x, Lookup(d.tree, x).value);
    }
  }

  lemma EntryOf(d: Dispatcher, x: nat, b: Block)
    requires WellFormed(d) && Lookup(d.tree, x) == Some(b)
    ensures KeyOf(b) in AllKeys(d)
    ensures var k := IndexOf(d, BigEndian(b.dst.argument));
      Limit(d) < k < |CodeOf(d)| && CodeOf(d)[k].opcode == JUMPDEST && CodeOf(d)[k].address == BigEndian(b.dst.argument)
  {
    hide Increasing, CodeOf, Limit, BigEndian, Tokens, PrologueOk, DecodeOk, TokensOk;
    LookupFinds(d.tree, x);
    var k := EntryIndex(d, b);
    OriginalLoaded(d);
    JumpInLoaded(CodeOf(d), d, AllKeys(d), k, []);
  }

  /** The code that is installed for a selection of functions. */
  function Installed(d: Dispatcher, identifiers: map<string, Key>, functions: seq<string>): seq<Instr>
    requires ScanFrom(CodeOf(d), 0, INITIAL).Grouped?
  {
    if KeepsOriginal(identifiers, functions) then CodeOf(d) else MaskedList(d, Selected(identifiers, functions))
  }

  /** The name that stands for the original code leaves it as it is, however many functions are known. */
  lemma OriginalByName(d: Dispatcher, identifiers: map<string, Key>, functions: seq<string>)
    requires WellFormed(d) && "original_instruction_list" in functions
    ensures ScanFrom(CodeOf(d), 0, INITIAL).Grouped? && Installed(d, identifiers, functions) == CodeOf(d)
  {
    hide WellFormed, CodeOf, ScanFrom, Renders;
    MaskedListRenders(d, {});
  }

  /** A function that was not selected is blocked exactly when the list of selected names is shorter
      than the list of known functions and does not ask for the original code. */
  lemma UnselectedIsBlocked(d: Dispatcher, identifiers: map<string, Key>, functions: seq<string>, rest: seq<nat>, x: nat)
    requires WellFormed(d) && |rest| + 3 <= STACK_LIMIT
    requires Lookup(d.tree, x).Some? && KeyOf(Lookup(d.tree, x).value) !in Selected(identifiers, functions)
    ensures ScanFrom(CodeOf(d), 0, INITIAL).Grouped?
    ensures Reaches(Installed(d, identifiers, functions), Limit(d), State(Base(d), rest + [x]), State(Limit(d), rest + [x]))
      <==> !KeepsOriginal(identifiers, functions)
  {
    hide WellFormed, CodeOf, Lookup, Limit, ScanFrom, KeyOf, Selected, KeepsOriginal, IndexOf, BigEndian, Step;
    var keep := Selected(identifiers, functions);
    MaskingPreservesDispatch(d, keep, rest, x);
    if KeepsOriginal(identifiers, functions) {
      var s, t, u := State(Base(d), rest + [x]), State(Destination(d, AllKeys(d), x), rest + [x]), State(Limit(d), rest + [x]);
      if Reaches(CodeOf(d), Limit(d), s, u) {
        var n: nat :| Run(CodeOf(d), Limit(d), s, n) == Some(t);
        var m: nat :| Run(CodeOf(d), Limit(d), s, m) == Some(u);
        ExitIsUnique(CodeOf(d), Limit(d), s, t, u, n, m);
      }
    }
  }

  // ---------- JUMPDESTs ----------

  lemma {:induction false} TokensHaveNoSize(ts: seq<Token>, i: nat, revert: nat)
    requires i <= |ts| && TokensOk(ts, revert)
    ensures forall k :: 0 <= k < |Code(ts, i)| ==> Code(ts, i)[k].opcode != CALLDATASIZE
  {
    hide Off;
    if i > 0 {
      TokensHaveNoSize(ts, i - 1, revert);
      assert TokenOk(ts[i - 1], revert);
      OneHasNoSize(ts[i - 1], revert);
    }
  }

  lemma OneHasNoSize(t: Token, revert: nat)
    requires TokenOk(t, revert)
    ensures forall k :: 0 <= k < |Instrs(t)| ==> Instrs(t)[k].opcode != CALLDATASIZE
  {
  }

  lemma NoSizeBehindPrologue(d: Dispatcher)
    requires WellFormed(d)
    ensures |d.prologue| <= Limit(d) <= |CodeOf(d)|
    ensures forall k :: 0 <= k < |d.prologue| ==> CodeOf(d)[k].opcode != CALLDATALOAD
    ensures forall k :: |d.prologue| <= k < Limit(d) ==> CodeOf(d)[k].opcode != CALLDATASIZE
  {
    hide Tokens, Code, Off, Increasing, Sorted, Linked, EntriesOk, TokensOk, BigEndian;
    var ts := Tokens(d.tree);
    TokensHaveNoSize(ts, |ts|, d.revert.address);
    var tokens := Code(ts, |ts|);
    forall k | |d.prologue| <= k < Limit(d) ensures CodeOf(d)[k].opcode != CALLDATASIZE {
      if k >= Base(d) {
        assert CodeOf(d)[k] == tokens[k - Base(d)];
      } else if k > |d.prologue| {
        assert CodeOf(d)[k] == d.decode[k - |d.prologue| - 1];
      }
    }
  }

  lemma WellFormedSingleSize(d: Dispatcher)
    requires WellFormed(d)
    ensures Groupable(CodeOf(d)) && SingleSize(CodeOf(d)) && DispatcherEnd(CodeOf(d)) == Limit(d)
  {
    hide WellFormed, CodeOf, Limit, ScanFrom, DispatcherEnd, Combine, Groupable;
    var s := ScanWhole(d, {});
    GroupedExactly(CodeOf(d));
    NoSizeBehindPrologue(d);
  }

  /** Masking a well-formed dispatcher erases no JUMPDEST, neither of the dispatcher nor of the functions. */
  lemma DispatcherJumpdestsSurvive(d: Dispatcher, keep: set<Key>)
    requires WellFormed(d)
    ensures ScanFrom(CodeOf(d), 0, INITIAL).Grouped? && |MaskedList(d, keep)| == |CodeOf(d)|
    ensures forall k :: 0 <= k < |CodeOf(d)| && CodeOf(d)[k].opcode == JUMPDEST ==> MaskedList(d, keep)[k] == CodeOf(d)[k]
  {
    hide WellFormed, CodeOf, ScanFrom, Groupable, SingleSize, MaskedCode;
    WellFormedSingleSize(d);
    JumpdestsSurvive(CodeOf(d), keep);
    assert MaskedOf(CodeOf(d), keep) == MaskedList(d, keep);
  }
}
