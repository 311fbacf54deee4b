/** The shape of a compiled function dispatcher, and what grouping and masking do to it.

    The dispatcher is a search tree over selectors. Its code is a list of tokens: compare blocks, GT
    splits, jumps to the revert block and the JUMPDESTs that splits jump to. */
module Dispatcher {
  import opened Instructions
  import opened Grouping

  /** DUP1, PUSH selector, EQ or GT, PUSH target, JUMPI. */
  datatype Block = Block(dup: Instr, sel: Instr, cmp: Instr, dst: Instr, jumpi: Instr)

  datatype Token =
    | Compare(b: Block)
    | Split(b: Block)
    | Exit(push: Instr, jump: Instr)
    | Target(dest: Instr)

  /** `larger` is the code for selectors not below the pivot; it comes first. */
  datatype Tree =
    | Leaf(blocks: seq<Block>, exit: Option<(Instr, Instr)>)
    | Node(split: Block, larger: Tree, dest: Instr, smaller: Tree)

  datatype Dispatcher = Dispatcher(
    prologue: seq<Instr>, load: Instr, decode: seq<Instr>, tree: Tree, revert: Instr, body: seq<Instr>)

  // ---------- tokens and the code they stand for ----------

  function KeyOf(b: Block): Key {
    SelectorKey(b.sel.argument)
  }

  function ValueOf(b: Block): nat {
    BigEndian(b.sel.argument)
  }

  function Core(b: Block): (r: seq<Instr>)
    ensures |r| == 4
  {
    [b.sel, b.cmp, b.dst, b.jumpi]
  }

  function Instrs(t: Token): (r: seq<Instr>)
    ensures |r| > 0
  {
    match t
    case Compare(b) => [b.dup] + Core(b)
    case Split(b) => [b.dup] + Core(b)
    case Exit(push, jump) => [push, jump]
    case Target(dest) => [dest]
  }

  /** Offset of token `i`. */
  function Off(ts: seq<Token>, i: nat): nat
    requires i <= |ts|
  {
    if i == 0 then 0 else Off(ts, i - 1) + |Instrs(ts[i - 1])|
  }

  lemma {:induction false} OffMonotone(ts: seq<Token>, i: nat, j: nat)
    requires i < j <= |ts|
    ensures Off(ts, i) + |Instrs(ts[i])| <= Off(ts, j)
  {
    if i + 1 < j {
      OffMonotone(ts, i, j - 1);
    }
  }

  /** The code of the first `i` tokens. */
  function Code(ts: seq<Token>, i: nat): (r: seq<Instr>)
    requires i <= |ts|
    ensures |r| == Off(ts, i)
  {
    if i == 0 then [] else Code(ts, i - 1) + Instrs(ts[i - 1])
  }

  function Tokens(t: Tree): seq<Token> {
    match t
    case Leaf(blocks, exit) =>
      seq(|blocks|, i requires 0 <= i < |blocks| => Compare(blocks[i])) + (if exit.Some? then [Exit(exit.value.0, exit.value.1)] else [])
    case Node(split, larger, dest, smaller) =>
      [Split(split)] + Tokens(larger) + [Target(dest)] + Tokens(smaller)
  }

  function Base(d: Dispatcher): nat {
    |d.prologue| + 1 + |d.decode|
  }

  /** The whole instruction list. */
  function CodeOf(d: Dispatcher): seq<Instr> {
    var ts := Tokens(d.tree);
    d.prologue + [d.load] + d.decode + Code(ts, |ts|) + [d.revert] + d.body
  }

  /** Index of the revert block's JUMPDEST, the first instruction behind the dispatcher. */
  function Limit(d: Dispatcher): nat {
    Base(d) + Off(Tokens(d.tree), |Tokens(d.tree)|)
  }

  // ---------- well-formedness ----------

  predicate PushOk(i: Instr) {
    i.opcode.PUSH? && i.argument != [] && |i.argument| == i.opcode.size
  }

  /** The selector is pushed by PUSH3 or PUSH4 and is not ffffffff, which the scan takes for a mask. */
  predicate BlockOk(b: Block, cmp: Opcode) {
    && b.dup.opcode == DUP1
    && PushOk(b.sel) && (b.sel.opcode == PUSH(3) || b.sel.opcode == PUSH(4)) && KeyOf(b) != NO_SELECTOR
    && b.cmp.opcode == cmp
    && PushOk(b.dst)
    && b.jumpi.opcode == JUMPI
  }

  predicate TokenOk(t: Token, revert: nat) {
    match t
    case Compare(b) => BlockOk(b, EQ)
    case Split(b) => BlockOk(b, GT)
    case Exit(push, jump) => PushOk(push) && BigEndian(push.argument) == revert && jump.opcode == JUMP
    case Target(dest) => dest.opcode == JUMPDEST && dest.address != revert
  }

  ghost predicate TokensOk(ts: seq<Token>, revert: nat) {
    forall i :: 0 <= i < |ts| ==> TokenOk(ts[i], revert)
  }

  /** The prologue names the revert block by its last nonzero PUSH after CALLDATASIZE, and does not
      load call data yet. */
  ghost predicate PrologueOk(p: seq<Instr>, revert: nat) {
    && (forall k :: 0 <= k < |p| ==> p[k].opcode != CALLDATALOAD && (p[k].opcode.PUSH? ==> p[k].argument != []))
    && exists c, r :: 0 <= c < r < |p| && p[c].opcode == CALLDATASIZE && NamesRevert(p, r, revert)
  }

  ghost predicate NamesRevert(p: seq<Instr>, r: nat, revert: nat)
    requires r < |p|
  {
    && p[r].opcode.PUSH? && BigEndian(p[r].argument) == revert > 0
    && forall k :: r < k < |p| && p[k].opcode.PUSH? ==> BigEndian(p[k].argument) == 0
  }

  /** Between CALLDATALOAD and the first comparison: no second CALLDATASIZE, which would reset the flag. */
  ghost predicate DecodeOk(p: seq<Instr>) {
    forall k :: 0 <= k < |p| ==>
      && p[k].opcode != CALLDATASIZE && p[k].opcode != JUMPDEST && p[k].opcode != DUP1
      && (p[k].opcode.PUSH? ==> p[k].argument != [])
  }

  function Blocks(t: Tree): seq<Block> {
    match t
    case Leaf(blocks, _) => blocks
    case Node(_, larger, _, smaller) => Blocks(larger) + Blocks(smaller)
  }

  /** Selectors are distinct, and every split separates the selectors by its pivot. */
  ghost predicate Sorted(t: Tree) {
    match t
    case Leaf(blocks, _) => forall i, j :: 0 <= i < j < |blocks| ==> ValueOf(blocks[i]) != ValueOf(blocks[j])
    case Node(split, larger, _, smaller) =>
      && Sorted(larger) && Sorted(smaller)
      && (forall b :: b in Blocks(larger) ==> ValueOf(b) >= ValueOf(split))
      && (forall b :: b in Blocks(smaller) ==> ValueOf(b) < ValueOf(split))
  }

  ghost predicate Linked(t: Tree) {
    t.Node? ==> BigEndian(t.split.dst.argument) == t.dest.address && Linked(t.larger) && Linked(t.smaller)
  }

  /** Every function's entry is a JUMPDEST of the body. */
  ghost predicate EntriesOk(t: Tree, body: seq<Instr>) {
    forall b :: b in Blocks(t) ==> exists e :: IsEntry(body, e, BigEndian(b.dst.argument))
  }

  predicate IsEntry(body: seq<Instr>, e: int, address: nat) {
    0 <= e < |body| && body[e].opcode == JUMPDEST && body[e].address == address
  }

  ghost predicate WellFormed(d: Dispatcher) {
    && Increasing(CodeOf(d))
    && PrologueOk(d.prologue, d.revert.address) && DecodeOk(d.decode)
    && d.load.opcode == CALLDATALOAD && d.revert.opcode == JUMPDEST
    && TokensOk(Tokens(d.tree), d.revert.address)
    && Sorted(d.tree) && Linked(d.tree) && EntriesOk(d.tree, d.body)
  }

  // ---------- what the tree means ----------

  /** The function that a selector value names: a search in the tree. */
  function Lookup(t: Tree, x: nat): Option<Block> {
    match t
    case Leaf(blocks, _) => LookupIn(blocks, x)
    case Node(split, larger, _, smaller) => if x < ValueOf(split) then Lookup(smaller, x) else Lookup(larger, x)
  }

  function LookupIn(blocks: seq<Block>, x: nat): Option<Block> {
    if blocks == [] then None
    else if ValueOf(blocks[0]) == x then Some(blocks[0])
    else LookupIn(blocks[1..], x)
  }

  lemma {:induction false} LookupInFinds(blocks: seq<Block>, x: nat)
    requires forall i, j :: 0 <= i < j < |blocks| ==> ValueOf(blocks[i]) != ValueOf(blocks[j])
    ensures forall b :: b in blocks && ValueOf(b) == x <==> LookupIn(blocks, x) == Some(b)
  {
    if blocks != [] {
      assert blocks == [blocks[0]] + blocks[1..];
      LookupInFinds(blocks[1..], x);
    }
  }

  /** The search is complete: it finds a block exactly when the tree holds one for the value. */
  lemma {:induction false} LookupFinds(t: Tree, x: nat)
    requires Sorted(t)
    ensures forall b :: b in Blocks(t) && ValueOf(b) == x <==> Lookup(t, x) == Some(b)
  {
    match t
    case Leaf(blocks, _) => LookupInFinds(blocks, x);
    case Node(_, larger, _, smaller) =>
      LookupFinds(larger, x);
      LookupFinds(smaller, x);
  }

  // ---------- masked tokens ----------

  /** Whether the group that is open in front of token `i` is masked. */
  predicate MaskedBefore(ts: seq<Token>, i: nat, keep: set<Key>)
    requires i <= |ts|
  {
    if i == 0 then false
    else match ts[i - 1]
      case Compare(b) => KeyOf(b) !in keep
      case Split(_) => false
      case Exit(_, _) => MaskedBefore(ts, i - 1, keep)
      case Target(_) => false
  }

  /** Whether the first unmasked token from `i` on consumes a duplicated selector. */
  predicate UsesDup(ts: seq<Token>, i: nat, keep: set<Key>)
    requires i <= |ts|
    decreases |ts| - i
  {
    if i == |ts| then false
    else match ts[i]
      case Compare(b) => KeyOf(b) in keep || UsesDup(ts, i + 1, keep)
      case Split(_) => true
      case Exit(_, _) => UsesDup(ts, i + 1, keep)
      case Target(_) => false
  }

  /** Whether the DUP1 of token `i` survives: the one before a masked run does until it is patched. */
  predicate DupStays(ts: seq<Token>, i: nat, keep: set<Key>, patched: bool)
    requires i < |ts|
  {
    !MaskedBefore(ts, i, keep) && (patched ==> UsesDup(ts, i, keep))
  }

  /** The instructions of token `i` after masking. */
  function Render(ts: seq<Token>, i: nat, keep: set<Key>, patched: bool): (r: seq<Instr>)
    requires i < |ts|
    ensures |r| == |Instrs(ts[i])|
  {
    var gone := MaskedBefore(ts, i + 1, keep);
    if ts[i].Compare? || ts[i].Split? then
      var b := ts[i].b;
      [if DupStays(ts, i, keep, patched) then b.dup else Erase(b.dup)] + (if gone then EraseAll(Core(b)) else Core(b))
    else if gone then EraseAll(Instrs(ts[i]))
    else Instrs(ts[i])
  }

  /** The first `i` tokens after masking, before patching. */
  function Masking(ts: seq<Token>, i: nat, keep: set<Key>): (r: seq<Instr>)
    requires i <= |ts|
    ensures |r| == Off(ts, i)
  {
    if i == 0 then [] else Masking(ts, i - 1, keep) + Render(ts, i - 1, keep, false)
  }

  function Mark(i: Instr, gone: bool): Instr {
    if gone then Erase(i) else i
  }

  /** Token `i` at index `p`, instruction by instruction. */
  ghost predicate TokenAt(code: seq<Instr>, p: nat, ts: seq<Token>, i: nat, keep: set<Key>, patched: bool)
    requires i < |ts|
  {
    var gone := MaskedBefore(ts, i + 1, keep);
    && p + |Instrs(ts[i])| <= |code|
    && match ts[i]
       case Exit(push, jump) => code[p] == Mark(push, gone) && code[p + 1] == Mark(jump, gone)
       case Target(dest) => code[p] == dest
       case _ => BlockAt(code, p, ts[i].b, DupStays(ts, i, keep, patched), gone)
  }

  predicate BlockAt(code: seq<Instr>, p: nat, b: Block, dup: bool, gone: bool) {
    && p + 5 <= |code|
    && code[p] == Mark(b.dup, !dup)
    && code[p + 1] == Mark(b.sel, gone)
    && code[p + 2] == Mark(b.cmp, gone)
    && code[p + 3] == Mark(b.dst, gone)
    && code[p + 4] == Mark(b.jumpi, gone)
  }

  lemma RenderedToken(code: seq<Instr>, p: nat, ts: seq<Token>, i: nat, keep: set<Key>)
    requires i < |ts| && At(code, p, Render(ts, i, keep, false))
    ensures TokenAt(code, p, ts, i, keep, false)
  {
    hide UsesDup;
    var r := Render(ts, i, keep, false);
    assert code[p + 0] == r[0];
    if !ts[i].Target? {
      assert code[p + 1] == r[1];
      if !ts[i].Exit? {
        assert code[p + 2] == r[2] && code[p + 3] == r[3] && code[p + 4] == r[4];
      }
    }
  }

  /** The code at `base` is the token list as masking and patching leave it. */
  ghost predicate Renders(code: seq<Instr>, base: nat, ts: seq<Token>, keep: set<Key>) {
    forall i :: 0 <= i < |ts| ==> TokenAt(code, base + Off(ts, i), ts, i, keep, true)
  }

  ghost predicate At(code: seq<Instr>, p: nat, s: seq<Instr>) {
    p + |s| <= |code| && forall j :: 0 <= j < |s| ==> code[p + j] == s[j]
  }

  /** The code at `base` is the token list as it was compiled. */
  ghost predicate Lays(code: seq<Instr>, base: nat, ts: seq<Token>) {
    && base + Off(ts, |ts|) <= |code|
    && forall i :: 0 <= i < |ts| ==> At(code, base + Off(ts, i), Instrs(ts[i]))
  }

  lemma LaysAt(code: seq<Instr>, base: nat, ts: seq<Token>, i: nat)
    requires Lays(code, base, ts) && i < |ts|
    ensures At(code, base + Off(ts, i), Instrs(ts[i]))
  {
    hide At, Instrs, Off;
  }

  lemma AtSelf(s: seq<Instr>)
    ensures At(s, 0, s)
  {
  }

  lemma AtLeft(a: seq<Instr>, b: seq<Instr>, p: nat, s: seq<Instr>)
    requires At(a, p, s)
    ensures At(a + b, p, s)
  {
    forall j | 0 <= j < |s| ensures (a + b)[p + j] == s[j] {
      assert a[p + j] == s[j];
    }
  }

  lemma AtRight(a: seq<Instr>, b: seq<Instr>, p: nat, s: seq<Instr>)
    requires At(b, p, s)
    ensures At(a + b, |a| + p, s)
  {
    forall j | 0 <= j < |s| ensures (a + b)[|a| + p + j] == s[j] {
      assert b[p + j] == s[j];
    }
  }

  lemma {:induction false} CodeAt(ts: seq<Token>, n: nat, i: nat)
    requires i < n <= |ts|
    ensures At(Code(ts, n), Off(ts, i), Instrs(ts[i]))
  {
    hide Instrs, At;
    if i < n - 1 {
      CodeAt(ts, n - 1, i);
      AtLeft(Code(ts, n - 1), Instrs(ts[n - 1]), Off(ts, i), Instrs(ts[i]));
    } else {
      AtSelf(Instrs(ts[i]));
      AtRight(Code(ts, i), Instrs(ts[i]), 0, Instrs(ts[i]));
    }
  }

  lemma {:induction false} MaskingAt(ts: seq<Token>, n: nat, i: nat, keep: set<Key>)
    requires i < n <= |ts|
    ensures At(Masking(ts, n, keep), Off(ts, i), Render(ts, i, keep, false))
  {
    hide Render, Instrs, At;
    if i < n - 1 {
      MaskingAt(ts, n - 1, i, keep);
      AtLeft(Masking(ts, n - 1, keep), Render(ts, n - 1, keep, false), Off(ts, i), Render(ts, i, keep, false));
    } else {
      AtSelf(Render(ts, i, keep, false));
      AtRight(Masking(ts, i, keep), Render(ts, i, keep, false), 0, Render(ts, i, keep, false));
    }
  }
}
