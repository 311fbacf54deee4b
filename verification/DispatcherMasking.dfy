/** Running the real scan and the real masking on a well-formed dispatcher gives exactly the tokens
    with the unselected functions erased. */
module DispatcherMasking {
  import opened Instructions
  import opened Grouping
  import opened Dispatcher

  // ---------- the scan, token by token ----------

  /** What holds of the scan in front of token `i`; `start` is the scan in front of the first token. */
  ghost predicate Scanned(code: seq<Instr>, base: nat, ts: seq<Token>, revert: nat, start: Scan, s: Scan, i: nat, keep: set<Key>)
    requires i <= |ts|
  {
    && s.groups != [] && s.flag == 2 && s.revert == revert
    && Settled(Last(s).body)
    && Masked(Last(s), keep) == MaskedBefore(ts, i, keep)
    && Combine(s.groups, keep) == Combine(start.groups, keep) + Masking(ts, i, keep)
    && Stored(code, base, base + Off(ts, i), s.dests)
  }

  /** Inside the dispatcher exactly the JUMPDESTs are recorded. */
  ghost predicate Stored(code: seq<Instr>, base: nat, p: nat, dests: seq<(nat, nat)>) {
    p <= |code| && forall k :: k in Offsets(dests) <==> base <= k < p && code[k].opcode == JUMPDEST
  }

  /** The open group does not end in a DUP1 that a PUSH could pair with. */
  predicate Settled(body: seq<Instr>) {
    body != [] && body[|body| - 1].opcode != DUP1
  }

  lemma Associative(a: seq<Instr>, b: seq<Instr>, c: seq<Instr>)
    ensures (a + b) + c == a + (b + c)
  {
  }

  lemma CombineAppended(groups: seq<Group>, g: Group, keep: set<Key>)
    ensures Combine(groups + [g], keep) == Combine(groups, keep) + MaskBody(g, keep)
  {
    hide MaskBody;
    assert (groups + [g])[..|groups|] == groups;
  }

  lemma MaskBodyStored(g: Group, ins: Instr, keep: set<Key>)
    ensures MaskBody(g.(body := g.body + [ins]), keep) == MaskBody(g, keep) + [if Masked(g, keep) then Erase(ins) else ins]
  {
  }

  lemma CombineStored(s: Scan, ins: Instr, keep: set<Key>)
    requires s.groups != []
    ensures Combine(Extended(s, ins).groups, keep)
      == Combine(s.groups, keep) + [if Masked(Last(s), keep) then Erase(ins) else ins]
  {
    hide Combine, MaskBody, Masked;
    var init, g := s.groups[..|s.groups| - 1], Last(s);
    assert s.groups == init + [g];
    CombineAppended(init, g, keep);
    CombineAppended(init, g.(body := g.body + [ins]), keep);
    MaskBodyStored(g, ins, keep);
    Associative(Combine(init, keep), MaskBody(g, keep), [if Masked(g, keep) then Erase(ins) else ins]);
  }

  /** The last group with one more instruction. */
  function Extended(s: Scan, ins: Instr): Scan
    requires s.groups != []
  {
    WithLast(s, Last(s).(body := Last(s).body + [ins]))
  }

  /** An instruction that opens no group is stored in the last one. */
  lemma NextStores(s: Scan, open: seq<Group>, g: Group, ins: Instr, p: nat)
    requires s.groups == open + [g] && s.flag == 2
    requires ins.opcode != JUMPDEST && ins.opcode != CALLDATASIZE
    requires ins.opcode.PUSH? ==> !OpensGroup(g.body, ins)
    ensures Next(s, ins, p) == s.(groups := open + [Group(g.owner, g.hasGT || ins.opcode == GT, g.body + [ins])])
  {
    var g' := Group(g.owner, g.hasGT || ins.opcode == GT, g.body);
    assert React(s, ins, p) == s.(groups := open + [g']);
    assert (open + [g'])[..|open|] == open;
  }

  /** A selector behind a DUP1 opens a group and is stored in it. */
  lemma NextOpens(s: Scan, ins: Instr, p: nat)
    requires s.groups != [] && s.flag == 2
    requires ins.opcode.PUSH? && OpensGroup(Last(s).body, ins)
    ensures Next(s, ins, p) == s.(groups := s.groups + [Group(Some(SelectorKey(ins.argument)), false, [ins])])
  {
    var g := Group(Some(SelectorKey(ins.argument)), false, []);
    assert (s.groups + [g])[..|s.groups|] == s.groups;
    assert g.body + [ins] == [ins];
  }

  /** A block leaves its DUP1 in the group before it and opens a group of its own. */
  lemma ScanBlock(code: seq<Instr>, p: nat, s: Scan, b: Block, cmp: Opcode) returns (t: Scan)
    requires s.groups != [] && s.flag == 2
    requires BlockOk(b, cmp) && (cmp == EQ || cmp == GT)
    requires At(code, p, [b.dup] + Core(b))
    ensures t == s.(groups := Extended(s, b.dup).groups + [Group(Some(KeyOf(b)), cmp == GT, Core(b))])
    ensures p + 5 <= |code| && ScanFrom(code, p, s) == ScanFrom(code, p + 5, t)
  {
    hide Next, ScanFrom;
    var block := [b.dup] + Core(b);
    assert code[p + 0] == block[0] && code[p + 1] == block[1] && code[p + 2] == block[2] && code[p + 3] == block[3] && code[p + 4] == block[4];
    var key := Some(KeyOf(b));
    assert s.groups == s.groups[..|s.groups| - 1] + [Last(s)];
    NextStores(s, s.groups[..|s.groups| - 1], Last(s), b.dup, p);
    var s1 := Next(s, b.dup, p);
    var open := s1.groups;
    assert open == Extended(s, b.dup).groups;
    NextOpens(s1, b.sel, p + 1);
    var s2 := Next(s1, b.sel, p + 1);
    NextStores(s2, open, Group(key, false, [b.sel]), b.cmp, p + 2);
    var s3 := Next(s2, b.cmp, p + 2);
    assert [b.sel] + [b.cmp] == [b.sel, b.cmp];
    NextStores(s3, open, Group(key, cmp == GT, [b.sel, b.cmp]), b.dst, p + 3);
    var s4 := Next(s3, b.dst, p + 3);
    assert [b.sel, b.cmp] + [b.dst] == [b.sel, b.cmp, b.dst];
    NextStores(s4, open, Group(key, cmp == GT, [b.sel, b.cmp, b.dst]), b.jumpi, p + 4);
    t := Next(s4, b.jumpi, p + 4);
    assert [b.sel, b.cmp, b.dst] + [b.jumpi] == Core(b);
    FiveSteps(code, p, s, s1, s2, s3, s4, t);
  }

  lemma FiveSteps(code: seq<Instr>, p: nat, s0: Scan, s1: Scan, s2: Scan, s3: Scan, s4: Scan, s5: Scan)
    requires p + 5 <= |code| && s0.groups != []
    requires s1 == Next(s0, code[p], p) && s2 == Next(s1, code[p + 1], p + 1) && s3 == Next(s2, code[p + 2], p + 2)
    requires s4 == Next(s3, code[p + 3], p + 3) && s5 == Next(s4, code[p + 4], p + 4)
    requires forall k :: p <= k < p + 5 ==> code[k].opcode != JUMPDEST && (code[k].opcode.PUSH? ==> code[k].argument != [])
    ensures ScanFrom(code, p, s0) == ScanFrom(code, p + 5, s5)
  {
    hide Next;
    assert ScanFrom(code, p, s0) == ScanFrom(code, p + 1, s1);
    assert ScanFrom(code, p + 1, s1) == ScanFrom(code, p + 2, s2);
    assert ScanFrom(code, p + 2, s2) == ScanFrom(code, p + 3, s3);
    assert ScanFrom(code, p + 3, s3) == ScanFrom(code, p + 4, s4);
    assert ScanFrom(code, p + 4, s4) == ScanFrom(code, p + 5, s5);
  }

  lemma StoredSkips(code: seq<Instr>, base: nat, p: nat, q: nat, dests: seq<(nat, nat)>)
    requires Stored(code, base, p, dests) && base <= p <= q <= |code|
    requires forall k :: p <= k < q ==> code[k].opcode != JUMPDEST
    ensures Stored(code, base, q, dests)
  {
  }

  lemma StoredAdds(code: seq<Instr>, base: nat, p: nat, dests: seq<(nat, nat)>, g: nat)
    requires Stored(code, base, p, dests) && base <= p < |code| && code[p].opcode == JUMPDEST
    ensures Stored(code, base, p + 1, dests + [(g, p)])
  {
    var more := dests + [(g, p)];
    forall k ensures k in Offsets(more) <==> k in Offsets(dests) || k == p {
      if k in Offsets(dests) {
        var d :| 0 <= d < |dests| && dests[d].1 == k;
        assert more[d].1 == k;
      }
      assert more[|dests|].1 == p;
    }
  }

  lemma CombineBlock(s: Scan, b: Block, g: Group, keep: set<Key>)
    requires s.groups != []
    ensures Combine(Extended(s, b.dup).groups + [g], keep)
      == Combine(s.groups, keep) + [if Masked(Last(s), keep) then Erase(b.dup) else b.dup] + MaskBody(g, keep)
  {
    hide Combine;
    CombineStored(s, b.dup, keep);
    CombineAppended(Extended(s, b.dup).groups, g, keep);
  }

  /** One token further: the combined list grows by the token's rendering. */
  lemma Advance(code: seq<Instr>, base: nat, ts: seq<Token>, revert: nat, start: Scan, s: Scan, t: Scan, i: nat, keep: set<Key>)
    requires i < |ts| && Scanned(code, base, ts, revert, start, s, i, keep)
    requires t.groups != [] && t.flag == 2 && t.revert == revert && Settled(Last(t).body)
    requires Masked(Last(t), keep) == MaskedBefore(ts, i + 1, keep)
    requires Combine(t.groups, keep) == Combine(s.groups, keep) + Render(ts, i, keep, false)
    requires Stored(code, base, base + Off(ts, i + 1), t.dests)
    ensures Scanned(code, base, ts, revert, start, t, i + 1, keep)
  {
    hide Combine, Render, Stored, Off, Settled, MaskedBefore, Masked, Masking;
    MaskingStep(ts, i, keep);
    Associative(Combine(start.groups, keep), Masking(ts, i, keep), Render(ts, i, keep, false));
  }

  lemma MaskingStep(ts: seq<Token>, i: nat, keep: set<Key>)
    requires i < |ts|
    ensures Masking(ts, i + 1, keep) == Masking(ts, i, keep) + Render(ts, i, keep, false)
  {
    hide Render;
  }

  /** Unmasked or masked, a block's rendering is its DUP1 followed by its masked group. */
  lemma RenderBlock(ts: seq<Token>, i: nat, keep: set<Key>, last: Group, g: Group)
    requires i < |ts| && (ts[i].Compare? || ts[i].Split?)
    requires Masked(last, keep) == MaskedBefore(ts, i, keep)
    requires g == Group(Some(KeyOf(ts[i].b)), ts[i].Split?, Core(ts[i].b))
    ensures Masked(g, keep) == MaskedBefore(ts, i + 1, keep)
    ensures Render(ts, i, keep, false) == [if Masked(last, keep) then Erase(ts[i].b.dup) else ts[i].b.dup] + MaskBody(g, keep)
  {
  }

  lemma CombineRendered(s: Scan, ts: seq<Token>, i: nat, g: Group, keep: set<Key>)
    requires s.groups != [] && i < |ts| && (ts[i].Compare? || ts[i].Split?)
    requires Masked(Last(s), keep) == MaskedBefore(ts, i, keep)
    requires g == Group(Some(KeyOf(ts[i].b)), ts[i].Split?, Core(ts[i].b))
    ensures Masked(g, keep) == MaskedBefore(ts, i + 1, keep)
    ensures Combine(Extended(s, ts[i].b.dup).groups + [g], keep) == Combine(s.groups, keep) + Render(ts, i, keep, false)
  {
    hide Combine, Render, MaskedBefore, Masked, MaskBody, Extended, Core;
    var b := ts[i].b;
    CombineBlock(s, b, g, keep);
    RenderBlock(ts, i, keep, Last(s), g);
    var x := [if Masked(Last(s), keep) then Erase(b.dup) else b.dup];
    Associative(Combine(s.groups, keep), x, MaskBody(g, keep));
  }

  lemma BlockHasNoJumpdest(code: seq<Instr>, p: nat, b: Block, cmp: Opcode)
    requires BlockOk(b, cmp) && (cmp == EQ || cmp == GT) && At(code, p, [b.dup] + Core(b))
    ensures forall k :: p <= k < p + 5 ==> code[k].opcode != JUMPDEST
  {
    hide SelectorKey;
    var block := [b.dup] + Core(b);
    forall k | p <= k < p + 5 ensures code[k].opcode != JUMPDEST {
      assert code[p + (k - p)] == block[k - p];
    }
  }

  lemma BlockFacts(ts: seq<Token>, i: nat, revert: nat)
    requires i < |ts| && TokenOk(ts[i], revert) && (ts[i].Compare? || ts[i].Split?)
    ensures BlockOk(ts[i].b, if ts[i].Compare? then EQ else GT)
    ensures Instrs(ts[i]) == [ts[i].b.dup] + Core(ts[i].b) && Off(ts, i + 1) == Off(ts, i) + 5
  {
    hide BlockOk;
  }

  lemma ScanCompareOrSplit(code: seq<Instr>, base: nat, ts: seq<Token>, revert: nat, start: Scan, s: Scan, i: nat, keep: set<Key>)
    returns (t: Scan)
    requires i < |ts| && TokenOk(ts[i], revert) && (ts[i].Compare? || ts[i].Split?)
    requires Scanned(code, base, ts, revert, start, s, i, keep)
    requires At(code, base + Off(ts, i), Instrs(ts[i]))
    ensures Scanned(code, base, ts, revert, start, t, i + 1, keep)
    ensures ScanFrom(code, base + Off(ts, i), s) == ScanFrom(code, base + Off(ts, i + 1), t)
  {
    hide ScanFrom, Combine, Stored, SelectorKey, BlockOk, At, Render, MaskedBefore, Masked, Masking, Settled, Core, Extended, Next, Off, Instrs, TokenOk;
    var p, b := base + Off(ts, i), ts[i].b;
    var cmp := if ts[i].Compare? then EQ else GT;
    BlockFacts(ts, i, revert);
    t := ScanBlock(code, p, s, b, cmp);
    var g := Group(Some(KeyOf(b)), cmp == GT, Core(b));
    CombineRendered(s, ts, i, g, keep);
    BlockHasNoJumpdest(code, p, b, cmp);
    StoredSkips(code, base, p, p + 5, t.dests);
    SettledBlock(b, cmp);
    Advance(code, base, ts, revert, start, s, t, i, keep);
  }

  lemma SettledBlock(b: Block, cmp: Opcode)
    requires BlockOk(b, cmp)
    ensures Settled(Core(b))
  {
  }

  lemma ScanExit(code: seq<Instr>, base: nat, ts: seq<Token>, revert: nat, start: Scan, s: Scan, i: nat, keep: set<Key>)
    returns (t: Scan)
    requires i < |ts| && TokenOk(ts[i], revert) && ts[i].Exit?
    requires Scanned(code, base, ts, revert, start, s, i, keep)
    requires At(code, base + Off(ts, i), Instrs(ts[i]))
    ensures Scanned(code, base, ts, revert, start, t, i + 1, keep)
    ensures ScanFrom(code, base + Off(ts, i), s) == ScanFrom(code, base + Off(ts, i + 1), t)
  {
    hide ScanFrom, Combine, Stored, At, Render, MaskedBefore, MaskBody, Masking, PushOk, BigEndian, KeyOf;
    var p := base + Off(ts, i);
    t := ScanTwo(code, p, s, ts[i].push, ts[i].jump);
    CombineStored(s, ts[i].push, keep);
    CombineStored(Extended(s, ts[i].push), ts[i].jump, keep);
    RenderExit(ts, i, keep, Last(s), Last(t));
    var gone := Masked(Last(s), keep);
    Associative(Combine(s.groups, keep), [if gone then Erase(ts[i].push) else ts[i].push], [if gone then Erase(ts[i].jump) else ts[i].jump]);
    StoredSkips(code, base, p, p + 2, t.dests);
    Advance(code, base, ts, revert, start, s, t, i, keep);
  }

  lemma ScanTwo(code: seq<Instr>, p: nat, s: Scan, push: Instr, jump: Instr) returns (t: Scan)
    requires s.groups != [] && s.flag == 2 && Settled(Last(s).body)
    requires PushOk(push) && jump.opcode == JUMP && At(code, p, [push, jump])
    ensures t == Extended(Extended(s, push), jump)
    ensures p + 2 <= |code| && ScanFrom(code, p, s) == ScanFrom(code, p + 2, t)
    ensures forall k :: p <= k < p + 2 ==> code[k].opcode != JUMPDEST
  {
    var open := s.groups[..|s.groups| - 1];
    assert code[p + 0] == [push, jump][0] && code[p + 1] == [push, jump][1];
    assert s.groups == open + [Last(s)];
    NextStores(s, open, Last(s), push, p);
    var s1 := Next(s, push, p);
    NextStores(s1, open, Last(s1), jump, p + 1);
    t := Next(s1, jump, p + 1);
    assert s1 == Extended(s, push) && t == Extended(s1, jump);
    assert ScanFrom(code, p, s) == ScanFrom(code, p + 1, s1);
  }

  lemma RenderExit(ts: seq<Token>, i: nat, keep: set<Key>, last: Group, last': Group)
    requires i < |ts| && ts[i].Exit?
    requires Masked(last, keep) == MaskedBefore(ts, i, keep)
    requires last'.owner == last.owner && last'.hasGT == last.hasGT
    ensures Masked(last', keep) == MaskedBefore(ts, i + 1, keep)
    ensures Render(ts, i, keep, false)
      == [if Masked(last, keep) then Erase(ts[i].push) else ts[i].push] + [if Masked(last, keep) then Erase(ts[i].jump) else ts[i].jump]
  {
  }

  lemma ScanTarget(code: seq<Instr>, base: nat, ts: seq<Token>, revert: nat, start: Scan, s: Scan, i: nat, keep: set<Key>)
    returns (t: Scan)
    requires i < |ts| && TokenOk(ts[i], revert) && ts[i].Target?
    requires Scanned(code, base, ts, revert, start, s, i, keep)
    requires At(code, base + Off(ts, i), Instrs(ts[i]))
    ensures Scanned(code, base, ts, revert, start, t, i + 1, keep)
    ensures ScanFrom(code, base + Off(ts, i), s) == ScanFrom(code, base + Off(ts, i + 1), t)
  {
    hide ScanFrom, Combine, Stored, At, Render, MaskedBefore, Masked, MaskBody, Masking;
    var p, dest := base + Off(ts, i), ts[i].dest;
    t := ScanJumpdest(code, p, s, dest);
    CombineAppended(s.groups, Group(None, false, [dest]), keep);
    RenderTarget(ts, i, keep);
    StoredAdds(code, base, p, s.dests, |s.groups|);
    Advance(code, base, ts, revert, start, s, t, i, keep);
  }

  lemma RenderTarget(ts: seq<Token>, i: nat, keep: set<Key>)
    requires i < |ts| && ts[i].Target?
    ensures var g := Group(None, false, [ts[i].dest]);
      Masked(g, keep) == MaskedBefore(ts, i + 1, keep) && MaskBody(g, keep) == Render(ts, i, keep, false)
  {
  }

  lemma ScanJumpdest(code: seq<Instr>, p: nat, s: Scan, dest: Instr) returns (t: Scan)
    requires s.groups != [] && s.flag == 2 && dest.opcode == JUMPDEST && dest.address != s.revert
    requires At(code, p, [dest])
    ensures t == s.(groups := s.groups + [Group(None, false, [dest])], dests := s.dests + [(|s.groups|, p)])
    ensures p + 1 <= |code| && code[p] == dest && ScanFrom(code, p, s) == ScanFrom(code, p + 1, t)
  {
    assert code[p + 0] == [dest][0];
    t := Next(s, dest, p);
    assert (s.groups + [Group(None, false, [])])[..|s.groups|] == s.groups;
    assert [] + [dest] == [dest];
  }

  /** The scan in front of every token, by induction over the tokens. */
  lemma {:induction false} ScanTokens(code: seq<Instr>, base: nat, ts: seq<Token>, revert: nat, start: Scan, i: nat, keep: set<Key>)
    returns (s: Scan)
    requires i <= |ts| && TokensOk(ts, revert)
    requires Lays(code, base, ts)
    requires Scanned(code, base, ts, revert, start, start, 0, keep)
    ensures Scanned(code, base, ts, revert, start, s, i, keep)
    ensures ScanFrom(code, base, start) == ScanFrom(code, base + Off(ts, i), s)
  {
    hide Scanned, ScanFrom, Lays, At, Instrs, TokenOk;
    if i == 0 {
      return start;
    }
    s := ScanTokens(code, base, ts, revert, start, i - 1, keep);
    LaysAt(code, base, ts, i - 1);
    match ts[i - 1] {
      case Exit(_, _) => s := ScanExit(code, base, ts, revert, start, s, i - 1, keep);
      case Target(_) => s := ScanTarget(code, base, ts, revert, start, s, i - 1, keep);
      case _ => s := ScanCompareOrSplit(code, base, ts, revert, start, s, i - 1, keep);
    }
  }

  // ---------- in front of the first token ----------

  /** Before the first comparison everything is in one group that no function owns. */
  ghost predicate OneGroup(s: Scan, code: seq<Instr>, i: nat) {
    && i <= |code| && s.dests == []
    && |s.groups| == 1 && s.groups[0].owner == None && s.groups[0].body == code[..i]
  }

  lemma OneGroupStep(s: Scan, code: seq<Instr>, i: nat)
    requires i < |code| && OneGroup(s, code, i)
    requires s.flag == 2 ==> code[i].opcode != JUMPDEST && (i > 0 ==> code[i - 1].opcode != DUP1)
    requires code[i].opcode.PUSH? ==> code[i].argument != []
    ensures var t := Next(s, code[i], i);
      && OneGroup(t, code, i + 1)
      && t.flag == (if code[i].opcode == CALLDATASIZE then 1 else if code[i].opcode == CALLDATALOAD then 2 else s.flag)
      && t.revert == (if code[i].opcode.PUSH? && s.flag == 1 && BigEndian(code[i].argument) > 0
                      then BigEndian(code[i].argument) else s.revert)
    ensures ScanFrom(code, i, s) == ScanFrom(code, i + 1, Next(s, code[i], i))
  {
    assert code[..i + 1] == code[..i] + [code[i]];
    assert Last(s).body == code[..i];
  }

  lemma {:induction false} ScanPrologue(code: seq<Instr>, p: seq<Instr>, revert: nat, c: nat, r: nat, i: nat)
    returns (s: Scan)
    requires p <= code && i <= |p| && PrologueOk(p, revert)
    requires c < r < |p| && p[c].opcode == CALLDATASIZE && NamesRevert(p, r, revert)
    ensures OneGroup(s, code, i) && s.flag <= 1
    ensures c < i ==> s.flag == 1
    ensures r < i ==> s.revert == revert
    ensures ScanFrom(code, 0, INITIAL) == ScanFrom(code, i, s)
  {
    hide Next, ScanFrom, BigEndian;
    if i == 0 {
      return INITIAL;
    }
    s := ScanPrologue(code, p, revert, c, r, i - 1);
    assert code[i - 1] == p[i - 1];
    OneGroupStep(s, code, i - 1);
    s := Next(s, code[i - 1], i - 1);
  }

  lemma {:induction false} ScanDecode(code: seq<Instr>, d: Dispatcher, i: nat) returns (s: Scan)
    requires d.prologue + [d.load] + d.decode <= code && i <= |d.decode|
    requires PrologueOk(d.prologue, d.revert.address) && DecodeOk(d.decode) && d.load.opcode == CALLDATALOAD
    ensures OneGroup(s, code, |d.prologue| + 1 + i) && s.flag == 2 && s.revert == d.revert.address
    ensures ScanFrom(code, 0, INITIAL) == ScanFrom(code, |d.prologue| + 1 + i, s)
  {
    hide Next, ScanFrom, BigEndian, NamesRevert;
    var n := |d.prologue|;
    if i == 0 {
      var c, r :| 0 <= c < r < n && d.prologue[c].opcode == CALLDATASIZE && NamesRevert(d.prologue, r, d.revert.address);
      s := ScanPrologue(code, d.prologue, d.revert.address, c, r, n);
      assert code[n] == d.load;
      OneGroupStep(s, code, n);
      s := Next(s, code[n], n);
    } else {
      s := ScanDecode(code, d, i - 1);
      assert code[n + i] == d.decode[i - 1];
      assert code[n + i - 1] == if i == 1 then d.load else d.decode[i - 2];
      OneGroupStep(s, code, n + i);
      s := Next(s, code[n + i], n + i);
    }
  }

  lemma CodeLaysOut(d: Dispatcher)
    ensures Lays(CodeOf(d), Base(d), Tokens(d.tree))
    ensures d.prologue + [d.load] + d.decode <= CodeOf(d)
    ensures Limit(d) < |CodeOf(d)| && CodeOf(d)[Limit(d)] == d.revert
    ensures CodeOf(d)[Limit(d) + 1..] == d.body
  {
    hide Tokens, At, Instrs, Code, Off;
    var ts := Tokens(d.tree);
    var front, tokens, back := d.prologue + [d.load] + d.decode, Code(ts, |ts|), [d.revert] + d.body;
    assert CodeOf(d) == front + (tokens + back);
    forall i | 0 <= i < |ts| ensures At(CodeOf(d), Base(d) + Off(ts, i), Instrs(ts[i])) {
      CodeAt(ts, |ts|, i);
      AtLeft(tokens, back, Off(ts, i), Instrs(ts[i]));
      AtRight(front, tokens + back, Off(ts, i), Instrs(ts[i]));
    }
  }

  /** The scan of a well-formed dispatcher ends at the revert block, with the tokens masked as `Masking` says. */
  lemma ScanWhole(d: Dispatcher, keep: set<Key>) returns (s: Scan)
    requires WellFormed(d)
    ensures ScanFrom(CodeOf(d), 0, INITIAL) == Grouped(s, Limit(d))
    ensures Combine(s.groups, keep) == CodeOf(d)[..Base(d)] + Masking(Tokens(d.tree), |Tokens(d.tree)|, keep)
    ensures Stored(CodeOf(d), Base(d), Limit(d), s.dests)
  {
    hide ScanFrom, Combine, Lays, Masking, CodeOf, Tokens, Off, Stored, OneGroup, TokensOk, Sorted, Linked, EntriesOk, DecodeOk, PrologueOk, Increasing;
    var code, ts := CodeOf(d), Tokens(d.tree);
    CodeLaysOut(d);
    var start := ScanDecode(code, d, |d.decode|);
    StartScanned(d, start, keep);
    s := ScanTokens(code, Base(d), ts, d.revert.address, start, |ts|, keep);
    ScanStops(code, Limit(d), s);
  }

  lemma ScanStops(code: seq<Instr>, i: nat, s: Scan)
    requires i < |code| && s.groups != [] && Stops(s, code[i])
    ensures ScanFrom(code, i, s) == Grouped(s, i)
  {
  }

  lemma StartCombined(start: Scan, code: seq<Instr>, i: nat, keep: set<Key>)
    requires OneGroup(start, code, i)
    ensures Combine(start.groups, keep) == code[..i] && start.groups != [] && Last(start).body == code[..i]
    ensures !Masked(Last(start), keep) && start.dests == []
  {
    assert start.groups[..0] == [];
    assert Combine([], keep) == [];
    assert Combine(start.groups, keep) == [] + code[..i];
  }

  lemma LastBefore(d: Dispatcher)
    requires WellFormed(d)
    ensures 0 < Base(d) <= |CodeOf(d)| && CodeOf(d)[Base(d) - 1].opcode != DUP1
  {
    hide Tokens, Sorted, Linked, EntriesOk, PrologueOk, Increasing, TokensOk;
    assert CodeOf(d)[Base(d) - 1] == if d.decode == [] then d.load else d.decode[|d.decode| - 1];
  }

  lemma StartScanned(d: Dispatcher, start: Scan, keep: set<Key>)
    requires WellFormed(d)
    requires OneGroup(start, CodeOf(d), Base(d)) && start.flag == 2 && start.revert == d.revert.address
    ensures Combine(start.groups, keep) == CodeOf(d)[..Base(d)]
    ensures Scanned(CodeOf(d), Base(d), Tokens(d.tree), d.revert.address, start, start, 0, keep)
  {
    hide WellFormed, Tokens, CodeOf, Base, OneGroup, Combine, Masked;
    StartCombined(start, CodeOf(d), Base(d), keep);
    LastBefore(d);
    assert Combine(start.groups, keep) + [] == Combine(start.groups, keep);
  }
}
