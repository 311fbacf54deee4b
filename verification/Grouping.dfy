/** What the dispatcher scan and the masking of unselected functions compute, as functions. */
module Grouping {
  import opened Instructions

  /** A selector as the four bytes of its hexadecimal key. */
  type Key = seq<Byte>

  const NO_SELECTOR: Key := [255, 255, 255, 255]

  /** One group of consecutive instructions. `owner` is the selector that opened the group,
      `hasGT` says whether a GT was met in it. */
  datatype Group = Group(owner: Option<Key>, hasGT: bool, body: seq<Instr>)

  /** The state of the scan. `flag` is 1 after CALLDATASIZE and 2 after CALLDATALOAD; `dests` holds
      a (group, offset) pair for each JUMPDEST met inside the dispatcher. */
  datatype Scan = Scan(flag: nat, revert: nat, groups: seq<Group>, dests: seq<(nat, nat)>)

  /** A scan ends at an offset, or fails on a PUSH that carries no argument. */
  datatype Outcome = Grouped(scan: Scan, end: nat) | KeyError

  const INITIAL := Scan(0, 0, [Group(None, false, [])], [])

  function SelectorKey(argument: seq<Byte>): Key {
    if |argument| == 3 then [0] + argument else argument
  }

  /** A three- or four-byte PUSH right after a DUP1 starts the group of a function. */
  predicate OpensGroup(last: seq<Instr>, ins: Instr) {
    && SelectorKey(ins.argument) != NO_SELECTOR
    && (ins.opcode == PUSH(3) || ins.opcode == PUSH(4))
    && last != [] && last[|last| - 1].opcode == DUP1
  }

  predicate Stops(s: Scan, ins: Instr) {
    ins.opcode == JUMPDEST && s.flag == 2 && s.revert == ins.address
  }

  predicate MissingArgument(s: Scan, ins: Instr) {
    ins.opcode.PUSH? && (s.flag == 1 || s.flag == 2) && ins.argument == []
  }

  function Last(s: Scan): Group
    requires s.groups != []
  {
    s.groups[|s.groups| - 1]
  }

  function WithLast(s: Scan, g: Group): Scan
    requires s.groups != []
  {
    s.(groups := s.groups[..|s.groups| - 1] + [g])
  }

  function Opened(s: Scan, owner: Option<Key>): Scan {
    s.(groups := s.groups + [Group(owner, false, [])])
  }

  /** The effect of an instruction before it is stored. */
  function React(s: Scan, ins: Instr, offset: nat): (r: Scan)
    requires s.groups != []
    ensures r.groups != []
  {
    match ins.opcode
    case CALLDATASIZE => s.(flag := 1)
    case CALLDATALOAD => s.(flag := 2)
    case PUSH(_) =>
      if s.flag == 1 && BigEndian(ins.argument) > 0 then s.(revert := BigEndian(ins.argument))
      else if s.flag == 2 && OpensGroup(Last(s).body, ins) then Opened(s, Some(SelectorKey(ins.argument)))
      else s
    case JUMPDEST =>
      if s.flag == 2 then Opened(s, None).(dests := s.dests + [(|s.groups|, offset)]) else s
    case GT => if s.flag == 2 then WithLast(s, Last(s).(hasGT := true)) else s
    case _ => s
  }

  function Next(s: Scan, ins: Instr, offset: nat): (r: Scan)
    requires s.groups != []
    ensures r.groups != []
  {
    var t := React(s, ins, offset);
    WithLast(t, Last(t).(body := Last(t).body + [ins]))
  }

  function ScanFrom(code: seq<Instr>, i: nat, s: Scan): (r: Outcome)
    requires i <= |code| && s.groups != []
    ensures r.Grouped? ==> i <= r.end <= |code|
    decreases |code| - i
  {
    if i == |code| || Stops(s, code[i]) then Grouped(s, i)
    else if MissingArgument(s, code[i]) then KeyError
    else ScanFrom(code, i + 1, Next(s, code[i], i))
  }

  /** Groups are erased when a function owns them, no GT is in them and the function is not kept. */
  predicate Masked(g: Group, keep: set<Key>) {
    g.owner.Some? && !g.hasGT && g.owner.value !in keep
  }

  function MaskBody(g: Group, keep: set<Key>): (r: seq<Instr>)
    ensures |r| == |g.body|
  {
    if Masked(g, keep) then EraseAll(g.body) else g.body
  }

  function Flat(groups: seq<Group>): seq<Instr> {
    if groups == [] then [] else Flat(groups[..|groups| - 1]) + groups[|groups| - 1].body
  }

  function Combine(groups: seq<Group>, keep: set<Key>): (r: seq<Instr>)
    ensures |r| == |Flat(groups)|
  {
    if groups == [] then []
    else Combine(groups[..|groups| - 1], keep) + MaskBody(groups[|groups| - 1], keep)
  }

  /** Index of the first instruction from `k` on that is not EMPTY. */
  function NextLive(code: seq<Instr>, k: nat): (n: nat)
    requires k <= |code|
    ensures k <= n <= |code|
    ensures n < |code| ==> code[n].opcode != EMPTY
    ensures forall m :: k <= m < n ==> code[m].opcode == EMPTY
    decreases |code| - k
  {
    if k == |code| || code[k].opcode != EMPTY then k else NextLive(code, k + 1)
  }

  /** A DUP1 dangles when the next live instruction is a recorded JUMPDEST, or when there is none.
      The code never looks at index 0 in the second case. */
  predicate Dangling(code: seq<Instr>, stops: set<nat>, atEnd: bool, k: nat)
    requires k < |code|
  {
    && code[k].opcode == DUP1
    && (NextLive(code, k + 1) in stops || (atEnd && k > 0 && NextLive(code, k + 1) == |code|))
  }

  function Patched(code: seq<Instr>, stops: set<nat>, atEnd: bool): (r: seq<Instr>)
    ensures |r| == |code|
    ensures forall k :: 0 <= k < |code| ==>
      r[k] == if Dangling(code, stops, atEnd, k) then Erase(code[k]) else code[k]
  {
    seq(|code|, k requires 0 <= k < |code| => if Dangling(code, stops, atEnd, k) then Erase(code[k]) else code[k])
  }

  function Offsets(dests: seq<(nat, nat)>): (r: set<nat>)
    ensures forall k :: 0 <= k < |dests| ==> dests[k].1 in r
  {
    set k | 0 <= k < |dests| :: dests[k].1
  }

  /** The instruction list in which only the functions of `keep` are left. */
  function MaskedCode(code: seq<Instr>, scan: Scan, end: nat, keep: set<Key>): seq<Instr>
    requires end <= |code|
  {
    Patched(Combine(scan.groups, keep), Offsets(scan.dests), true) + code[end..]
  }

  // ---------- facts that hold of the scan of any instruction list ----------

  /** What every step of the scan keeps. */
  ghost predicate Invariant(s: Scan, code: seq<Instr>, i: nat) {
    && i <= |code|
    && s.groups != []
    && s.groups[0].owner == None
    && Flat(s.groups) == code[..i]
    && (s.flag == 2 || |s.groups| > 1 ==> LoadInFirst(s))
    && DestsOrdered(s, i)
  }

  ghost predicate DestAt(s: Scan, d: (nat, nat)) {
    && 0 < d.0 < |s.groups|
    && s.groups[d.0].owner == None
    && s.groups[d.0].body != [] && s.groups[d.0].body[0].opcode == JUMPDEST
    && d.1 == |Flat(s.groups[..d.0])|
  }

  lemma {:induction false} FlatPrefix(groups: seq<Group>, p: nat)
    requires p < |groups|
    ensures |Flat(groups[..p])| + |groups[p].body| <= |Flat(groups)|
  {
    if p < |groups| - 1 {
      var init := groups[..|groups| - 1];
      assert init[..p] == groups[..p];
      FlatPrefix(init, p);
    }
  }

  /** Group `p` sits in the combined list right behind the groups before it. */
  lemma {:induction false} CombineAt(groups: seq<Group>, keep: set<Key>, p: nat, j: nat)
    requires p < |groups| && j < |groups[p].body|
    ensures |Flat(groups[..p])| + j < |Combine(groups, keep)|
    ensures Combine(groups, keep)[|Flat(groups[..p])| + j] == MaskBody(groups[p], keep)[j]
  {
    FlatPrefix(groups, p);
    var init := groups[..|groups| - 1];
    if p < |groups| - 1 {
      assert init[..p] == groups[..p];
      CombineAt(init, keep, p, j);
    }
  }

  /** Opening a group leaves the list as it is; storing an instruction appends it. */
  lemma FlatOpened(s: Scan, owner: Option<Key>)
    ensures Flat(Opened(s, owner).groups) == Flat(s.groups)
  {
    var t := Opened(s, owner).groups;
    assert t[..|t| - 1] == s.groups;
  }

  lemma FlatStored(s: Scan, ins: Instr)
    requires s.groups != []
    ensures Flat(WithLast(s, Last(s).(body := Last(s).body + [ins])).groups) == Flat(s.groups) + [ins]
  {
    var t := WithLast(s, Last(s).(body := Last(s).body + [ins])).groups;
    assert t[..|t| - 1] == s.groups[..|s.groups| - 1];
  }

  lemma FlatGT(s: Scan)
    requires s.groups != []
    ensures Flat(WithLast(s, Last(s).(hasGT := true)).groups) == Flat(s.groups)
  {
    var t := WithLast(s, Last(s).(hasGT := true)).groups;
    assert t[..|t| - 1] == s.groups[..|s.groups| - 1];
  }

  lemma FlatNext(s: Scan, ins: Instr, i: nat)
    requires s.groups != []
    ensures Flat(Next(s, ins, i).groups) == Flat(s.groups) + [ins]
  {
    FlatStored(React(s, ins, i), ins);
    match ins.opcode {
      case PUSH(_) => FlatOpened(s, Some(SelectorKey(ins.argument)));
      case JUMPDEST => FlatOpened(s, None);
      case GT => FlatGT(s);
      case _ =>
    }
  }

  /** Recorded JUMPDESTs stay where they are. */
  lemma DestStays(s: Scan, ins: Instr, i: nat, d: (nat, nat))
    requires s.groups != [] && DestAt(s, d)
    ensures DestAt(Next(s, ins, i), d)
  {
    var t := Next(s, ins, i);
    assert t.groups[..d.0] == s.groups[..d.0];
  }

  ghost predicate LoadInFirst(s: Scan) {
    s.groups != [] && exists k :: 0 <= k < |s.groups[0].body| && s.groups[0].body[k].opcode == CALLDATALOAD
  }

  /** The first CALLDATALOAD lies in the first group, which no function owns. */
  lemma FirstGroupStep(s: Scan, ins: Instr, i: nat)
    requires s.groups != [] && s.groups[0].owner == None
    requires s.flag == 2 || |s.groups| > 1 ==> LoadInFirst(s)
    ensures Next(s, ins, i).groups[0].owner == None
    ensures var t := Next(s, ins, i); t.flag == 2 || |t.groups| > 1 ==> LoadInFirst(t)
  {
    var t := Next(s, ins, i);
    assert s.groups[0].body <= t.groups[0].body;
    if LoadInFirst(s) {
      var k :| 0 <= k < |s.groups[0].body| && s.groups[0].body[k].opcode == CALLDATALOAD;
      assert t.groups[0].body[k].opcode == CALLDATALOAD;
    } else if ins.opcode == CALLDATALOAD {
      assert t.groups[0].body[|s.groups[0].body|] == ins;
    }
  }

  ghost predicate DestsOrdered(s: Scan, bound: nat) {
    && (forall d :: 0 <= d < |s.dests| ==> DestAt(s, s.dests[d]) && s.dests[d].1 < bound)
    && (forall d, e :: 0 <= d < e < |s.dests| ==> s.dests[d].1 < s.dests[e].1)
  }

  lemma DestsStep(s: Scan, ins: Instr, i: nat)
    requires s.groups != [] && DestsOrdered(s, i) && |Flat(s.groups)| == i
    ensures DestsOrdered(Next(s, ins, i), i + 1)
  {
    var t := Next(s, ins, i);
    forall d | 0 <= d < |s.dests| ensures DestAt(t, s.dests[d]) {
      DestStays(s, ins, i, s.dests[d]);
    }
    if ins.opcode == JUMPDEST && s.flag == 2 {
      assert t.dests == s.dests + [(|s.groups|, i)];
      assert t.groups[..|s.groups|] == s.groups;
      assert DestAt(t, (|s.groups|, i));
    } else {
      assert t.dests == s.dests;
    }
  }

  lemma InvariantStep(s: Scan, code: seq<Instr>, i: nat)
    requires Invariant(s, code, i) && i < |code|
    ensures Invariant(Next(s, code[i], i), code, i + 1)
  {
    FlatNext(s, code[i], i);
    assert code[..i + 1] == code[..i] + [code[i]];
    FirstGroupStep(s, code[i], i);
    DestsStep(s, code[i], i);
  }

  /** The groups concatenate back to the scanned part of the list, whatever the list. */
  lemma {:induction false} ScanKeepsInvariant(code: seq<Instr>, i: nat, s: Scan)
    requires Invariant(s, code, i)
    ensures ScanFrom(code, i, s).Grouped? ==>
      Invariant(ScanFrom(code, i, s).scan, code, ScanFrom(code, i, s).end)
    decreases |code| - i
  {
    if i < |code| && !Stops(s, code[i]) && !MissingArgument(s, code[i]) {
      InvariantStep(s, code, i);
      ScanKeepsInvariant(code, i + 1, Next(s, code[i], i));
    }
  }

  lemma InitialInvariant(code: seq<Instr>)
    ensures Invariant(INITIAL, code, 0)
  {
    assert INITIAL.groups[..0] == [];
    assert Flat(INITIAL.groups) == [];
  }

  /** In the combined list the first CALLDATALOAD and every recorded JUMPDEST are still live,
      and the CALLDATALOAD comes first. */
  lemma LiveLandmarks(s: Scan, code: seq<Instr>, i: nat, keep: set<Key>) returns (load: nat)
    requires Invariant(s, code, i) && s.dests != []
    ensures load < |Combine(s.groups, keep)| && Combine(s.groups, keep)[load].opcode == CALLDATALOAD
    ensures forall d :: 0 <= d < |s.dests| ==>
      load < s.dests[d].1 < |Combine(s.groups, keep)| && Combine(s.groups, keep)[s.dests[d].1].opcode == JUMPDEST
  {
    assert DestAt(s, s.dests[0]);
    load :| 0 <= load < |s.groups[0].body| && s.groups[0].body[load].opcode == CALLDATALOAD;
    assert s.groups[..0] == [];
    CombineAt(s.groups, keep, 0, load);
    forall d | 0 <= d < |s.dests|
      ensures load < s.dests[d].1 < |Combine(s.groups, keep)| && Combine(s.groups, keep)[s.dests[d].1].opcode == JUMPDEST
    {
      var p := s.dests[d].0;
      CombineAt(s.groups, keep, p, 0);
      var before := s.groups[..p];
      assert before[..0] == [];
      FlatPrefix(before, 0);
    }
  }

  // ---------- facts about masking any list ----------

  /** Index `k` of the scanned list belongs to a masked group. */
  ghost predicate InMaskedGroup(groups: seq<Group>, keep: set<Key>, k: nat) {
    exists p :: 0 <= p < |groups| && Masked(groups[p], keep)
      && |Flat(groups[..p])| <= k < |Flat(groups[..p])| + |groups[p].body|
  }

  /** Outside masked groups nothing changes, and addresses never do. */
  lemma {:induction false} CombineChanges(groups: seq<Group>, keep: set<Key>, k: nat)
    requires k < |Flat(groups)|
    ensures Combine(groups, keep)[k] == Flat(groups)[k]
      || (Combine(groups, keep)[k] == Erase(Flat(groups)[k]) && InMaskedGroup(groups, keep, k))
  {
    var n := |groups| - 1;
    var init := groups[..n];
    if k < |Flat(init)| {
      CombineChanges(init, keep, k);
      if InMaskedGroup(init, keep, k) {
        var p :| 0 <= p < |init| && Masked(init[p], keep)
             && |Flat(init[..p])| <= k < |Flat(init[..p])| + |init[p].body|;
        assert init[..p] == groups[..p];
      }
    } else if Masked(groups[n], keep) {
      assert InMaskedGroup(groups, keep, k) by { assert groups[..n] == init; }
    }
  }

  /** Masking keeps the number of instructions and the address at every index, erases only masked
      groups and DUP1s, and leaves everything from the end of the scan on untouched. */
  lemma MaskingIsLocal(code: seq<Instr>, keep: set<Key>)
    requires ScanFrom(code, 0, INITIAL).Grouped?
    ensures var out := ScanFrom(code, 0, INITIAL);
      var masked := MaskedCode(code, out.scan, out.end, keep);
      && |masked| == |code|
      && masked[out.end..] == code[out.end..]
      && (forall k :: 0 <= k < |code| ==> masked[k].address == code[k].address)
      && (forall k :: 0 <= k < |code| ==> masked[k] == code[k] || masked[k] == Erase(code[k]))
      && (forall k :: 0 <= k < |code| && masked[k] != code[k] ==>
            code[k].opcode == DUP1 || InMaskedGroup(out.scan.groups, keep, k))
  {
    var out := ScanFrom(code, 0, INITIAL);
    InitialInvariant(code);
    ScanKeepsInvariant(code, 0, INITIAL);
    var combined := Combine(out.scan.groups, keep);
    var patched := Patched(combined, Offsets(out.scan.dests), true);
    assert code == code[..out.end] + code[out.end..];
    forall k | 0 <= k < out.end
      ensures patched[k] == code[k] || (patched[k] == Erase(code[k]) && (code[k].opcode == DUP1 || InMaskedGroup(out.scan.groups, keep, k)))
    {
      assert code[k] == Flat(out.scan.groups)[k];
      CombineChanges(out.scan.groups, keep, k);
    }
  }

  lemma {:induction false} FlatAt(groups: seq<Group>, p: nat, j: nat)
    requires p < |groups| && j < |groups[p].body|
    ensures |Flat(groups[..p])| + j < |Flat(groups)|
    ensures Flat(groups)[|Flat(groups[..p])| + j] == groups[p].body[j]
  {
    FlatPrefix(groups, p);
    if p < |groups| - 1 {
      assert groups[..|groups| - 1][..p] == groups[..p];
      FlatAt(groups[..|groups| - 1], p, j);
    }
  }
}
