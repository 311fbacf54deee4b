/** Which instructions masking erases, told from the instruction list alone. */
module Erasure {
  import opened Instructions
  import opened Grouping

  // ---------- what the scan sees at an index ----------

  /** The flag in front of an index: 1 after CALLDATASIZE, 2 after CALLDATALOAD. */
  function FlagAt(code: seq<Instr>, k: nat): nat
    requires k <= |code|
  {
    if k == 0 then 0
    else if code[k - 1].opcode == CALLDATASIZE then 1
    else if code[k - 1].opcode == CALLDATALOAD then 2
    else FlagAt(code, k - 1)
  }

  /** The address of the revert block in front of an index: the last nonzero PUSH under flag 1. */
  function RevertAt(code: seq<Instr>, k: nat): nat
    requires k <= |code|
  {
    if k == 0 then 0
    else if code[k - 1].opcode.PUSH? && FlagAt(code, k - 1) == 1 && BigEndian(code[k - 1].argument) > 0 then BigEndian(code[k - 1].argument)
    else RevertAt(code, k - 1)
  }

  /** The JUMPDEST of the revert block, at which the scan stops. */
  predicate IsEnd(code: seq<Instr>, k: nat)
    requires k < |code|
  {
    code[k].opcode == JUMPDEST && FlagAt(code, k) == 2 && RevertAt(code, k) == code[k].address
  }

  function EndFrom(code: seq<Instr>, k: nat): (end: nat)
    requires k <= |code|
    ensures k <= end <= |code| && (end < |code| ==> IsEnd(code, end)) && forall m :: k <= m < end ==> !IsEnd(code, m)
    decreases |code| - k
  {
    if k == |code| || IsEnd(code, k) then k else EndFrom(code, k + 1)
  }

  /** The first instruction behind the dispatcher. */
  function DispatcherEnd(code: seq<Instr>): (end: nat)
    ensures end <= |code|
  {
    EndFrom(code, 0)
  }

  /** No PUSH without argument is looked at. */
  predicate Readable(code: seq<Instr>, k: nat)
    requires k < |code|
  {
    code[k].opcode.PUSH? && FlagAt(code, k) > 0 ==> code[k].argument != []
  }

  /** A selector that opens the group of its function. */
  predicate OpensAt(code: seq<Instr>, k: nat)
    requires k < |code|
  {
    && k > 0 && code[k - 1].opcode == DUP1 && FlagAt(code, k) == 2
    && (code[k].opcode == PUSH(3) || code[k].opcode == PUSH(4)) && SelectorKey(code[k].argument) != NO_SELECTOR
  }

  predicate Begins(code: seq<Instr>, k: nat)
    requires k < |code|
  {
    OpensAt(code, k) || (code[k].opcode == JUMPDEST && FlagAt(code, k) == 2)
  }

  /** A GT that the scan notes. */
  predicate IsSplit(code: seq<Instr>, k: nat)
    requires k < |code|
  {
    code[k].opcode == GT && FlagAt(code, k) == 2
  }

  /** The instruction at `k` belongs to the group of the selector at `o`, and no GT protects the group. */
  ghost predicate Owns(code: seq<Instr>, o: nat, k: nat) {
    && o <= k < DispatcherEnd(code) && OpensAt(code, o)
    && (forall m :: o < m <= k ==> !Begins(code, m))
    && forall m :: o < m < DispatcherEnd(code) && IsSplit(code, m) ==> exists n :: o < n <= m && Begins(code, n)
  }

  /** The selector whose group holds the instruction is not kept. */
  ghost predicate Erased(code: seq<Instr>, keep: set<Key>, k: nat) {
    exists o: nat :: o < |code| && Owns(code, o, k) && SelectorKey(code[o].argument) !in keep
  }

  // ---------- the groups of the scan ----------

  /** What a group says about its stretch of the list. */
  ghost predicate Describes(code: seq<Instr>, start: nat, first: bool, g: Group) {
    && start + |g.body| <= |code|
    && (first ==> start == 0 && g.owner == None && forall m :: 0 <= m < |g.body| ==> !Begins(code, m))
    && (!first ==>
          && g.body != [] && Begins(code, start)
          && (g.owner.Some? <==> OpensAt(code, start))
          && (g.owner.Some? ==> g.owner.value == SelectorKey(code[start].argument))
          && forall m :: start < m < start + |g.body| ==> !Begins(code, m))
    && (g.hasGT <==> exists m :: start <= m < start + |g.body| && IsSplit(code, m))
  }

  function Start(groups: seq<Group>, p: nat): nat
    requires p <= |groups|
  {
    |Flat(groups[..p])|
  }

  ghost predicate Reads(s: Scan, code: seq<Instr>, i: nat) {
    && i <= |code| && s.groups != [] && Flat(s.groups) == code[..i]
    && s.flag == FlagAt(code, i) && s.revert == RevertAt(code, i)
    && forall p :: 0 <= p < |s.groups| ==> Describes(code, Start(s.groups, p), p == 0, s.groups[p])
  }

  lemma StartOfNext(groups: seq<Group>, p: nat)
    requires p < |groups|
    ensures Start(groups, p + 1) == Start(groups, p) + |groups[p].body|
  {
    assert groups[..p + 1][..p] == groups[..p];
  }

  lemma StartOfAll(groups: seq<Group>)
    ensures Start(groups, |groups|) == |Flat(groups)|
  {
    assert groups[..|groups|] == groups;
  }

  lemma FlagIsSmall(code: seq<Instr>, k: nat)
    requires k <= |code|
    ensures FlagAt(code, k) <= 2
  {
  }

  /** The last stored instruction is the one in front. */
  lemma LastStored(s: Scan, code: seq<Instr>, i: nat)
    requires s.groups != [] && 0 < i <= |code| && Flat(s.groups) == code[..i] && Last(s).body != []
    ensures Last(s).body[|Last(s).body| - 1] == code[i - 1]
  {
    var n := |s.groups| - 1;
    assert Flat(s.groups) == Flat(s.groups[..n]) + Last(s).body;
    assert code[..i][i - 1] == code[i - 1];
  }

  /** The scan opens a group for an instruction exactly where one begins. */
  lemma OpensWhereBegins(s: Scan, code: seq<Instr>, i: nat)
    requires Reads(s, code, i) && i < |code|
    ensures s.flag == 2 && code[i].opcode.PUSH? ==> (OpensGroup(Last(s).body, code[i]) <==> OpensAt(code, i))
  {
    hide Flat;
    var n: nat := |s.groups| - 1;
    assert Describes(code, Start(s.groups, n), n == 0, s.groups[n]);
    StartOfNext(s.groups, n);
    StartOfAll(s.groups);
    if n == 0 {
      assert s.groups[..0] == [];
      NothingFlat();
    }
    if i > 0 {
      LastStored(s, code, i);
    }
  }

  lemma NothingFlat()
    ensures Flat([]) == []
  {
  }

  /** Storing an instruction that begins no group extends the description of the last one. */
  lemma ExtendLast(code: seq<Instr>, start: nat, first: bool, g: Group, i: nat, gt: bool)
    requires Describes(code, start, first, g) && i == start + |g.body| && i < |code|
    requires !Begins(code, i) && (gt <==> g.hasGT || IsSplit(code, i))
    ensures Describes(code, start, first, Group(g.owner, gt, g.body + [code[i]]))
  {
    hide Begins, OpensAt, IsSplit;
    if g.hasGT {
      var m :| start <= m < start + |g.body| && IsSplit(code, m);
    }
  }

  lemma NewGroup(code: seq<Instr>, i: nat)
    requires i < |code| && Begins(code, i)
    ensures Describes(code, i, false, Group(if OpensAt(code, i) then Some(SelectorKey(code[i].argument)) else None, false, [code[i]]))
  {
  }

  /** How one instruction changes the groups. */
  lemma NextGroups(s: Scan, code: seq<Instr>, i: nat)
    requires Reads(s, code, i) && i < |code|
    ensures var t := Next(s, code[i], i);
      t.groups == if Begins(code, i)
        then s.groups + [Group(if OpensAt(code, i) then Some(SelectorKey(code[i].argument)) else None, false, [code[i]])]
        else s.groups[..|s.groups| - 1] + [Group(Last(s).owner, Last(s).hasGT || IsSplit(code, i), Last(s).body + [code[i]])]
  {
    hide Flat, Describes;
    OpensWhereBegins(s, code, i);
    assert s.flag == FlagAt(code, i);
    var ins := code[i];
    var r := React(s, ins, i);
    match ins.opcode {
      case PUSH(_) =>
        if s.flag == 2 && OpensGroup(Last(s).body, ins) {
          assert r.groups[..|r.groups| - 1] == s.groups;
          assert [] + [ins] == [ins];
        }
      case JUMPDEST =>
        if s.flag == 2 {
          assert r.groups[..|r.groups| - 1] == s.groups;
          assert [] + [ins] == [ins];
        }
      case GT =>
        assert s.flag == 2 ==> r.groups[..|r.groups| - 1] == s.groups[..|s.groups| - 1];
      case _ =>
    }
  }

  lemma ReadsStep(s: Scan, code: seq<Instr>, i: nat)
    requires Reads(s, code, i) && i < |code|
    ensures Reads(Next(s, code[i], i), code, i + 1)
  {
    hide Flat, Describes, Begins, OpensAt, IsSplit;
    var t := Next(s, code[i], i);
    NextGroups(s, code, i);
    FlatNext(s, code[i], i);
    assert code[..i + 1] == code[..i] + [code[i]];
    FlagStep(s, code, i);
    StartOfAll(s.groups);
    var n: nat := |s.groups| - 1;
    StartOfNext(s.groups, n);
    forall p | 0 <= p < |t.groups| ensures Describes(code, Start(t.groups, p), p == 0, t.groups[p]) {
      if p < n || (p == n && Begins(code, i)) {
        assert t.groups[..p] == s.groups[..p];
      } else if p == n {
        assert t.groups[..n] == s.groups[..n];
        ExtendLast(code, Start(s.groups, n), n == 0, Last(s), i, Last(s).hasGT || IsSplit(code, i));
      } else {
        assert t.groups[..p] == s.groups;
        NewGroup(code, i);
      }
    }
  }

  lemma FlagStep(s: Scan, code: seq<Instr>, i: nat)
    requires i < |code| && s.groups != [] && s.flag == FlagAt(code, i) && s.revert == RevertAt(code, i)
    ensures var t := Next(s, code[i], i); t.flag == FlagAt(code, i + 1) && t.revert == RevertAt(code, i + 1)
  {
  }

  lemma ReadsInitially(code: seq<Instr>)
    ensures Reads(INITIAL, code, 0)
  {
    assert INITIAL.groups[..0] == [];
    assert Flat(INITIAL.groups) == [];
  }

  /** The scan groups the list exactly when no PUSH without argument is looked at, and it ends where the
      list says. */
  lemma {:induction false} ScanReads(code: seq<Instr>, i: nat, s: Scan)
    requires Reads(s, code, i)
    ensures var out := ScanFrom(code, i, s);
      && (out.Grouped? <==> forall k :: i <= k < EndFrom(code, i) ==> Readable(code, k))
      && (out.Grouped? ==> out.end == EndFrom(code, i) && Reads(out.scan, code, out.end))
    decreases |code| - i
  {
    hide Reads, Next;
    Seen(s, code, i);
    if i < |code| && !IsEnd(code, i) && Readable(code, i) {
      ReadsStep(s, code, i);
      ScanReads(code, i + 1, Next(s, code[i], i));
    }
  }

  lemma Seen(s: Scan, code: seq<Instr>, i: nat)
    requires Reads(s, code, i)
    ensures i <= |code| && s.groups != []
    ensures i < |code| ==> (Stops(s, code[i]) <==> IsEnd(code, i)) && (MissingArgument(s, code[i]) <==> !Readable(code, i))
  {
    if i < |code| {
      FlagIsSmall(code, i);
    }
  }

  /** The list can be grouped: every PUSH that the scan looks at has an argument. */
  ghost predicate Groupable(code: seq<Instr>) {
    forall k :: 0 <= k < DispatcherEnd(code) ==> Readable(code, k)
  }

  lemma GroupedExactly(code: seq<Instr>)
    ensures ScanFrom(code, 0, INITIAL).Grouped? <==> Groupable(code)
    ensures ScanFrom(code, 0, INITIAL).Grouped? ==> ScanFrom(code, 0, INITIAL).end == DispatcherEnd(code)
  {
    hide Reads;
    ReadsInitially(code);
    ScanReads(code, 0, INITIAL);
  }

  /** The last of the two instructions in front of an index that set the flag is a CALLDATALOAD. */
  ghost predicate BehindLoad(code: seq<Instr>, k: nat) {
    exists m :: 0 <= m < k <= |code| && code[m].opcode == CALLDATALOAD && forall n :: m < n < k ==> code[n].opcode != CALLDATASIZE
  }

  lemma {:induction false} FlagIsLoad(code: seq<Instr>, k: nat)
    requires k <= |code|
    ensures FlagAt(code, k) == 2 <==> BehindLoad(code, k)
  {
    if k > 0 {
      FlagIsLoad(code, k - 1);
      if code[k - 1].opcode == CALLDATALOAD {
        assert BehindLoad(code, k);
      } else if BehindLoad(code, k) {
        var m :| 0 <= m < k && code[m].opcode == CALLDATALOAD && forall n :: m < n < k ==> code[n].opcode != CALLDATASIZE;
        assert m < k - 1;
        assert BehindLoad(code, k - 1);
      } else if code[k - 1].opcode != CALLDATASIZE {
        if BehindLoad(code, k - 1) {
          var m :| 0 <= m < k - 1 && code[m].opcode == CALLDATALOAD && forall n :: m < n < k - 1 ==> code[n].opcode != CALLDATASIZE;
          assert BehindLoad(code, k);
        }
      }
    }
  }

  /** Where the scan opens the group of a function, instruction by instruction: at a PUSH of three or four bytes
      right behind a DUP1, behind a CALLDATALOAD without a CALLDATASIZE since, unless it is the selector ffffffff;
      three bytes stand for a selector with a leading zero byte. */
  lemma OpensExactly(code: seq<Instr>, k: nat)
    requires Groupable(code) && k < DispatcherEnd(code)
    ensures var out := ScanFrom(code, 0, INITIAL);
      && out.Grouped?
      && ((exists p: nat :: p < |out.scan.groups| && p > 0 && Start(out.scan.groups, p) == k && out.scan.groups[p].owner.Some?)
          <==> (&& k > 0 && code[k - 1].opcode == DUP1 && BehindLoad(code, k) && (code[k].opcode == PUSH(3) || code[k].opcode == PUSH(4))
                && code[k].argument != [255, 255, 255, 255]))
      && forall p: nat :: 0 < p < |out.scan.groups| && Start(out.scan.groups, p) == k && out.scan.groups[p].owner.Some? ==>
           out.scan.groups[p].owner.value == (if |code[k].argument| == 3 then [0] + code[k].argument else code[k].argument)
  {
    hide ScanFrom, Flat, Begins, BehindLoad, DispatcherEnd, Groupable, Start, FlagAt;
    ScanReadsWhole(code);
    var s := ScanFrom(code, 0, INITIAL).scan;
    FlagIsLoad(code, k);
    assert [0] + code[k].argument != [255, 255, 255, 255] by { assert ([0] + code[k].argument)[0] == 0; }
    forall p: nat | 0 < p < |s.groups| && Start(s.groups, p) == k ensures Describes(code, k, false, s.groups[p]) {
    }
    if OpensAt(code, k) {
      assert |Flat(s.groups)| == DispatcherEnd(code);
      var p := GroupAt(s.groups, k);
      OwnGroup(code, s, p, k);
    }
  }

  lemma OwnGroup(code: seq<Instr>, s: Scan, p: nat, k: nat)
    requires Reads(s, code, DispatcherEnd(code)) && p < |s.groups|
    requires Start(s.groups, p) <= k < Start(s.groups, p) + |s.groups[p].body| && k < |code| && OpensAt(code, k)
    ensures p > 0 && Start(s.groups, p) == k && s.groups[p].owner.Some?
  {
    hide Flat, OpensAt, Begins;
    assert Describes(code, Start(s.groups, p), p == 0, s.groups[p]);
    OpenBegins(code, k);
  }

  // ---------- what is erased ----------

  /** The group that holds an index. */
  lemma {:induction false} GroupAt(groups: seq<Group>, k: nat) returns (p: nat)
    requires k < |Flat(groups)|
    ensures p < |groups| && Start(groups, p) <= k < Start(groups, p) + |groups[p].body|
  {
    var n := |groups| - 1;
    if k < |Flat(groups[..n])| {
      p := GroupAt(groups[..n], k);
      assert groups[..n][..p] == groups[..p];
    } else {
      p := n;
    }
  }

  /** A group is masked exactly when the selector that owns its instructions is not kept. */
  lemma MaskedIsErased(code: seq<Instr>, s: Scan, keep: set<Key>, p: nat, k: nat)
    requires Reads(s, code, DispatcherEnd(code)) && p < |s.groups| && Start(s.groups, p) <= k < Start(s.groups, p) + |s.groups[p].body|
    ensures k < DispatcherEnd(code)
    ensures Masked(s.groups[p], keep) <==> Erased(code, keep, k)
  {
    hide Flat, Begins, OpensAt, IsSplit, Describes, Owns, DispatcherEnd, Start;
    var o := Start(s.groups, p);
    assert Describes(code, o, p == 0, s.groups[p]);
    InList(code, s, p);
    if Masked(s.groups[p], keep) {
      MaskedOwns(code, s, keep, p, k);
      assert Owns(code, o, k);
    }
    if Erased(code, keep, k) {
      var q: nat :| q < |code| && Owns(code, q, k) && SelectorKey(code[q].argument) !in keep;
      OwnerIsStart(code, s, p, k, q);
    }
  }

  lemma InList(code: seq<Instr>, s: Scan, p: nat)
    requires Reads(s, code, DispatcherEnd(code)) && p < |s.groups|
    ensures Start(s.groups, p) + |s.groups[p].body| <= DispatcherEnd(code)
  {
    FlatPrefix(s.groups, p);
  }

  lemma MaskedOwns(code: seq<Instr>, s: Scan, keep: set<Key>, p: nat, k: nat)
    requires Reads(s, code, DispatcherEnd(code)) && p < |s.groups| && Masked(s.groups[p], keep)
    requires Start(s.groups, p) <= k < Start(s.groups, p) + |s.groups[p].body|
    ensures Start(s.groups, p) < |code| && Owns(code, Start(s.groups, p), k) && SelectorKey(code[Start(s.groups, p)].argument) !in keep
  {
    hide Flat, Begins, OpensAt, IsSplit, DispatcherEnd, Start;
    var o, end := Start(s.groups, p), DispatcherEnd(code);
    assert Describes(code, o, p == 0, s.groups[p]);
    InList(code, s, p);
    StartOfNext(s.groups, p);
    StartOfAll(s.groups);
    forall m | o < m < end && IsSplit(code, m) ensures exists n :: o < n <= m && Begins(code, n) {
      assert m >= o + |s.groups[p].body|;
      if p + 1 < |s.groups| {
        assert Describes(code, Start(s.groups, p + 1), false, s.groups[p + 1]);
        assert Begins(code, Start(s.groups, p + 1));
      }
    }
  }

  lemma OwnerIsStart(code: seq<Instr>, s: Scan, p: nat, k: nat, q: nat)
    requires Reads(s, code, DispatcherEnd(code)) && p < |s.groups|
    requires Start(s.groups, p) <= k < Start(s.groups, p) + |s.groups[p].body|
    requires Owns(code, q, k)
    ensures q == Start(s.groups, p) && s.groups[p].owner == Some(SelectorKey(code[q].argument)) && !s.groups[p].hasGT
  {
    hide Flat, OpensAt, IsSplit, DispatcherEnd, Start, Begins;
    var o := Start(s.groups, p);
    assert Describes(code, o, p == 0, s.groups[p]);
    InList(code, s, p);
    OpenBegins(code, q);
    assert !(q < o <= k && p > 0);
    assert q >= o;
    assert q == o;
    forall m | o <= m < o + |s.groups[p].body| ensures !IsSplit(code, m) {
      if m == o {
        OpenIsNoSplit(code, o);
      }
    }
  }

  lemma OpenBegins(code: seq<Instr>, q: nat)
    requires q < |code| && OpensAt(code, q)
    ensures Begins(code, q)
  {
  }

  lemma OpenIsNoSplit(code: seq<Instr>, q: nat)
    requires q < |code| && OpensAt(code, q)
    ensures !IsSplit(code, q)
  {
  }

  /** Apart from DUP1s, masking erases exactly the instructions of the groups whose selectors are not kept. */
  lemma ErasedExactly(code: seq<Instr>, keep: set<Key>, k: nat)
    requires Groupable(code) && k < |code| && code[k].opcode != DUP1
    ensures ScanFrom(code, 0, INITIAL).Grouped?
    ensures var out := ScanFrom(code, 0, INITIAL);
      var masked := MaskedCode(code, out.scan, out.end, keep);
      && |masked| == |code|
      && masked[k] == (if Erased(code, keep, k) then Erase(code[k]) else code[k])
      && (Erased(code, keep, k) <==> k < out.end && InMaskedGroup(out.scan.groups, keep, k))
  {
    hide ScanFrom, Reads, Erased, Flat, Masked, InMaskedGroup;
    ReadsInitially(code);
    GroupedExactly(code);
    ScanReadsWhole(code);
    var out := ScanFrom(code, 0, INITIAL);
    MaskingIsLocal(code, keep);
    if k < out.end {
      ErasedInside(code, out.scan, keep, k);
    } else {
      NotBehindEnd(code, keep, k);
      assert MaskedCode(code, out.scan, out.end, keep)[out.end..][k - out.end] == code[out.end..][k - out.end];
    }
  }

  lemma ScanReadsWhole(code: seq<Instr>)
    requires Groupable(code)
    ensures var out := ScanFrom(code, 0, INITIAL); out.Grouped? && out.end == DispatcherEnd(code) && Reads(out.scan, code, out.end)
  {
    hide Reads;
    ReadsInitially(code);
    ScanReads(code, 0, INITIAL);
  }

  lemma NotBehindEnd(code: seq<Instr>, keep: set<Key>, k: nat)
    requires k >= DispatcherEnd(code)
    ensures !Erased(code, keep, k)
  {
  }

  lemma ErasedInside(code: seq<Instr>, s: Scan, keep: set<Key>, k: nat)
    requires Reads(s, code, DispatcherEnd(code)) && k < DispatcherEnd(code) && code[k].opcode != DUP1
    ensures var masked := MaskedCode(code, s, DispatcherEnd(code), keep);
      && |masked| == |code|
      && masked[k] == (if Erased(code, keep, k) then Erase(code[k]) else code[k])
    ensures Erased(code, keep, k) <==> InMaskedGroup(s.groups, keep, k)
  {
    hide Erased, Flat, Masked, DispatcherEnd, NextLive, Combine;
    var p := GroupAt(s.groups, k);
    MaskedIsErased(code, s, keep, p, k);
    var j := k - Start(s.groups, p);
    CombineAt(s.groups, keep, p, j);
    FlatAt(s.groups, p, j);
    assert code[..DispatcherEnd(code)][k] == code[k];
    if InMaskedGroup(s.groups, keep, k) {
      var q :| 0 <= q < |s.groups| && Masked(s.groups[q], keep)
        && |Flat(s.groups[..q])| <= k < |Flat(s.groups[..q])| + |s.groups[q].body|;
      MaskedIsErased(code, s, keep, q, k);
    }
  }

  // ---------- JUMPDESTs ----------

  /** The instruction list with every function but those of `keep` masked. */
  function MaskedOf(code: seq<Instr>, keep: set<Key>): (r: seq<Instr>)
    requires ScanFrom(code, 0, INITIAL).Grouped?
  {
    var out := ScanFrom(code, 0, INITIAL);
    MaskedCode(code, out.scan, out.end, keep)
  }

  lemma Changed(code: seq<Instr>, keep: set<Key>, k: nat)
    requires Groupable(code) && k < |code| && code[k].opcode == JUMPDEST
    ensures ScanFrom(code, 0, INITIAL).Grouped? && |MaskedOf(code, keep)| == |code|
    ensures MaskedOf(code, keep)[k] != code[k] <==> Erased(code, keep, k)
  {
    hide ScanFrom, MaskedCode, Groupable, Erased, InMaskedGroup;
    ErasedExactly(code, keep, k);
  }

  /** A JUMPDEST in a selector's group: the flag was set back by a CALLDATASIZE behind the last CALLDATALOAD. */
  ghost predicate Hidden(code: seq<Instr>, k: nat)
    requires k < |code|
  {
    code[k].opcode == JUMPDEST && FlagAt(code, k) == 1 && exists o: nat :: Owns(code, o, k)
  }

  lemma {:induction false} FlagStays(code: seq<Instr>, o: nat, k: nat)
    requires o <= k <= |code| && FlagAt(code, o) > 0
    ensures FlagAt(code, k) > 0
    decreases k
  {
    if o < k {
      FlagStays(code, o, k - 1);
    }
  }

  lemma OwnedIsHidden(code: seq<Instr>, o: nat, k: nat)
    requires Owns(code, o, k) && code[k].opcode == JUMPDEST
    ensures FlagAt(code, k) == 1
  {
    hide DispatcherEnd, IsSplit;
    FlagStays(code, o, k);
    FlagIsSmall(code, k);
    assert !Begins(code, k);
  }

  /** Masking some functions erases a JUMPDEST exactly when it lies in the group of a selector, the group
      holds no GT, and a CALLDATASIZE separates it from the last CALLDATALOAD. It is then erased whenever
      that selector is not kept. */
  lemma JumpdestErasedExactly(code: seq<Instr>, k: nat)
    requires Groupable(code) && k < |code| && code[k].opcode == JUMPDEST
    ensures ScanFrom(code, 0, INITIAL).Grouped? && forall keep :: |MaskedOf(code, keep)| == |code|
    ensures (exists keep :: MaskedOf(code, keep)[k] != code[k]) <==> Hidden(code, k)
    ensures forall keep :: MaskedOf(code, keep)[k] != code[k] <==> Hidden(code, k) && Erased(code, keep, k)
  {
    hide ScanFrom, MaskedOf, Groupable, Owns, FlagAt;
    GroupedExactly(code);
    forall keep
      ensures |MaskedOf(code, keep)| == |code|
      ensures MaskedOf(code, keep)[k] != code[k] <==> Hidden(code, k) && Erased(code, keep, k)
    {
      Changed(code, keep, k);
      if Erased(code, keep, k) {
        var o: nat :| o < |code| && Owns(code, o, k) && SelectorKey(code[o].argument) !in keep;
        OwnedIsHidden(code, o, k);
      }
    }
    if Hidden(code, k) {
      HiddenIsErased(code, k);
    }
  }

  lemma HiddenIsErased(code: seq<Instr>, k: nat)
    requires k < |code| && Hidden(code, k)
    ensures Erased(code, {}, k)
  {
    var o: nat :| Owns(code, o, k);
    assert SelectorKey(code[o].argument) !in {};
  }

  /** Inside the dispatcher there is no CALLDATASIZE behind a CALLDATALOAD. */
  ghost predicate SingleSize(code: seq<Instr>) {
    forall i, j :: 0 <= i < j < DispatcherEnd(code) && code[i].opcode == CALLDATALOAD ==> code[j].opcode != CALLDATASIZE
  }

  lemma {:induction false} FlagHasLoad(code: seq<Instr>, k: nat)
    requires k <= |code| && FlagAt(code, k) == 2
    ensures exists i :: 0 <= i < k && code[i].opcode == CALLDATALOAD
  {
    if code[k - 1].opcode != CALLDATALOAD {
      FlagHasLoad(code, k - 1);
    }
  }

  lemma {:induction false} FlagStaysTwo(code: seq<Instr>, o: nat, k: nat)
    requires SingleSize(code) && o <= k <= DispatcherEnd(code) && FlagAt(code, o) == 2
    ensures FlagAt(code, k) == 2
    decreases k
  {
    hide DispatcherEnd;
    if o < k {
      FlagStaysTwo(code, o, k - 1);
      FlagHasLoad(code, k - 1);
    }
  }

  /** No JUMPDEST is ever erased when the dispatcher has no CALLDATASIZE behind a CALLDATALOAD. Function
      bodies may have any. */
  lemma JumpdestsSurvive(code: seq<Instr>, keep: set<Key>)
    requires Groupable(code) && SingleSize(code)
    ensures ScanFrom(code, 0, INITIAL).Grouped? && |MaskedOf(code, keep)| == |code|
    ensures forall k :: 0 <= k < |code| && code[k].opcode == JUMPDEST ==> MaskedOf(code, keep)[k] == code[k]
  {
    hide ScanFrom, MaskedOf, Groupable, SingleSize, Erased;
    GroupedExactly(code);
    SameLength(code, keep);
    forall k | 0 <= k < |code| && code[k].opcode == JUMPDEST ensures MaskedOf(code, keep)[k] == code[k] {
      Changed(code, keep, k);
      NotErased(code, keep, k);
    }
  }

  lemma SameLength(code: seq<Instr>, keep: set<Key>)
    requires ScanFrom(code, 0, INITIAL).Grouped?
    ensures |MaskedOf(code, keep)| == |code|
  {
    hide ScanFrom, MaskedCode, InMaskedGroup;
    MaskingIsLocal(code, keep);
  }

  lemma NotErased(code: seq<Instr>, keep: set<Key>, k: nat)
    requires SingleSize(code) && k < |code| && code[k].opcode == JUMPDEST
    ensures !Erased(code, keep, k)
  {
    hide DispatcherEnd, SingleSize, FlagAt, IsSplit;
    forall o: nat | Owns(code, o, k) ensures FlagAt(code, k) == 2 && FlagAt(code, k) == 1 {
      FlagStaysTwo(code, o, k);
      OwnedIsHidden(code, o, k);
    }
  }

  // A CALLDATASIZE inside a function's group.
  const LOAD := Instr(0, CALLDATALOAD, [])
  const DUP := Instr(1, DUP1, [])
  const SELECTOR := Instr(2, PUSH(4), [1, 2, 3, 4])
  const SIZE := Instr(7, CALLDATASIZE, [])
  const DEST := Instr(8, JUMPDEST, [])
  const SECOND_SIZE := [LOAD, DUP, SELECTOR, SIZE, DEST]

  /** A CALLDATASIZE inside a function's group hides the JUMPDEST behind it. */
  lemma SecondSizeErasesJumpdest()
    ensures ScanFrom(SECOND_SIZE, 0, INITIAL).Grouped?
    ensures |MaskedOf(SECOND_SIZE, {})| == 5 && MaskedOf(SECOND_SIZE, {})[4] == Erase(DEST)
  {
    hide ScanFrom, MaskedCode, InMaskedGroup, DispatcherEnd, Owns;
    var code := SECOND_SIZE;
    SecondSizeFlags();
    ErasedExactly(code, {}, 4);
    assert SelectorKey(code[2].argument) !in {};
  }

  lemma SecondSizeFlags()
    ensures Groupable(SECOND_SIZE) && Owns(SECOND_SIZE, 2, 4)
  {
    hide EndFrom;
    var code := SECOND_SIZE;
    assert code[0] == LOAD && code[1] == DUP && code[2] == SELECTOR && code[3] == SIZE && code[4] == DEST;
    assert FlagAt(code, 1) == 2;
    assert FlagAt(code, 2) == 2;
    assert FlagAt(code, 3) == 2;
    assert FlagAt(code, 4) == 1;
    assert DispatcherEnd(code) == 5;
  }

  // ---------- selectors that open no group ----------

  /** A selector that does not open a group, such as one of two bytes behind leading zeros, goes with the
      selector in whose group it lies: it is erased exactly when that one is not kept, whether or not it is
      kept itself; outside every such group it always stays. */
  lemma UnopenedFollows(code: seq<Instr>, keep: set<Key>, o: nat, k: nat)
    requires Groupable(code) && k < |code| && code[k].opcode.PUSH? && !OpensAt(code, k)
    ensures ScanFrom(code, 0, INITIAL).Grouped? && |MaskedOf(code, keep)| == |code|
    ensures Owns(code, o, k) ==> o < |code| && (MaskedOf(code, keep)[k] == Erase(code[k]) <==> SelectorKey(code[o].argument) !in keep)
    ensures (forall p: nat :: !Owns(code, p, k)) ==> MaskedOf(code, keep)[k] == code[k]
  {
    hide ScanFrom, MaskedCode, Groupable, Owns, OpensAt, InMaskedGroup;
    ErasedExactly(code, keep, k);
    if Owns(code, o, k) {
      OwnerInList(code, o, k);
      forall p: nat | Owns(code, p, k) ensures p == o {
        OneOwner(code, o, p, k);
      }
    }
  }

  lemma OwnerInList(code: seq<Instr>, o: nat, k: nat)
    requires Owns(code, o, k)
    ensures o < |code|
  {
  }

  lemma OneOwner(code: seq<Instr>, o: nat, p: nat, k: nat)
    requires Owns(code, o, k) && Owns(code, p, k)
    ensures o == p
  {
    hide DispatcherEnd, IsSplit, OpensAt;
    OpenBegins(code, o);
    OpenBegins(code, p);
  }
}
