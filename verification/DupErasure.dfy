/** Which DUP1s masking erases, told from the instruction list alone. */
module DupErasure {
  import opened Instructions
  import opened Grouping
  import opened Erasure

  /** The recorded JUMPDESTs are those behind a CALLDATALOAD. */
  ghost predicate StopsRead(s: Scan, code: seq<Instr>, i: nat) {
    i <= |code| && forall k: nat :: k in Offsets(s.dests) <==> k < i && code[k].opcode == JUMPDEST && FlagAt(code, k) == 2
  }

  lemma OffsetsGrow(dests: seq<(nat, nat)>, g: nat, k: nat)
    ensures Offsets(dests + [(g, k)]) == Offsets(dests) + {k}
  {
    var more := dests + [(g, k)];
    assert more[|dests|].1 == k;
    assert forall m :: 0 <= m < |dests| ==> more[m] == dests[m];
  }

  lemma NextDests(s: Scan, ins: Instr, offset: nat)
    requires s.groups != []
    ensures Next(s, ins, offset).dests == if ins.opcode == JUMPDEST && s.flag == 2 then s.dests + [(|s.groups|, offset)] else s.dests
  {
    hide OpensGroup, BigEndian;
  }

  lemma StopsStep(s: Scan, code: seq<Instr>, i: nat)
    requires StopsRead(s, code, i) && i < |code| && s.groups != [] && s.flag == FlagAt(code, i)
    ensures StopsRead(Next(s, code[i], i), code, i + 1)
  {
    hide Next, FlagAt, Offsets;
    NextDests(s, code[i], i);
    OffsetsGrow(s.dests, |s.groups|, i);
  }

  lemma {:induction false} ScanStops(code: seq<Instr>, i: nat, s: Scan)
    requires Reads(s, code, i) && StopsRead(s, code, i)
    ensures var out := ScanFrom(code, i, s); out.Grouped? ==> StopsRead(out.scan, code, out.end)
    decreases |code| - i
  {
    hide Next, StopsRead, FlagAt;
    Seen(s, code, i);
    if i < |code| && !Stops(s, code[i]) && !MissingArgument(s, code[i]) {
      ReadsStep(s, code, i);
      FlagOf(s, code, i);
      StopsStep(s, code, i);
      ScanStops(code, i + 1, Next(s, code[i], i));
    }
  }

  lemma FlagOf(s: Scan, code: seq<Instr>, i: nat)
    requires Reads(s, code, i)
    ensures s.groups != [] && i <= |code| && s.flag == FlagAt(code, i)
  {
  }

  /** The groups of the scan, put together again, without the masked ones. */
  lemma CombinedAt(code: seq<Instr>, s: Scan, keep: set<Key>, k: nat)
    requires Reads(s, code, DispatcherEnd(code)) && k < DispatcherEnd(code)
    ensures |Combine(s.groups, keep)| == DispatcherEnd(code)
    ensures Combine(s.groups, keep)[k] == if Erased(code, keep, k) then Erase(code[k]) else code[k]
  {
    hide Erased, Flat, Masked, DispatcherEnd, NextLive, Combine;
    var p := GroupAt(s.groups, k);
    MaskedIsErased(code, s, keep, p, k);
    var j := k - Start(s.groups, p);
    CombineAt(s.groups, keep, p, j);
    FlatAt(s.groups, p, j);
    assert code[..DispatcherEnd(code)][k] == code[k];
  }

  /** An instruction that is not there, or goes with its group. */
  ghost predicate Gone(code: seq<Instr>, keep: set<Key>, k: nat)
    requires k < |code|
  {
    code[k].opcode == EMPTY || Erased(code, keep, k)
  }

  /** Nothing uses the duplicate: what follows in the dispatcher is gone up to a JUMPDEST behind a CALLDATALOAD,
      or up to the end, where the code never looks at index 0. */
  ghost predicate Unused(code: seq<Instr>, keep: set<Key>, k: nat) {
    exists j :: GoneUpTo(code, keep, k, j)
  }

  ghost predicate GoneUpTo(code: seq<Instr>, keep: set<Key>, k: nat, j: int) {
    && k < j <= DispatcherEnd(code) && (forall m :: k < m < j ==> Gone(code, keep, m))
    && if j == DispatcherEnd(code) then k > 0 else !Gone(code, keep, j) && code[j].opcode == JUMPDEST && FlagAt(code, j) == 2
  }

  /** For every list that the scan accepts, every selection and every DUP1: it is erased if and only if it goes
      with its group or nothing that is left uses the duplicate. */
  lemma DupErasedExactly(code: seq<Instr>, keep: set<Key>, k: nat)
    requires Groupable(code) && k < |code| && code[k].opcode == DUP1
    ensures ScanFrom(code, 0, INITIAL).Grouped? && |MaskedOf(code, keep)| == |code|
    ensures MaskedOf(code, keep)[k] == if Erased(code, keep, k) || Unused(code, keep, k) then Erase(code[k]) else code[k]
  {
    hide ScanFrom, Reads, Erased, Flat, Masked, StopsRead, Combine, NextLive, Unused, DispatcherEnd;
    ScanReadsWhole(code);
    ReadsInitially(code);
    StopsInitially(code);
    ScanStops(code, 0, INITIAL);
    var out := ScanFrom(code, 0, INITIAL);
    var u := Combine(out.scan.groups, keep);
    MaskingIsLocal(code, keep);
    if k < out.end {
      CombinedAt(code, out.scan, keep, k);
      assert MaskedOf(code, keep)[k] == Patched(u, Offsets(out.scan.dests), true)[k];
      if !Erased(code, keep, k) {
        DanglesUnused(code, out.scan, keep, k);
      }
    } else {
      NotBehindEnd(code, keep, k);
      NothingBehindEnd(code, keep, k);
      assert MaskedOf(code, keep)[out.end..][k - out.end] == code[out.end..][k - out.end];
    }
  }

  lemma StopsInitially(code: seq<Instr>)
    ensures StopsRead(INITIAL, code, 0)
  {
  }

  lemma NothingBehindEnd(code: seq<Instr>, keep: set<Key>, k: nat)
    requires k >= DispatcherEnd(code)
    ensures !Unused(code, keep, k)
  {
  }

  lemma DanglesUnused(code: seq<Instr>, s: Scan, keep: set<Key>, k: nat)
    requires Reads(s, code, DispatcherEnd(code)) && StopsRead(s, code, DispatcherEnd(code))
    requires k < DispatcherEnd(code) && code[k].opcode == DUP1 && !Erased(code, keep, k)
    ensures |Combine(s.groups, keep)| == DispatcherEnd(code)
    ensures Dangling(Combine(s.groups, keep), Offsets(s.dests), true, k) <==> Unused(code, keep, k)
  {
    hide Erased, Flat, Masked, Combine, DispatcherEnd, NextLive, Reads, Offsets;
    var u, end := Combine(s.groups, keep), DispatcherEnd(code);
    CombinedAt(code, s, keep, k);
    forall m | 0 <= m < end ensures u[m].opcode == EMPTY <==> Gone(code, keep, m) {
      CombinedAt(code, s, keep, m);
    }
    var j := NextLive(u, k + 1);
    if Dangling(u, Offsets(s.dests), true, k) {
      assert forall m :: k < m < j ==> Gone(code, keep, m);
      assert GoneUpTo(code, keep, k, j);
    }
    if i :| GoneUpTo(code, keep, k, i) {
      assert j == i;
    }
  }
}
