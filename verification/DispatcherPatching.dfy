/** Patching dangling DUP1s after masking: a DUP1 survives exactly when the first unmasked token
    behind it consumes the duplicate. */
module DispatcherPatching {
  import opened Instructions
  import opened Grouping
  import opened Dispatcher
  import opened DispatcherMasking

  /** `u` is the masked list before patching, `stops` the recorded JUMPDESTs. */
  ghost predicate Unpatched(u: seq<Instr>, base: nat, ts: seq<Token>, revert: nat, keep: set<Key>, stops: set<nat>) {
    && base > 0 && |u| == base + Off(ts, |ts|)
    && forall i :: 0 <= i < |ts| ==> TokenOk(ts[i], revert) && Placed(u, base + Off(ts, i), ts, i, keep, stops)
  }

  ghost predicate Placed(u: seq<Instr>, p: nat, ts: seq<Token>, i: nat, keep: set<Key>, stops: set<nat>)
    requires i < |ts|
  {
    && TokenAt(u, p, ts, i, keep, false)
    && forall k :: p <= k < p + |Instrs(ts[i])| ==> (k in stops <==> ts[i].Target?)
  }

  lemma PlacedAt(u: seq<Instr>, base: nat, ts: seq<Token>, revert: nat, keep: set<Key>, stops: set<nat>, i: nat)
    requires Unpatched(u, base, ts, revert, keep, stops) && i < |ts|
    ensures Placed(u, base + Off(ts, i), ts, i, keep, stops) && TokenOk(ts[i], revert)
  {
    hide Placed, TokenOk, Off;
  }

  lemma {:induction false} SkipEmpty(u: seq<Instr>, p: nat, q: nat)
    requires p <= q <= |u| && forall k :: p <= k < q ==> u[k].opcode == EMPTY
    ensures NextLive(u, p) == NextLive(u, q)
    decreases q - p
  {
    if p < q {
      SkipEmpty(u, p + 1, q);
    }
  }

  /** From a place where everything is erased, the next live instruction is a stop, or there is none,
      exactly when no unmasked token consumes the pending duplicate. */
  ghost predicate EndsRun(u: seq<Instr>, stops: set<nat>, p: nat, uses: bool) {
    p <= |u| && ((NextLive(u, p) in stops || NextLive(u, p) == |u|) <==> !uses)
  }

  lemma RunThroughBlock(u: seq<Instr>, p: nat, ts: seq<Token>, i: nat, keep: set<Key>, stops: set<nat>, revert: nat)
    requires i < |ts| && Placed(u, p, ts, i, keep, stops) && TokenOk(ts[i], revert) && (ts[i].Compare? || ts[i].Split?)
    ensures p + 5 <= |u|
    ensures !MaskedBefore(ts, i + 1, keep) ==> NextLive(u, p + 1) == p + 1 && EndsRun(u, stops, p + 1, true)
    ensures MaskedBefore(ts, i + 1, keep) ==> NextLive(u, p + 1) == NextLive(u, p + 5)
    ensures MaskedBefore(ts, i, keep) ==> NextLive(u, p) == NextLive(u, p + 1)
  {
    hide MaskedBefore, UsesDup, SelectorKey, KeyOf, BigEndian;
    if MaskedBefore(ts, i + 1, keep) {
      SkipEmpty(u, p + 1, p + 5);
    }
  }

  lemma RunThroughExit(u: seq<Instr>, p: nat, ts: seq<Token>, i: nat, keep: set<Key>, stops: set<nat>, revert: nat)
    requires i < |ts| && Placed(u, p, ts, i, keep, stops) && ts[i].Exit? && MaskedBefore(ts, i, keep)
    ensures p + 2 <= |u| && NextLive(u, p) == NextLive(u, p + 2)
  {
    SkipEmpty(u, p, p + 2);
  }

  lemma RunAtTarget(u: seq<Instr>, p: nat, ts: seq<Token>, i: nat, keep: set<Key>, stops: set<nat>, revert: nat)
    requires i < |ts| && Placed(u, p, ts, i, keep, stops) && TokenOk(ts[i], revert) && ts[i].Target?
    ensures EndsRun(u, stops, p, false)
  {
  }

  lemma SameRun(u: seq<Instr>, stops: set<nat>, p: nat, q: nat, uses: bool)
    requires EndsRun(u, stops, q, uses) && p <= |u| && NextLive(u, p) == NextLive(u, q)
    ensures EndsRun(u, stops, p, uses)
  {
    hide NextLive;
  }

  /** What one token means for a pending duplicate. */
  lemma OneToken(ts: seq<Token>, i: nat, keep: set<Key>)
    requires i < |ts|
    ensures Off(ts, i + 1) == Off(ts, i) + |Instrs(ts[i])|
    ensures match ts[i]
      case Compare(_) => |Instrs(ts[i])| == 5 && UsesDup(ts, i, keep) == (MaskedBefore(ts, i + 1, keep) ==> UsesDup(ts, i + 1, keep))
      case Split(_) => UsesDup(ts, i, keep) && !MaskedBefore(ts, i + 1, keep)
      case Exit(_, _) => |Instrs(ts[i])| == 2 && UsesDup(ts, i, keep) == UsesDup(ts, i + 1, keep) && MaskedBefore(ts, i + 1, keep) == MaskedBefore(ts, i, keep)
      case Target(_) => !UsesDup(ts, i, keep)
  {
    hide KeyOf;
  }

  lemma {:induction false} RunEnd(u: seq<Instr>, base: nat, ts: seq<Token>, revert: nat, keep: set<Key>, stops: set<nat>, i: nat)
    requires Unpatched(u, base, ts, revert, keep, stops) && i <= |ts| && MaskedBefore(ts, i, keep)
    ensures EndsRun(u, stops, base + Off(ts, i), UsesDup(ts, i, keep))
    decreases |ts| - i
  {
    hide Unpatched, Placed, TokenOk, NextLive, EndsRun, UsesDup, MaskedBefore, Off, Instrs;
    if i < |ts| {
      var p := base + Off(ts, i);
      PlacedAt(u, base, ts, revert, keep, stops, i);
      OneToken(ts, i, keep);
      match ts[i] {
        case Exit(_, _) =>
          RunThroughExit(u, p, ts, i, keep, stops, revert);
          RunEnd(u, base, ts, revert, keep, stops, i + 1);
          SameRun(u, stops, p, p + 2, UsesDup(ts, i, keep));
        case Target(_) =>
          RunAtTarget(u, p, ts, i, keep, stops, revert);
        case Compare(_) =>
          RunThroughBlock(u, p, ts, i, keep, stops, revert);
          var q := if MaskedBefore(ts, i + 1, keep) then p + 5 else p + 1;
          if MaskedBefore(ts, i + 1, keep) {
            RunEnd(u, base, ts, revert, keep, stops, i + 1);
          }
          SameRun(u, stops, p, q, UsesDup(ts, i, keep));
        case Split(_) =>
          RunThroughBlock(u, p, ts, i, keep, stops, revert);
          SameRun(u, stops, p, p + 1, true);
      }
    } else {
      RunsOut(u, base, ts, revert, keep, stops);
      assert !UsesDup(ts, i, keep) by { NothingUses(ts, keep); }
      assert EndsRun(u, stops, |u|, false) by { EndOfRun(u, stops); }
    }
  }

  lemma NothingUses(ts: seq<Token>, keep: set<Key>)
    ensures !UsesDup(ts, |ts|, keep)
  {
  }

  lemma EndOfRun(u: seq<Instr>, stops: set<nat>)
    ensures EndsRun(u, stops, |u|, false)
  {
  }

  lemma RunsOut(u: seq<Instr>, base: nat, ts: seq<Token>, revert: nat, keep: set<Key>, stops: set<nat>)
    requires Unpatched(u, base, ts, revert, keep, stops)
    ensures base > 0 && base + Off(ts, |ts|) == |u| && NextLive(u, |u|) == |u|
  {
    hide Placed, TokenOk, Off;
  }

  /** Whether token `i`'s DUP1 is patched away. */
  lemma DupIsPatched(u: seq<Instr>, base: nat, ts: seq<Token>, revert: nat, keep: set<Key>, stops: set<nat>, i: nat)
    requires Unpatched(u, base, ts, revert, keep, stops) && i < |ts| && (ts[i].Compare? || ts[i].Split?)
    ensures EndsRun(u, stops, base + Off(ts, i) + 1, UsesDup(ts, i, keep))
  {
    hide Unpatched, Placed, TokenOk, NextLive, EndsRun, UsesDup, MaskedBefore, Off, Instrs;
    var p := base + Off(ts, i);
    PlacedAt(u, base, ts, revert, keep, stops, i);
    RunThroughBlock(u, p, ts, i, keep, stops, revert);
    OneToken(ts, i, keep);
    if MaskedBefore(ts, i + 1, keep) {
      RunEnd(u, base, ts, revert, keep, stops, i + 1);
      SameRun(u, stops, p + 1, p + 5, UsesDup(ts, i, keep));
    }
  }

  lemma PatchedBlock(u: seq<Instr>, p: nat, b: Block, cmp: Opcode, dup: bool, gone: bool, uses: bool, stops: set<nat>)
    requires p > 0 && BlockAt(u, p, b, dup, gone) && BlockOk(b, cmp) && (cmp == EQ || cmp == GT)
    requires EndsRun(u, stops, p + 1, uses)
    ensures BlockAt(Patched(u, stops, true), p, b, dup && uses, gone)
  {
    hide NextLive, SelectorKey;
  }

  /** After patching, a DUP1 stays exactly when it is used. */
  lemma PatchedToken(u: seq<Instr>, base: nat, ts: seq<Token>, revert: nat, keep: set<Key>, stops: set<nat>, i: nat)
    requires Unpatched(u, base, ts, revert, keep, stops) && i < |ts|
    ensures TokenAt(Patched(u, stops, true), base + Off(ts, i), ts, i, keep, true)
  {
    hide Unpatched, SelectorKey, BlockAt, BlockOk, NextLive, MaskedBefore, UsesDup, Off, BigEndian;
    var p := base + Off(ts, i);
    PlacedAt(u, base, ts, revert, keep, stops, i);
    if ts[i].Compare? || ts[i].Split? {
      DupIsPatched(u, base, ts, revert, keep, stops, i);
      RunsOut(u, base, ts, revert, keep, stops);
      PatchedBlock(u, p, ts[i].b, if ts[i].Compare? then EQ else GT, !MaskedBefore(ts, i, keep), MaskedBefore(ts, i + 1, keep),
        UsesDup(ts, i, keep), stops);
    }
  }

  // ---------- the masked list of a well-formed dispatcher ----------

  /** The list that masking produces for `keep`. */
  function MaskedList(d: Dispatcher, keep: set<Key>): seq<Instr>
    requires ScanFrom(CodeOf(d), 0, INITIAL).Grouped?
  {
    var out := ScanFrom(CodeOf(d), 0, INITIAL);
    MaskedCode(CodeOf(d), out.scan, out.end, keep)
  }

  lemma PlacedInMasking(code: seq<Instr>, base: nat, ts: seq<Token>, revert: nat, dests: seq<(nat, nat)>, i: nat, keep: set<Key>)
    requires i < |ts| && base <= |code| && Lays(code, base, ts) && TokenOk(ts[i], revert)
    requires Stored(code, base, base + Off(ts, |ts|), dests)
    ensures Placed(code[..base] + Masking(ts, |ts|, keep), base + Off(ts, i), ts, i, keep, Offsets(dests))
  {
    hide Render, Masking, Lays, Instrs, Off;
    var u, p := code[..base] + Masking(ts, |ts|, keep), base + Off(ts, i);
    MaskingAt(ts, |ts|, i, keep);
    AtRight(code[..base], Masking(ts, |ts|, keep), Off(ts, i), Render(ts, i, keep, false));
    RenderedToken(u, p, ts, i, keep);
    LaysAt(code, base, ts, i);
    OffMonotone(ts, i, |ts|);
    TokenJumpdests(code, p, ts[i], revert);
  }

  lemma TokenJumpdests(code: seq<Instr>, p: nat, t: Token, revert: nat)
    requires TokenOk(t, revert) && At(code, p, Instrs(t))
    ensures forall k :: p <= k < p + |Instrs(t)| ==> (code[k].opcode == JUMPDEST <==> t.Target?)
  {
    hide SelectorKey, BigEndian;
    forall k | p <= k < p + |Instrs(t)| ensures code[k].opcode == JUMPDEST <==> t.Target? {
      assert code[p + (k - p)] == Instrs(t)[k - p];
    }
  }

  lemma MaskedListRenders(d: Dispatcher, keep: set<Key>)
    requires WellFormed(d)
    ensures ScanFrom(CodeOf(d), 0, INITIAL).Grouped?
    ensures Renders(MaskedList(d, keep), Base(d), Tokens(d.tree), keep)
    ensures |MaskedList(d, keep)| == |CodeOf(d)| && MaskedList(d, keep)[Limit(d)..] == CodeOf(d)[Limit(d)..]
    ensures forall k :: 0 <= k < |CodeOf(d)| ==> MaskedList(d, keep)[k].address == CodeOf(d)[k].address
  {
    hide ScanFrom, CodeOf, Tokens, Combine, Masking, Lays, Patched, Off, Placed, TokenOk, Sorted, Linked, EntriesOk, PrologueOk, DecodeOk, Increasing, TokenAt, Stored;
    var code, ts, revert := CodeOf(d), Tokens(d.tree), d.revert.address;
    var s := ScanWhole(d, keep);
    MaskingIsLocal(code, keep);
    CodeLaysOut(d);
    var u, stops := Combine(s.groups, keep), Offsets(s.dests);
    forall i | 0 <= i < |ts| ensures TokenOk(ts[i], revert) && Placed(u, Base(d) + Off(ts, i), ts, i, keep, stops) {
      PlacedInMasking(code, Base(d), ts, revert, s.dests, i, keep);
    }
    assert Unpatched(u, Base(d), ts, revert, keep, stops);
    forall i | 0 <= i < |ts| ensures TokenAt(MaskedList(d, keep), Base(d) + Off(ts, i), ts, i, keep, true) {
      PatchedToken(u, Base(d), ts, revert, keep, stops, i);
      TokenInFront(Patched(u, stops, true), code[Limit(d)..], Base(d) + Off(ts, i), ts, i, keep);
    }
  }

  lemma TokenInFront(a: seq<Instr>, b: seq<Instr>, p: nat, ts: seq<Token>, i: nat, keep: set<Key>)
    requires i < |ts| && TokenAt(a, p, ts, i, keep, true)
    ensures TokenAt(a + b, p, ts, i, keep, true)
  {
    hide MaskedBefore, UsesDup;
  }
}
