/** The object that groups the dispatcher and masks the functions that are not selected. */
module InstructionModification {
  import opened Instructions
  import opened Grouping

  /** The backward scan from a JUMPDEST finds the one DUP1 that this JUMPDEST leaves dangling. */
  lemma BackwardScan(u: seq<Instr>, done: set<nat>, v: seq<Instr>, off: nat, k: nat)
    requires v == Patched(u, done, true)
    requires off !in done && k < off < |u| && u[off].opcode == JUMPDEST
    requires forall d :: d in done ==> d < |u| && u[d].opcode == JUMPDEST
    requires v[k].opcode != EMPTY && forall m :: k < m < off ==> v[m].opcode == EMPTY
    ensures Patched(u, done + {off}, true) == if v[k].opcode == DUP1 then v[k := Erase(v[k])] else v
  {
    forall m | k < m < off ensures u[m].opcode == EMPTY {
      var n := NextLive(u, m + 1);
      assert n <= off;
      assert n < off ==> v[n].opcode == EMPTY && n !in done;
      assert !Dangling(u, done, true, m);
    }
    assert u[k] == v[k];
    assert NextLive(u, k + 1) == off;
    forall m | 0 <= m < |u| && m != k
      ensures Dangling(u, done + {off}, true, m) == Dangling(u, done, true, m)
    {
      if m < k {
        assert NextLive(u, m + 1) <= k;
      }
    }
  }

  /** When this holds, nothing is masked. */
  predicate KeepsOriginal(identifiers: map<string, Key>, functions: seq<string>) {
    "original_instruction_list" in functions || |functions| >= |identifiers|
  }

  /** The selectors of the listed functions; the fallback has none and unknown names are skipped. */
  function Selected(identifiers: map<string, Key>, functions: seq<string>): set<Key> {
    set f | f in functions && f != "fallback" && f in identifiers :: identifiers[f]
  }

  /** The selectors of the listed functions in order. */
  function Selectors(identifiers: map<string, Key>, functions: seq<string>): seq<Key> {
    if functions == [] then []
    else
      var f := functions[|functions| - 1];
      Selectors(identifiers, functions[..|functions| - 1]) + (if f != "fallback" && f in identifiers then [identifiers[f]] else [])
  }

  lemma {:induction false} SelectorsAreSelected(identifiers: map<string, Key>, functions: seq<string>)
    ensures (set k | k in Selectors(identifiers, functions)) == Selected(identifiers, functions)
  {
    if functions != [] {
      var n := |functions| - 1;
      SelectorsAreSelected(identifiers, functions[..n]);
      assert functions == functions[..n] + [functions[n]];
      var f := functions[n];
      var more := if f != "fallback" && f in identifiers then [identifiers[f]] else [];
      assert Selected(identifiers, functions) == Selected(identifiers, functions[..n]) + set k | k in more;
    }
  }

  /** The selectors stand in the order of the names, one for each name other than the fallback that is known. */
  lemma SelectorsInOrder(identifiers: map<string, Key>, functions: seq<string>, f: string)
    ensures Selectors(identifiers, []) == []
    ensures Selectors(identifiers, functions + [f]) ==
      if f in identifiers && f != "fallback" then Selectors(identifiers, functions) + [identifiers[f]] else Selectors(identifiers, functions)
  {
    assert (functions + [f])[..|functions|] == functions;
  }

  /** The fallback selects nothing, whatever selector is recorded for it, and neither does an unknown name. */
  lemma OthersSelectNothing(identifiers: map<string, Key>, functions: seq<string>, f: string)
    requires f == "fallback" || f !in identifiers
    ensures Selected(identifiers, functions + [f]) == Selected(identifiers, functions)
  {
    assert forall g :: g in functions + [f] <==> g in functions || g == f;
  }

  /** The code of the contract in a world state. */
  class ContractCode {
    var instructionList: seq<Instr>
    var funcHashes: seq<Key>

    constructor (instructionList: seq<Instr>, funcHashes: seq<Key>)
      ensures this.instructionList == instructionList && this.funcHashes == funcHashes
    {
      this.instructionList, this.funcHashes := instructionList, funcHashes;
    }
  }

  /** The length test counts "fallback" and repeated names: one selected function of two can leave
      both executable. */
  lemma FallbackCountsAsSelected(f: string, g: string, k: Key, l: Key)
    requires f != g && k != l && f != "fallback" && g != "fallback"
    ensures KeepsOriginal(map[f := k, g := l], ["fallback", f])
    ensures Selected(map[f := k, g := l], ["fallback", f]) == {k}
  {
    var functions := ["fallback", f];
    assert functions[1] == f && f in functions;
    assert |map[f := k, g := l]| == 2;
  }

  datatype Verdict = Stored | Stop | Missing

  class InstructionModification {
    const functionIdentifier: map<string, Key>
    var instructionList: seq<Instr>
    var functionsToPositions: map<Key, seq<nat>>
    var positionsToInstructions: map<nat, seq<Instr>>
    var allPositionsRelatedFunction: set<nat>
    var jumpdestInDispatcher: seq<(nat, nat)>
    var addressJumpdestRevertBlock: nat
    var positionsContainGT: seq<nat>
    /** What was there before the last feeding: the source never clears these. */
    ghost var oldFunctions: map<Key, seq<nat>>
    ghost var oldDests: seq<(nat, nat)>
    ghost var oldPositions: set<nat>

    constructor (functionIdentifier: map<string, Key>)
      ensures this.functionIdentifier == functionIdentifier
      ensures Fresh() && instructionList == []
    {
      this.functionIdentifier := functionIdentifier;
      instructionList := [];
      functionsToPositions := map[];
      positionsToInstructions := map[];
      allPositionsRelatedFunction := {};
      jumpdestInDispatcher := [];
      addressJumpdestRevertBlock := 0;
      positionsContainGT := [];
      oldFunctions, oldDests, oldPositions := map[], [], {};
    }

    ghost predicate Fresh()
      reads this
    {
      functionsToPositions == map[] && jumpdestInDispatcher == [] && positionsToInstructions == map[]
    }

    /** The fields hold exactly the groups of `s`. */
    ghost predicate Tracks(s: Scan)
      reads this
    {
      && TracksBodies(s.groups) && TracksOwners(s.groups) && TracksGT(s.groups)
      && TracksDests(s.dests)
      && addressJumpdestRevertBlock == s.revert
    }

    ghost predicate TracksBodies(groups: seq<Group>)
      reads this`positionsToInstructions
    {
      forall p :: 0 <= p < |groups| ==> p in positionsToInstructions && positionsToInstructions[p] == groups[p].body
    }

    /** The groups of a function, beside those of an earlier feeding. */
    ghost predicate TracksOwners(groups: seq<Group>)
      reads this`functionsToPositions, this`oldFunctions
    {
      forall k, p :: Listed(k, p) <==> (k in oldFunctions && p in oldFunctions[k]) || (0 <= p < |groups| && groups[p].owner == Some(k))
    }

    ghost predicate TracksGT(groups: seq<Group>)
      reads this`positionsContainGT
    {
      forall p :: p in positionsContainGT <==> 0 <= p < |groups| && groups[p].hasGT
    }

    ghost predicate TracksDests(dests: seq<(nat, nat)>)
      reads this`jumpdestInDispatcher, this`oldDests
    {
      jumpdestInDispatcher == oldDests + dests
    }

    ghost predicate Listed(k: Key, p: int)
      reads this`functionsToPositions
    {
      k in functionsToPositions && p in functionsToPositions[k]
    }

    ghost predicate HasPositions(n: nat)
      reads this`positionsToInstructions, this`oldPositions
    {
      forall p :: p in positionsToInstructions <==> 0 <= p < n || p in oldPositions
    }

    /** Nothing was left from an earlier feeding. */
    ghost predicate FirstFeeding()
      reads this`oldFunctions, this`oldDests, this`oldPositions
    {
      oldFunctions == map[] && oldDests == [] && oldPositions == {}
    }

    /** What holds once the instruction list has been grouped by a new object. */
    ghost predicate Fed()
      reads this
    {
      var out := ScanFrom(instructionList, 0, INITIAL);
      FirstFeeding() && out.Grouped? && Complete(out.scan, out.end)
    }

    ghost predicate Complete(s: Scan, end: nat)
      reads this
    {
      && Tracks(s)
      && HasPositions(|s.groups| + 1)
      && end <= |instructionList| && positionsToInstructions[|s.groups|] == instructionList[end..]
      && (forall p :: p in allPositionsRelatedFunction <==> exists k :: Listed(k, p))
    }

    /** Groups the instruction list; `ok` is false when a PUSH without argument raises a KeyError. An object
        that is fed again keeps the selectors, JUMPDESTs and surplus groups of the earlier list. */
    method FeedInstructions(code: seq<Instr>) returns (ok: bool)
      modifies this
      ensures instructionList == code
      ensures ok == ScanFrom(code, 0, INITIAL).Grouped?
      ensures oldFunctions == old(functionsToPositions) && oldDests == old(jumpdestInDispatcher) && oldPositions == old(positionsToInstructions.Keys)
      ensures ok ==> Complete(ScanFrom(code, 0, INITIAL).scan, ScanFrom(code, 0, INITIAL).end)
      ensures ok && old(Fresh()) ==> Fed()
    {
      hide Next, React, ScanFrom, TracksBodies, TracksOwners, TracksGT, TracksDests, HasPositions;
      instructionList := code;
      var offset, flag, position := 0, 0, 0;
      StartFeeding();
      ghost var s := INITIAL;
      while offset < |code|
        invariant offset <= |code| && s.groups != []
        invariant instructionList == code && flag == s.flag && position == |s.groups| - 1
        invariant oldFunctions == old(functionsToPositions) && oldDests == old(jumpdestInDispatcher) && oldPositions == old(positionsToInstructions.Keys)
        invariant Tracks(s) && HasPositions(position + 1)
        invariant ScanFrom(code, 0, INITIAL) == ScanFrom(code, offset, s)
      {
        var verdict;
        ScanStep(code, offset, s);
        verdict, flag, position := Visit(code[offset], offset, flag, position, s);
        if verdict == Stop {
          break;
        } else if verdict == Missing {
          return false;
        }
        s := Next(s, code[offset], offset);
        offset := offset + 1;
      }
      ScanStep(code, offset, s);
      Finish(position, offset, s);
      return true;
    }

    /** Begins with one empty group. */
    method StartFeeding()
      modifies this`positionsToInstructions, this`addressJumpdestRevertBlock, this`positionsContainGT, this`oldFunctions, this`oldDests, this`oldPositions
      ensures Tracks(INITIAL) && HasPositions(1)
      ensures oldFunctions == old(functionsToPositions) && oldDests == old(jumpdestInDispatcher) && oldPositions == old(positionsToInstructions.Keys)
      ensures old(Fresh()) ==> FirstFeeding()
    {
      oldFunctions, oldDests, oldPositions := functionsToPositions, jumpdestInDispatcher, positionsToInstructions.Keys;
      positionsToInstructions := positionsToInstructions[0 := []];
      addressJumpdestRevertBlock := 0;
      positionsContainGT := [];
    }

    /** The body of the scan's loop: one instruction. */
    method Visit(ins: Instr, offset: nat, flag: nat, position: nat, ghost s: Scan)
      returns (verdict: Verdict, flag': nat, position': nat)
      requires s.groups != [] && flag == s.flag && position == |s.groups| - 1
      requires Tracks(s) && HasPositions(position + 1)
      modifies this`positionsToInstructions, this`functionsToPositions, this`addressJumpdestRevertBlock,
        this`jumpdestInDispatcher, this`positionsContainGT
      ensures verdict == Stop <==> Stops(s, ins)
      ensures verdict == Missing <==> MissingArgument(s, ins)
      ensures verdict == Stop ==> Tracks(s) && HasPositions(position + 1) && flag' == flag && position' == position
      ensures verdict == Stored ==>
        && Tracks(Next(s, ins, offset)) && HasPositions(position' + 1)
        && flag' == Next(s, ins, offset).flag && position' == |Next(s, ins, offset).groups| - 1
    {
      hide TracksBodies, TracksOwners, TracksGT, TracksDests, HasPositions, OpensGroup, BigEndian;
      verdict, flag', position' := Stored, flag, position;
      if ins.opcode == CALLDATASIZE {
        flag' := 1;
      } else if ins.opcode.PUSH? {
        if (flag == 1 || flag == 2) && ins.argument == [] {
          return Missing, flag, position;
        }
        position' := VisitPush(ins, offset, flag, position, s);
      } else if ins.opcode == JUMPDEST {
        if flag == 2 {
          if addressJumpdestRevertBlock == ins.address {
            return Stop, flag, position;
          }
          position' := position + 1;
          RecordJumpdest(position', offset, s);
        }
      } else if ins.opcode == CALLDATALOAD {
        flag' := 2;
      } else if ins.opcode == GT {
        if flag == 2 {
          RecordGT(position, s);
        }
      }
      Store(position', ins, React(s, ins, offset));
    }

    /** A PUSH names the revert block after CALLDATASIZE, and may open a function's group after CALLDATALOAD. */
    method VisitPush(ins: Instr, offset: nat, flag: nat, position: nat, ghost s: Scan) returns (position': nat)
      requires s.groups != [] && flag == s.flag && position == |s.groups| - 1
      requires Tracks(s) && HasPositions(position + 1) && ins.opcode.PUSH?
      modifies this`positionsToInstructions, this`functionsToPositions, this`addressJumpdestRevertBlock
      ensures Tracks(React(s, ins, offset))
      ensures position' == |React(s, ins, offset).groups| - 1 && HasPositions(position' + 1)
    {
      hide TracksOwners, TracksGT, TracksDests, BigEndian;
      position' := position;
      if flag == 1 {
        var target := BigEndian(ins.argument);
        if target > 0 {
          addressJumpdestRevertBlock := target;
        }
      }
      if flag == 2 {
        var group := positionsToInstructions[position];
        if SelectorKey(ins.argument) != NO_SELECTOR && (ins.opcode == PUSH(4) || ins.opcode == PUSH(3)) {
          if |group| > 0 && group[|group| - 1].opcode == DUP1 {
            position' := position + 1;
            RecordPosition(position', ins, s);
          }
        }
      }
    }

    /** Keeps the rest of the list as the last group and collects the positions of functions. */
    method Finish(position: nat, offset: nat, ghost s: Scan)
      requires Tracks(s) && s.groups != [] && position == |s.groups| - 1 && HasPositions(position + 1)
      requires offset <= |instructionList|
      modifies this`positionsToInstructions, this`allPositionsRelatedFunction
      ensures Complete(s, offset)
    {
      positionsToInstructions := positionsToInstructions[position + 1 := instructionList[offset..]];
      allPositionsRelatedFunction := set k, p | k in functionsToPositions && p in functionsToPositions[k] :: p;
      forall p | exists k :: Listed(k, p) ensures p in allPositionsRelatedFunction {
        var k :| Listed(k, p);
      }
      forall p | p in allPositionsRelatedFunction ensures exists k :: Listed(k, p) {
        var k :| k in functionsToPositions && p in functionsToPositions[k];
        assert Listed(k, p);
      }
    }

    /** Opens an empty group at `position` and lists it under the function's selector. */
    method RecordPosition(position: nat, ins: Instr, ghost s: Scan)
      requires Tracks(s) && s.groups != [] && position == |s.groups| && HasPositions(position)
      modifies this`positionsToInstructions, this`functionsToPositions
      ensures Tracks(Opened(s, Some(SelectorKey(ins.argument)))) && HasPositions(position + 1)
    {
      positionsToInstructions := positionsToInstructions[position := []];
      var key := SelectorKey(ins.argument);
      var listed := if key !in functionsToPositions then [] else functionsToPositions[key];
      functionsToPositions := functionsToPositions[key := listed + [position]];
      forall k, p
        ensures Listed(k, p) <==> old(Listed(k, p)) || (k == key && p == position)
      {
      }
    }

    /** Opens an empty group for a JUMPDEST inside the dispatcher. */
    method RecordJumpdest(position: nat, offset: nat, ghost s: Scan)
      requires Tracks(s) && s.groups != [] && position == |s.groups| && HasPositions(position)
      modifies this`positionsToInstructions, this`jumpdestInDispatcher
      ensures Tracks(Opened(s, None).(dests := s.dests + [(position, offset)])) && HasPositions(position + 1)
    {
      jumpdestInDispatcher := jumpdestInDispatcher + [(position, offset)];
      positionsToInstructions := positionsToInstructions[position := []];
    }

    /** Notes that the current group holds a GT. */
    method RecordGT(position: nat, ghost s: Scan)
      requires Tracks(s) && s.groups != [] && position == |s.groups| - 1
      modifies this`positionsContainGT
      ensures Tracks(WithLast(s, Last(s).(hasGT := true)))
    {
      positionsContainGT := positionsContainGT + [position];
    }

    /** Appends an instruction to the current group. */
    method Store(position: nat, ins: Instr, ghost s: Scan)
      requires Tracks(s) && s.groups != [] && position == |s.groups| - 1 && HasPositions(position + 1)
      modifies this`positionsToInstructions
      ensures Tracks(WithLast(s, Last(s).(body := Last(s).body + [ins]))) && HasPositions(position + 1)
    {
      positionsToInstructions := positionsToInstructions[position := positionsToInstructions[position] + [ins]];
    }

    /** The list in which every function but the selected ones is masked. The loops rewrite a growing
        list in place; the result is the declarative `MaskedCode`. */
    method GetModifiedInstructions(fctSelectors: seq<Key>) returns (combined: seq<Instr>)
      requires Fed()
      ensures combined == Expected(set k | k in fctSelectors)
    {
      hide Patched, Combine, NextLive, ScanFrom, Landmarks, TracksBodies, TracksOwners, TracksGT;
      assert [] + ScanFrom(instructionList, 0, INITIAL).scan.dests == ScanFrom(instructionList, 0, INITIAL).scan.dests;
      ghost var s, kept := ScanFrom(instructionList, 0, INITIAL).scan, set k | k in fctSelectors;
      var notKept := NotKept(fctSelectors, s);
      combined := CombineGroups(notKept, kept, s);
      ghost var u := combined;
      ghost var load := FindLandmarks(instructionList, kept);
      combined := PatchTail(combined);
      combined := PatchJumpdests(combined, jumpdestInDispatcher, u, load);
      KeyCount(positionsToInstructions, |s.groups| + 1);
      combined := combined + positionsToInstructions[|positionsToInstructions| - 1];
    }

    ghost function Expected(keep: set<Key>): seq<Instr>
      reads this`instructionList
      requires ScanFrom(instructionList, 0, INITIAL).Grouped?
    {
      var out := ScanFrom(instructionList, 0, INITIAL);
      MaskedCode(instructionList, out.scan, out.end, keep)
    }

    /** Installs in every state the code for `functions`, and the selectors beside it when it is masked. */
    method ModifyOnMultipleStates(states: seq<ContractCode>, functions: seq<string>)
      requires functionIdentifier != map[] ==> Fed()
      modifies states
      ensures forall c :: c in states ==> c.instructionList == Chosen(functions)
      ensures "original_instruction_list" in functions || |functions| >= |functionIdentifier| ==>
        forall c :: c in states ==> c.instructionList == instructionList && c.funcHashes == old(c.funcHashes)
      ensures "original_instruction_list" !in functions && |functions| < |functionIdentifier| ==>
        forall c :: c in states ==> c.instructionList == Expected(Selected(functionIdentifier, functions))
      ensures forall c :: c in states ==>
        c.funcHashes == (if KeepsOriginal(functionIdentifier, functions) then old(c.funcHashes) else Selectors(functionIdentifier, functions))
    {
      hide Expected, Selectors, Selected;
      if "original_instruction_list" in functions {
        Install(states, instructionList);
        return;
      }
      if |functions| >= |functionIdentifier| {
        Install(states, instructionList);
        return;
      }
      var fctSelectors := SelectorsFor(functions);
      SelectorsAreSelected(functionIdentifier, functions);
      var code := GetModifiedInstructions(fctSelectors);
      Install(states, code);
      for i := 0 to |states|
        invariant forall c :: c in states ==> c.instructionList == code
        invariant forall j :: 0 <= j < i ==> states[j].funcHashes == fctSelectors
      {
        states[i].funcHashes := fctSelectors;
      }
    }

    /** The code for a list of function names. */
    ghost function Chosen(functions: seq<string>): seq<Instr>
      reads this`instructionList
      requires KeepsOriginal(functionIdentifier, functions) || ScanFrom(instructionList, 0, INITIAL).Grouped?
    {
      if KeepsOriginal(functionIdentifier, functions) then instructionList else Expected(Selected(functionIdentifier, functions))
    }

    method Install(states: seq<ContractCode>, code: seq<Instr>)
      modifies states
      ensures forall c :: c in states ==> c.instructionList == code && c.funcHashes == old(c.funcHashes)
    {
      for i := 0 to |states|
        invariant forall c :: c in states ==> c.funcHashes == old(c.funcHashes)
        invariant forall j :: 0 <= j < i ==> states[j].instructionList == code
      {
        states[i].instructionList := code;
      }
    }

    /** The fallback has no selector, and unknown names are skipped. */
    method SelectorsFor(functions: seq<string>) returns (fctSelectors: seq<Key>)
      ensures fctSelectors == Selectors(functionIdentifier, functions)
    {
      fctSelectors := [];
      for i := 0 to |functions|
        invariant fctSelectors == Selectors(functionIdentifier, functions[..i])
      {
        assert functions[..i + 1][..i] == functions[..i];
        if functions[i] != "fallback" && functions[i] in functionIdentifier {
          fctSelectors := fctSelectors + [functionIdentifier[functions[i]]];
        }
      }
      assert functions[..|functions|] == functions;
    }

    /** Positions of functions that are neither selected nor needed for a GT split. */
    method NotKept(fctSelectors: seq<Key>, ghost s: Scan) returns (notKept: set<nat>)
      requires Tracks(s) && FirstFeeding() && forall p :: p in allPositionsRelatedFunction <==> exists k :: Listed(k, p)
      ensures forall p :: 0 <= p < |s.groups| ==> (p in notKept <==> Masked(s.groups[p], set k | k in fctSelectors))
    {
      var keep := positionsContainGT;
      for i := 0 to |fctSelectors|
        invariant forall p :: p in keep <==> p in positionsContainGT || exists j :: 0 <= j < i && Listed(fctSelectors[j], p)
      {
        if fctSelectors[i] in functionsToPositions {
          keep := keep + functionsToPositions[fctSelectors[i]];
        }
      }
      notKept := set p | p in allPositionsRelatedFunction && p !in keep;
      forall p | 0 <= p < |s.groups|
        ensures p in notKept <==> Masked(s.groups[p], set k | k in fctSelectors)
      {
        if s.groups[p].owner.Some? {
          var k := s.groups[p].owner.value;
          assert Listed(k, p);
          if k in fctSelectors {
            var j :| 0 <= j < |fctSelectors| && fctSelectors[j] == k;
            assert Listed(fctSelectors[j], p);
          }
        }
      }
    }

    /** Concatenates the groups, with EMPTY instructions for those that are not kept. */
    method CombineGroups(notKept: set<nat>, ghost kept: set<Key>, ghost s: Scan) returns (combined: seq<Instr>)
      requires Tracks(s) && FirstFeeding() && HasPositions(|s.groups| + 1)
      requires forall p :: 0 <= p < |s.groups| ==> (p in notKept <==> Masked(s.groups[p], kept))
      ensures combined == Combine(s.groups, kept)
    {
      combined := [];
      KeyCount(positionsToInstructions, |s.groups| + 1);
      for p := 0 to |positionsToInstructions| - 1
        invariant combined == Combine(s.groups[..p], kept)
      {
        assert s.groups[..p + 1][..p] == s.groups[..p];
        if p !in notKept {
          combined := combined + positionsToInstructions[p];
        } else {
          var empty := EmptyInstructions(positionsToInstructions[p]);
          combined := combined + empty;
        }
      }
      assert s.groups[..|s.groups|] == s.groups;
    }
  }

  lemma ScanStep(code: seq<Instr>, i: nat, s: Scan)
    requires i <= |code| && s.groups != []
    ensures ScanFrom(code, i, s) ==
      if i == |code| || Stops(s, code[i]) then Grouped(s, i)
      else if MissingArgument(s, code[i]) then KeyError
      else ScanFrom(code, i + 1, Next(s, code[i], i))
  {
    hide Next;
  }

  /** As many EMPTY instructions, at the same addresses. */
  method EmptyInstructions(group: seq<Instr>) returns (empty: seq<Instr>)
    ensures empty == EraseAll(group)
  {
    empty := [];
    for i := 0 to |group|
      invariant empty == EraseAll(group[..i])
    {
      empty := empty + [Erase(group[i])];
    }
    assert group[..|group|] == group;
  }

  /** A DUP1 that is the last live instruction of the list is erased. */
  method PatchTail(code: seq<Instr>) returns (r: seq<Instr>)
    ensures r == Patched(code, {}, true)
  {
    r := code;
    var index := |code| - 1;
    while index > 0
      invariant r == code && index < |code|
      invariant forall m :: 0 <= m && index < m < |code| ==> code[m].opcode == EMPTY
      decreases index
    {
      if r[index].opcode == EMPTY {
        index := index - 1;
      } else {
        if r[index].opcode == DUP1 {
          r := r[index := Erase(r[index])];
        }
        break;
      }
    }
  }

  /** The recorded JUMPDESTs are live, in order, and behind a live CALLDATALOAD. */
  ghost predicate Landmarks(u: seq<Instr>, dests: seq<(nat, nat)>, load: nat) {
    && (dests != [] ==> load < |u| && u[load].opcode == CALLDATALOAD)
    && (forall d :: 0 <= d < |dests| ==> load < dests[d].1 < |u| && u[dests[d].1].opcode == JUMPDEST)
    && (forall d, e :: 0 <= d < e < |dests| ==> dests[d].1 < dests[e].1)
  }

  lemma FindLandmarks(code: seq<Instr>, keep: set<Key>) returns (load: nat)
    requires ScanFrom(code, 0, INITIAL).Grouped?
    ensures var s := ScanFrom(code, 0, INITIAL).scan; Landmarks(Combine(s.groups, keep), s.dests, load)
  {
    hide Combine, ScanFrom;
    InitialInvariant(code);
    ScanKeepsInvariant(code, 0, INITIAL);
    var out := ScanFrom(code, 0, INITIAL);
    load := 0;
    if out.scan.dests != [] {
      load := LiveLandmarks(out.scan, code, out.end, keep);
    }
  }

  /** For each JUMPDEST inside the dispatcher, a DUP1 that is the last live instruction before it is
      erased. Every backward scan ends at or after the first CALLDATALOAD. */
  method PatchJumpdests(code: seq<Instr>, dests: seq<(nat, nat)>, ghost u: seq<Instr>, ghost load: nat)
    returns (r: seq<Instr>)
    requires code == Patched(u, {}, true) && Landmarks(u, dests, load)
    ensures r == Patched(u, Offsets(dests), true)
  {
    r := code;
    assert Offsets(dests[..0]) == {};
    for d := 0 to |dests|
      invariant r == Patched(u, Offsets(dests[..d]), true)
    {
      ghost var done, off := Offsets(dests[..d]), dests[d].1;
      var idx := dests[d].1 - 1;
      while true
        invariant r == Patched(u, done, true)
        invariant load <= idx < off
        invariant forall m :: idx < m < off ==> r[m].opcode == EMPTY
        decreases idx
      {
        if r[idx].opcode == EMPTY {
          idx := idx - 1;
        } else {
          BackwardScan(u, done, r, off, idx);
          if r[idx].opcode == JUMPDEST || r[idx].opcode == PUSH(4) {
            break;
          }
          if r[idx].opcode == DUP1 {
            r := r[idx := Erase(r[idx])];
          }
          break;
        }
      }
      assert Offsets(dests[..d + 1]) == done + {off} by { assert dests[..d + 1] == dests[..d] + [dests[d]]; }
    }
    assert dests[..|dests|] == dests;
  }

  lemma {:induction false} KeyCount<T>(m: map<nat, T>, n: nat)
    requires forall p :: p in m <==> 0 <= p < n
    ensures |m| == n
  {
    if n > 0 {
      var rest := m - {n - 1};
      KeyCount(rest, n - 1);
      assert m.Keys == rest.Keys + {n - 1};
    } else {
      assert m.Keys == {};
    }
  }
}
