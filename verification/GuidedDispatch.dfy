/** From the choice of functions to the code that the engine runs: the dispatcher installed for the picked
    state sends a known function to its entry exactly when the function was assigned or nothing was masked. */
module GuidedDispatch {
  import opened Instructions
  import Grouping
  import FunctionAssignment
  import opened Merge
  import opened AcyclicPaths
  import opened Dispatcher
  import opened Machine
  import opened InstructionModification
  import opened DispatcherPatching
  import opened DispatcherTheorem
  import opened Mine
  import opened GuidedRun
  import opened Guider

  // ---------- which functions can be entered ----------

  /** Different functions have different selectors. */
  ghost predicate Distinct(identifiers: map<string, Grouping.Key>) {
    forall f, g :: f in identifiers && g in identifiers && identifiers[f] == identifiers[g] ==> f == g
  }

  /** The dispatcher answers to the selector of `f` with block `b`. */
  predicate IsKnown(d: Dispatcher, identifiers: map<string, Grouping.Key>, f: string, b: Block) {
    f in identifiers && f != "fallback" && KeyOf(b) == identifiers[f] && Lookup(d.tree, ValueOf(b)) == Some(b)
  }

  /** The selector of block `b` leads to the entry of its function. */
  ghost predicate Enters(code: seq<Instr>, d: Dispatcher, b: Block, rest: seq<nat>) {
    Machine.Reaches(code, Limit(d), State(Base(d), rest + [ValueOf(b)]), State(IndexOf(d, BigEndian(b.dst.argument)), rest + [ValueOf(b)]))
  }

  /** With the code for a list of names, a known function is entered if and only if it is in the list, or
      the list is as long as that of all functions or asks for the original code. */
  lemma EnteredExactly(d: Dispatcher, identifiers: map<string, Grouping.Key>, functions: seq<string>, f: string, b: Block, rest: seq<nat>)
    requires WellFormed(d) && Distinct(identifiers) && IsKnown(d, identifiers, f, b) && |rest| + 3 <= STACK_LIMIT
    ensures Grouping.ScanFrom(CodeOf(d), 0, Grouping.INITIAL).Grouped?
    ensures Enters(Installed(d, identifiers, functions), d, b, rest) <==> f in functions || KeepsOriginal(identifiers, functions)
  {
    hide WellFormed, CodeOf, Lookup, Limit, Grouping.ScanFrom, KeyOf, Selected, KeepsOriginal, IndexOf, BigEndian, Machine.Reaches, Destination, ValueOf, AllKeys;
    var keep, x := Selected(identifiers, functions), ValueOf(b);
    MaskingPreservesDispatch(d, keep, rest, x);
    InSelection(identifiers, functions, f);
    EntryOf(d, x, b);
    LedByKept(d, AllKeys(d), b);
    if f in functions {
      LedByKept(d, keep, b);
    }
    if f !in functions && !KeepsOriginal(identifiers, functions) {
      UnselectedIsBlocked(d, identifiers, functions, rest, x);
      OneExit(Installed(d, identifiers, functions), d, b, rest);
    }
  }

  /** The code enters exactly the known functions among `names`, or all if the names leave it as it is. */
  ghost predicate RunsOnly(code: seq<Instr>, d: Dispatcher, identifiers: map<string, Grouping.Key>, names: seq<string>) {
    forall f, b, rest :: IsKnown(d, identifiers, f, b) && |rest| + 3 <= STACK_LIMIT ==>
      (Enters(code, d, b, rest) <==> f in names || KeepsOriginal(identifiers, names))
  }

  lemma InstalledRunsOnly(d: Dispatcher, identifiers: map<string, Grouping.Key>, functions: seq<string>)
    requires WellFormed(d) && Distinct(identifiers)
    ensures Grouping.ScanFrom(CodeOf(d), 0, Grouping.INITIAL).Grouped?
    ensures RunsOnly(Installed(d, identifiers, functions), d, identifiers, functions)
  {
    hide WellFormed, Distinct, Enters, IsKnown, KeepsOriginal, CodeOf, Grouping.ScanFrom;
    MaskedListRenders(d, {});
    forall f, b, rest | IsKnown(d, identifiers, f, b) && |rest| + 3 <= STACK_LIMIT
      ensures Enters(Installed(d, identifiers, functions), d, b, rest) <==> f in functions || KeepsOriginal(identifiers, functions)
    {
      EnteredExactly(d, identifiers, functions, f, b, rest);
    }
  }

  lemma InSelection(identifiers: map<string, Grouping.Key>, functions: seq<string>, f: string)
    requires Distinct(identifiers) && f in identifiers && f != "fallback"
    ensures identifiers[f] in Selected(identifiers, functions) <==> f in functions
  {
  }

  lemma LedByKept(d: Dispatcher, keep: set<Grouping.Key>, b: Block)
    requires Lookup(d.tree, ValueOf(b)) == Some(b) && KeyOf(b) in keep
    ensures Destination(d, keep, ValueOf(b)) == IndexOf(d, BigEndian(b.dst.argument))
  {
  }

  /** What ends at the revert block does not end at an entry behind it. */
  lemma OneExit(code: seq<Instr>, d: Dispatcher, b: Block, rest: seq<nat>)
    requires Limit(d) < IndexOf(d, BigEndian(b.dst.argument))
    requires Machine.Reaches(code, Limit(d), State(Base(d), rest + [ValueOf(b)]), State(Limit(d), rest + [ValueOf(b)]))
    ensures !Enters(code, d, b, rest)
  {
    hide Limit, IndexOf, BigEndian, ValueOf, Machine.Step;
    var s, t, u := State(Base(d), rest + [ValueOf(b)]), State(Limit(d), rest + [ValueOf(b)]), State(IndexOf(d, BigEndian(b.dst.argument)), rest + [ValueOf(b)]);
    if Enters(code, d, b, rest) {
      var n: nat :| Run(code, Limit(d), s, n) == Some(t);
      var m: nat :| Run(code, Limit(d), s, m) == Some(u);
      ExitIsUnique(code, Limit(d), s, t, u, n, m);
    }
  }

  /** Known names without repetition. */
  ghost predicate Listing(identifiers: map<string, Grouping.Key>, functions: seq<string>) {
    && (forall g :: g in functions ==> g in identifiers && g != "original_instruction_list")
    && (forall i, j :: 0 <= i < j < |functions| ==> functions[i] != functions[j])
  }

  /** For such a list nothing is masked only if everything is listed, so exactly the listed functions are entered. */
  lemma ListedAreEntered(d: Dispatcher, identifiers: map<string, Grouping.Key>, functions: seq<string>, f: string, b: Block, rest: seq<nat>)
    requires WellFormed(d) && Distinct(identifiers) && IsKnown(d, identifiers, f, b) && |rest| + 3 <= STACK_LIMIT
    requires Listing(identifiers, functions)
    ensures Grouping.ScanFrom(CodeOf(d), 0, Grouping.INITIAL).Grouped?
    ensures Enters(Installed(d, identifiers, functions), d, b, rest) <==> f in functions
  {
    hide WellFormed, Distinct, Enters, IsKnown, Installed, Grouping.ScanFrom;
    EnteredExactly(d, identifiers, functions, f, b, rest);
    if KeepsOriginal(identifiers, functions) {
      NamesAreDistinct(functions);
      var names := set g | g in functions;
      Whole(names, identifiers.Keys);
      KnownName(d, identifiers, f, b);
    }
  }

  lemma KnownName(d: Dispatcher, identifiers: map<string, Grouping.Key>, f: string, b: Block)
    requires IsKnown(d, identifiers, f, b)
    ensures f in identifiers
  {
  }

  lemma {:induction false} NamesAreDistinct(functions: seq<string>)
    requires forall i, j :: 0 <= i < j < |functions| ==> functions[i] != functions[j]
    ensures |set g | g in functions| == |functions|
  {
    if functions != [] {
      var n := |functions| - 1;
      NamesAreDistinct(functions[..n]);
      assert (set g | g in functions) == (set g | g in functions[..n]) + {functions[n]};
    }
  }

  lemma Whole<T>(a: set<T>, b: set<T>)
    requires a <= b && |a| >= |b|
    ensures a == b
  {
    assert |b - a| == |b| - |a|;
  }

  // ---------- a guided step up to the engine ----------

  /** The copy of the picked state that the engine receives; the saved state keeps its own code. */
  method PrepareState(modification: InstructionModification, carried: ContractCode, functions: seq<string>) returns (code: ContractCode)
    requires modification.functionIdentifier != map[] ==> modification.Fed()
    ensures fresh(code) && code.instructionList == modification.Chosen(functions)
    ensures code.funcHashes ==
      if KeepsOriginal(modification.functionIdentifier, functions) then carried.funcHashes else Selectors(modification.functionIdentifier, functions)
  {
    code := new ContractCode(carried.instructionList, carried.funcHashes);
    modification.ModifyOnMultipleStates([code], functions);
  }

  lemma ChosenIsInstalled(modification: InstructionModification, d: Dispatcher, functions: seq<string>)
    requires WellFormed(d) && modification.instructionList == CodeOf(d)
    ensures Grouping.ScanFrom(CodeOf(d), 0, Grouping.INITIAL).Grouped?
    ensures modification.Chosen(functions) == Installed(d, modification.functionIdentifier, functions)
  {
    hide WellFormed, CodeOf, Grouping.ScanFrom, Selected, KeepsOriginal, Renders, Limit, Tokens;
    MaskedListRenders(d, {});
  }

  /** Every function that can be assigned is known, and no function follows another one twice. */
  ghost predicate KnowsAll(a: FunctionAssignment.FunctionAssignment, identifiers: map<string, Grouping.Key>) {
    && a.Unrepeated() && Simple(a.allFunctions) && a.allFunctions != []
    && (forall c :: c in a.allFunctions || c in a.dkNotReachable ==> IsName(identifiers, c))
    && forall f, c :: c in Children(a.augmented, f) ==> IsName(identifiers, c)
  }

  predicate IsName(identifiers: map<string, Grouping.Key>, f: string) {
    f in identifiers && f != "original_instruction_list"
  }

  lemma ExecutableAreNames(a: FunctionAssignment.FunctionAssignment, identifiers: map<string, Grouping.Key>, dk: seq<FunctionAssignment.Coverage>)
    requires KnowsAll(a, identifiers) && Budgeted(a, dk)
    ensures forall key: FunctionAssignment.Key, f :: key.functions != [] && Executable(a, key, dk, f) ==> IsName(identifiers, f)
  {
    hide IsName, Children;
  }

  /** The code enters exactly the known functions among `names`. */
  ghost predicate RunsExactly(code: seq<Instr>, d: Dispatcher, identifiers: map<string, Grouping.Key>, names: seq<string>) {
    forall f, b, rest :: IsKnown(d, identifiers, f, b) && |rest| + 3 <= STACK_LIMIT ==> (Enters(code, d, b, rest) <==> f in names)
  }

  lemma InstalledRunsExactly(d: Dispatcher, identifiers: map<string, Grouping.Key>, functions: seq<string>)
    requires WellFormed(d) && Distinct(identifiers) && Listing(identifiers, functions)
    ensures Grouping.ScanFrom(CodeOf(d), 0, Grouping.INITIAL).Grouped?
    ensures RunsExactly(Installed(d, identifiers, functions), d, identifiers, functions)
  {
    hide WellFormed, Distinct, Enters, IsKnown, Installed, Listing, CodeOf, Grouping.ScanFrom;
    MaskedListRenders(d, {});
    forall f, b, rest | IsKnown(d, identifiers, f, b) && |rest| + 3 <= STACK_LIMIT
      ensures Enters(Installed(d, identifiers, functions), d, b, rest) <==> f in functions
    {
      ListedAreEntered(d, identifiers, functions, f, b, rest);
    }
  }

  lemma NamesAreListed(identifiers: map<string, Grouping.Key>, functions: seq<string>)
    requires Simple(functions) && forall f :: f in functions ==> IsName(identifiers, f)
    ensures Listing(identifiers, functions)
  {
  }

  lemma AllAreNames(a: FunctionAssignment.FunctionAssignment, identifiers: map<string, Grouping.Key>)
    requires KnowsAll(a, identifiers)
    ensures a.Unrepeated() && Simple(a.allFunctions) && a.allFunctions != [] && forall f :: f in a.allFunctions ==> IsName(identifiers, f)
  {
  }

  lemma TookAll(guider: Guider, before: seq<FunctionAssignment.Key>, prepared: seq<Prepared>, dk: seq<FunctionAssignment.Coverage>)
    requires guider.PickedFrom(before, prepared, dk, true) && prepared != [] && guider.strategy.assignment.allFunctions != []
    ensures prepared[0].functions == Some(guider.strategy.assignment.allFunctions)
  {
  }

  lemma ExecutedHasFunctions(limit: nat, p: Phase)
    requires Orderly(limit, p) && p.executed.Some?
    ensures p.executed.value.functions != []
  {
    assert p.executed.value in Keys(p);
  }

  /** One iteration behind the first two: the state that goes to the engine runs a known function if and
      only if the function was assigned or the list of assigned names leaves the code as it is, and the
      assigned functions are those from which a target can still be reached. */
  method PrepareIteration(guider: Guider, modification: InstructionModification, d: Dispatcher, codeOf: WorldState -> ContractCode,
      states: seq<WorldState>, dk: seq<FunctionAssignment.Coverage>, random: nat -> nat)
    returns (prepared: seq<Prepared>, codes: seq<ContractCode>, crashed: bool)
    requires guider.Valid() && Budgeted(guider.strategy.assignment, dk)
    requires (modification.functionIdentifier != map[] ==> modification.Fed()) && modification.instructionList == CodeOf(d)
    requires WellFormed(d) && Distinct(modification.functionIdentifier)
    modifies guider`index, guider`termination, guider.strategy, guider.strategy.assignment`assignmentTimes
    ensures guider.Valid() && Budgeted(guider.strategy.assignment, dk)
    ensures |codes| == |prepared| <= 1 && forall c :: c in codes ==> fresh(c)
    ensures Handed(prepared, guider.strategy.last, guider.strategy.worldStates)
    ensures prepared != [] ==> guider.strategy.last.value.functions != []
    ensures prepared != [] ==> RunsOnly(codes[0].instructionList, d, modification.functionIdentifier, prepared[0].functions.value)
    ensures prepared != [] && !old(guider.strategy.oneStart) ==>
      var key := guider.strategy.last.value;
      forall f :: f in prepared[0].functions.value <==> old(Executable(guider.strategy.assignment, key, dk, f))
    ensures prepared != [] && KnowsAll(guider.strategy.assignment, modification.functionIdentifier) ==>
      RunsExactly(codes[0].instructionList, d, modification.functionIdentifier, prepared[0].functions.value)
    ensures SavedState(prepared, guider.strategy.last, old(guider.strategy.worldStates), Organized(states, old(guider.index), guider.limit))
    ensures guider.PickedFrom(old(guider.Waiting(states)), prepared, dk, old(guider.strategy.oneStart))
    ensures prepared == [] && !crashed ==> dk == [] || (!old(guider.strategy.oneStart) && guider.strategy.queue == [])
  {
    hide KnowsAll, RunsExactly, SavedState, Simple, IsName, Listing, Organized;
    hide RunsOnly, KeepsOriginal, WellFormed, Distinct, Executable, CodeOf, Budgeted, Grouping.ScanFrom;
    hide Orderly, Advance, GuidedRun.Step, Successors, Labelled, Sound, Installed, Selectors;
    if KnowsAll(guider.strategy.assignment, modification.functionIdentifier) {
      ExecutableAreNames(guider.strategy.assignment, modification.functionIdentifier, dk);
    }
    prepared, crashed := guider.Guide(states, dk, random);
    if prepared != [] {
      ExecutedHasFunctions(guider.limit, guider.At(guider.strategy.last));
    }
    codes := [];
    if |prepared| > 0 {
      var functions := prepared[0].functions.value;
      var code := PrepareState(modification, codeOf(prepared[0].state), functions);
      codes := [code];
      ChosenIsInstalled(modification, d, functions);
      InstalledRunsOnly(d, modification.functionIdentifier, functions);
      if KnowsAll(guider.strategy.assignment, modification.functionIdentifier) {
        AllAreNames(guider.strategy.assignment, modification.functionIdentifier);
        forall f | f in functions ensures IsName(modification.functionIdentifier, f) {
          if old(guider.strategy.oneStart) {
            TookAll(guider, old(guider.Waiting(states)), prepared, dk);
          }
        }
        NamesAreListed(modification.functionIdentifier, functions);
        InstalledRunsExactly(d, modification.functionIdentifier, functions);
      }
    }
  }
}
