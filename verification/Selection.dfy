/** The values by which the states of the queue are compared, and the tie break between them. */
module Selection {
  import opened Merge
  import opened UpdateFwrg
  import opened AcyclicPaths
  import opened FunctionAssignment
  import opened Filtering

  /** A position in the sorted queue and the key found there. */
  type Candidate = (nat, Key)

  /** What the comparison reads: the slots in the storage of each state, the slots written at each depth,
      the slots read in the conditions of each function, the augmented graph and the targets. */
  datatype View = View(storage: map<Key, seq<Slot>>, written: map<Key, map<nat, seq<Slot>>>,
                       conditionReads: map<Function, seq<Slot>>, augmented: Graph, targets: seq<Function>)

  // ---------- the five values of a state ----------

  function Common(needs: seq<Slot>, writes: seq<Slot>): seq<Slot> {
    if needs == [] then []
    else Common(needs[..|needs| - 1], writes) + (if needs[|needs| - 1] in writes then [needs[|needs| - 1]] else [])
  }

  /** The share of the read slots that are written; functions that read nothing do not count. */
  function Share(needs: seq<Slot>, writes: seq<Slot>): real {
    if needs == [] then 0.0 else |Common(needs, writes)| as real / |needs| as real
  }

  function ReadsOf(conditionReads: map<Function, seq<Slot>>, f: Function): seq<Slot> {
    if f in conditionReads then conditionReads[f] else []
  }

  /** Each target counts once. */
  function Score(conditionReads: map<Function, seq<Slot>>, targets: seq<Function>, writes: seq<Slot>): real {
    if targets == [] then 0.0
    else
      var n := |targets| - 1;
      Score(conditionReads, targets[..n], writes)
        + (if targets[n] in targets[..n] then 0.0 else Share(ReadsOf(conditionReads, targets[n]), writes))
  }

  function WrittenAt(written: map<Key, map<nat, seq<Slot>>>, k: Key): map<nat, seq<Slot>> {
    if k in written then written[k] else map[]
  }

  /** The slots written by the last function of a state. */
  function Recent(written: map<Key, map<nat, seq<Slot>>>, k: Key): seq<Slot> {
    var at := WrittenAt(written, k);
    if |k.functions| in at then at[|k.functions|] else []
  }

  /** The slots written at other depths. */
  function Previous(written: map<Key, map<nat, seq<Slot>>>, k: Key): set<Slot> {
    var at := WrittenAt(written, k);
    set d, s | d in at && d != |k.functions| && s in at[d] :: s
  }

  function Outside(slots: seq<Slot>, known: set<Slot>): seq<Slot> {
    if slots == [] then []
    else Outside(slots[..|slots| - 1], known) + (if slots[|slots| - 1] in known then [] else [slots[|slots| - 1]])
  }

  /** The targets that are the last function of a state or follow it in the augmented graph. */
  function Reached(g: Graph, k: Key, targets: seq<Function>): set<Function> {
    set t | t in targets && k.functions != [] && (t == k.functions[|k.functions| - 1] || t in Children(g, k.functions[|k.functions| - 1]))
  }

  function StorageOf(v: View, k: Key): seq<Slot> {
    if k in v.storage then v.storage[k] else []
  }

  /** The storage score, the number of new recent writes, the score of the recent writes, the negated
      depth and the number of targets reached in one step. */
  function Value(v: View, i: nat, k: Key): real
    requires i < 5
  {
    if i == 0 then Score(v.conditionReads, v.targets, StorageOf(v, k))
    else if i == 1 then |Outside(Recent(v.written, k), Previous(v.written, k))| as real
    else if i == 2 then Score(v.conditionReads, v.targets, Recent(v.written, k))
    else if i == 3 then -(|k.functions| as real)
    else |Reached(v.augmented, k, v.targets)| as real
  }

  // ---------- lexicographic order ----------

  ghost predicate Tied(v: View, n: nat, d: Key, k: Key)
    requires n <= 5
  {
    forall i :: 0 <= i < n ==> Value(v, i, d) == Value(v, i, k)
  }

  ghost predicate Below(v: View, n: nat, d: Key, k: Key)
    requires n <= 5
  {
    exists i :: 0 <= i < n && Tied(v, i, d, k) && Value(v, i, d) < Value(v, i, k)
  }

  /** The values of `d` are lexicographically at most those of `k`. */
  ghost predicate AtMostAs(v: View, d: Key, k: Key) {
    Below(v, 5, d, k) || Tied(v, 5, d, k)
  }

  ghost predicate Top(v: View, i: nat, cands: seq<Candidate>, c: Candidate)
    requires i < 5
  {
    forall d :: d in cands ==> Value(v, i, d.1) <= Value(v, i, c.1)
  }

  /** `best` holds exactly the candidates with the largest value. */
  ghost predicate Best(v: View, i: nat, cands: seq<Candidate>, best: seq<Candidate>)
    requires i < 5
  {
    best != [] && forall d :: d in best <==> d in cands && Top(v, i, cands, d)
  }

  /** Every candidate left is ahead of all others in the first `n` values, and tied with those left. */
  ghost predicate Leading(v: View, n: nat, all: seq<Candidate>, cands: seq<Candidate>)
    requires n <= 5
  {
    && cands != []
    && (forall c :: c in cands ==> c in all)
    && forall c, d :: c in cands && d in all ==> Below(v, n, d.1, c.1) || (Tied(v, n, d.1, c.1) && d in cands)
  }

  lemma BestLeads(v: View, n: nat, all: seq<Candidate>, cands: seq<Candidate>, best: seq<Candidate>)
    requires n < 5 && Leading(v, n, all, cands) && Best(v, n, cands, best)
    ensures Leading(v, n + 1, all, best)
  {
    hide Value;
    forall c, d | c in best && d in all ensures Below(v, n + 1, d.1, c.1) || (Tied(v, n + 1, d.1, c.1) && d in best) {
      assert c in cands && Top(v, n, cands, c);
      if Below(v, n, d.1, c.1) {
        var i :| 0 <= i < n && Tied(v, i, d.1, c.1) && Value(v, i, d.1) < Value(v, i, c.1);
        assert Below(v, n + 1, d.1, c.1);
      } else {
        assert d in cands && Tied(v, n, d.1, c.1);
        if Value(v, n, d.1) == Value(v, n, c.1) {
          assert Top(v, n, cands, d);
        } else {
          assert Below(v, n + 1, d.1, c.1);
        }
      }
    }
  }

  lemma LeaderIsMaximum(v: View, n: nat, all: seq<Candidate>, cands: seq<Candidate>, c: Candidate, d: Candidate)
    requires n <= 5 && Leading(v, n, all, cands) && c in cands && d in all && (n == 5 || |cands| == 1)
    ensures AtMostAs(v, d.1, c.1)
  {
    hide Value;
    if Below(v, n, d.1, c.1) {
      var i :| 0 <= i < n && Tied(v, i, d.1, c.1) && Value(v, i, d.1) < Value(v, i, c.1);
      assert Below(v, 5, d.1, c.1);
    } else if n < 5 {
      assert d == c;
      assert Tied(v, 5, d.1, c.1);
    }
  }

  // ---------- what the values mean ----------

  /** The order of the values is total: two states that are each at most the other are tied on all five. */
  lemma OrderIsTotal(v: View, d: Key, k: Key)
    ensures AtMostAs(v, d, k) || AtMostAs(v, k, d)
    ensures AtMostAs(v, d, k) && AtMostAs(v, k, d) ==> Tied(v, 5, d, k)
  {
    hide Value;
    var n := 0;
    while n < 5 && Value(v, n, d) == Value(v, n, k)
      invariant n <= 5 && Tied(v, n, d, k)
    {
      n := n + 1;
    }
    assert Tied(v, n, k, d);
    if n < 5 {
      if Value(v, n, d) < Value(v, n, k) {
        assert Below(v, 5, d, k);
        FirstDifference(v, n, d, k);
      } else {
        assert Below(v, 5, k, d);
        FirstDifference(v, n, k, d);
      }
    }
  }

  lemma FirstDifference(v: View, n: nat, d: Key, k: Key)
    requires n < 5 && Tied(v, n, d, k) && Value(v, n, d) < Value(v, n, k)
    ensures !AtMostAs(v, k, d)
  {
    hide Value;
    forall i | 0 <= i < 5 ensures !(Tied(v, i, k, d) && Value(v, i, k) < Value(v, i, d)) {
      if i > n {
        assert Value(v, n, d) != Value(v, n, k);
      }
    }
  }

  /** Positions of the recent writes whose slots were not written at any other depth. */
  ghost function NewPositions(v: View, k: Key): set<nat> {
    var recent := if k in v.written && |k.functions| in v.written[k] then v.written[k][|k.functions|] else [];
    set i | 0 <= i < |recent| && !exists d :: d in v.written[k] && d != |k.functions| && recent[i] in v.written[k][d]
  }

  lemma {:induction false} OutsideCounts(slots: seq<Slot>, known: set<Slot>)
    ensures |Outside(slots, known)| == |set i | 0 <= i < |slots| && slots[i] !in known|
  {
    var positions := set i | 0 <= i < |slots| && slots[i] !in known;
    if slots != [] {
      var n := |slots| - 1;
      OutsideCounts(slots[..n], known);
      var before := set i | 0 <= i < |slots[..n]| && slots[..n][i] !in known;
      assert positions == before + if slots[n] in known then {} else {n};
    } else {
      assert positions == {};
    }
  }

  lemma NewAreCounted(v: View, k: Key)
    ensures |Outside(Recent(v.written, k), Previous(v.written, k))| == |NewPositions(v, k)|
  {
    var recent, previous := Recent(v.written, k), Previous(v.written, k);
    OutsideCounts(recent, previous);
    assert NewPositions(v, k) == set i | 0 <= i < |recent| && recent[i] !in previous;
  }

  /** The order in which states are preferred, in numbers: the score of the storage, then the number of new
      slots among the recent writes, then the score of the recent writes, then the shorter sequence, then the
      number of targets that are reached in one step. */
  lemma OrderInNumbers(v: View, d: Key, k: Key)
    requires d.functions != [] && k.functions != []
    ensures AtMostAs(v, d, k) <==>
      var stored := (x: Key) => Score(v.conditionReads, v.targets, if x in v.storage then v.storage[x] else []);
      var recent := (x: Key) => Score(v.conditionReads, v.targets, if x in v.written && |x.functions| in v.written[x] then v.written[x][|x.functions|] else []);
      var reached := (x: Key) => |set t | t in v.targets && x.functions != [] && (t == x.functions[|x.functions| - 1] || t in Children(v.augmented, x.functions[|x.functions| - 1]))|;
      || stored(d) < stored(k)
      || (stored(d) == stored(k) &&
         (|| |NewPositions(v, d)| < |NewPositions(v, k)|
          || (|NewPositions(v, d)| == |NewPositions(v, k)| &&
             (|| recent(d) < recent(k)
              || (recent(d) == recent(k) &&
                 (|| |d.functions| > |k.functions|
                  || (|d.functions| == |k.functions| && reached(d) <= reached(k))))))))
  {
    hide Value;
    NewAreCounted(v, d);
    NewAreCounted(v, k);
    ValuesAre(v, d);
    ValuesAre(v, k);
    OrderOfFive(v, d, k);
  }

  lemma ValuesAre(v: View, k: Key)
    requires k.functions != []
    ensures Value(v, 0, k) == Score(v.conditionReads, v.targets, if k in v.storage then v.storage[k] else [])
    ensures Value(v, 1, k) == |NewPositions(v, k)| as real
    ensures Value(v, 2, k) == Score(v.conditionReads, v.targets, if k in v.written && |k.functions| in v.written[k] then v.written[k][|k.functions|] else [])
    ensures Value(v, 3, k) == -(|k.functions| as real)
    ensures Value(v, 4, k) == |set t | t in v.targets && k.functions != [] && (t == k.functions[|k.functions| - 1] || t in Children(v.augmented, k.functions[|k.functions| - 1]))| as real
  {
    NewAreCounted(v, k);
  }

  /** The lexicographic order, value by value. */
  lemma OrderOfFive(v: View, d: Key, k: Key)
    ensures AtMostAs(v, d, k) <==>
      || Value(v, 0, d) < Value(v, 0, k)
      || (Value(v, 0, d) == Value(v, 0, k) &&
         (|| Value(v, 1, d) < Value(v, 1, k)
          || (Value(v, 1, d) == Value(v, 1, k) &&
             (|| Value(v, 2, d) < Value(v, 2, k)
              || (Value(v, 2, d) == Value(v, 2, k) &&
                 (|| Value(v, 3, d) < Value(v, 3, k)
                  || (Value(v, 3, d) == Value(v, 3, k) && Value(v, 4, d) <= Value(v, 4, k))))))))
  {
    hide Value;
    forall n | 0 <= n < 5 ensures Tied(v, n, d, k) && Value(v, n, d) < Value(v, n, k) ==> Below(v, 5, d, k) {
    }
  }

  // ---------- what a score is ----------

  lemma {:induction false} CommonCounts(needs: seq<Slot>, writes: seq<Slot>)
    ensures |Common(needs, writes)| == |set i | 0 <= i < |needs| && needs[i] in writes|
  {
    var positions := set i | 0 <= i < |needs| && needs[i] in writes;
    if needs != [] {
      var n := |needs| - 1;
      CommonCounts(needs[..n], writes);
      var before := set i | 0 <= i < |needs[..n]| && needs[..n][i] in writes;
      assert positions == before + if needs[n] in writes then {n} else {};
    } else {
      assert positions == {};
    }
  }

  /** One target scores the share of the slots it reads in conditions that are written. */
  lemma ScoreOfOne(conditionReads: map<Function, seq<Slot>>, target: Function, writes: seq<Slot>)
    ensures Score(conditionReads, [target], writes) ==
      if target in conditionReads && conditionReads[target] != [] then
        var needs := conditionReads[target];
        |set i | 0 <= i < |needs| && needs[i] in writes| as real / |needs| as real
      else 0.0
  {
    assert [target][..0] == [];
    CommonCounts(ReadsOf(conditionReads, target), writes);
  }

  /** A further target adds its own score, and a repeated one adds nothing. */
  lemma ScoreAdds(conditionReads: map<Function, seq<Slot>>, targets: seq<Function>, target: Function, writes: seq<Slot>)
    ensures Score(conditionReads, [], writes) == 0.0
    ensures Score(conditionReads, targets + [target], writes)
      == Score(conditionReads, targets, writes) + if target in targets then 0.0 else Score(conditionReads, [target], writes)
  {
    hide Share;
    assert (targets + [target])[..|targets|] == targets;
    assert [target][..0] == [];
  }

  lemma {:induction false} CommonGrows(needs: seq<Slot>, writes: seq<Slot>, more: seq<Slot>)
    requires forall s :: s in writes ==> s in more
    ensures |Common(needs, writes)| <= |Common(needs, more)| <= |needs|
  {
    if needs != [] {
      CommonGrows(needs[..|needs| - 1], writes, more);
    }
  }

  lemma ShareGrows(needs: seq<Slot>, writes: seq<Slot>, more: seq<Slot>)
    requires forall s :: s in writes ==> s in more
    ensures 0.0 <= Share(needs, writes) <= Share(needs, more) <= 1.0
  {
    CommonGrows(needs, writes, more);
    if needs != [] {
      Quotients(|Common(needs, writes)| as real, |Common(needs, more)| as real, |needs| as real);
    }
  }

  lemma Quotients(a: real, b: real, c: real)
    requires 0.0 <= a <= b <= c && 0.0 < c
    ensures 0.0 <= a / c <= b / c <= 1.0
  {
    var x, y := a / c, b / c;
    assert x * c == a && y * c == b;
    assert (y - x) * c >= 0.0 && (1.0 - y) * c >= 0.0 && x * c >= 0.0;
  }

  /** Writing more slots never lowers a state's score, which stays between zero and the number of targets. */
  lemma {:induction false} ScoreGrows(conditionReads: map<Function, seq<Slot>>, targets: seq<Function>, writes: seq<Slot>, more: seq<Slot>)
    requires forall s :: s in writes ==> s in more
    ensures 0.0 <= Score(conditionReads, targets, writes) <= Score(conditionReads, targets, more) <= |targets| as real
  {
    hide Share;
    if targets != [] {
      var n := |targets| - 1;
      ScoreGrows(conditionReads, targets[..n], writes, more);
      ShareGrows(ReadsOf(conditionReads, targets[n]), writes, more);
    }
  }

  // ---------- computing the values ----------

  method CommonElements(needs: seq<Slot>, writes: seq<Slot>) returns (r: seq<Slot>)
    ensures r == Common(needs, writes)
  {
    r := [];
    for i := 0 to |needs|
      invariant r == Common(needs[..i], writes)
    {
      assert needs[..i + 1][..i] == needs[..i];
      if needs[i] in writes {
        r := r + [needs[i]];
      }
    }
    assert needs[..|needs|] == needs;
  }

  method Evaluate(conditionReads: map<Function, seq<Slot>>, targets: seq<Function>, writes: seq<Slot>) returns (value: real)
    ensures value == Score(conditionReads, targets, writes)
  {
    value := 0.0;
    for i := 0 to |targets|
      invariant value == Score(conditionReads, targets[..i], writes)
    {
      assert targets[..i + 1][..i] == targets[..i];
      if targets[i] !in targets[..i] {
        var needs := ReadsOf(conditionReads, targets[i]);
        if |needs| > 0 {
          var common := CommonElements(needs, writes);
          value := value + |common| as real / |needs| as real;
        }
      }
    }
    assert targets[..|targets|] == targets;
  }

  method NewRecentWrites(written: map<Key, map<nat, seq<Slot>>>, k: Key) returns (r: seq<Slot>)
    ensures r == Outside(Recent(written, k), Previous(written, k))
  {
    var at := WrittenAt(written, k);
    var recent := Recent(written, k);
    var previous: set<Slot> := {};
    var depths := at.Keys;
    while depths != {}
      invariant depths <= at.Keys
      invariant previous == set d, s | d in at && d !in depths && d != |k.functions| && s in at[d] :: s
    {
      var depth :| depth in depths;
      if depth != |k.functions| {
        previous := previous + set s | s in at[depth];
      }
      depths := depths - {depth};
    }
    assert previous == Previous(written, k);
    r := [];
    for i := 0 to |recent|
      invariant r == Outside(recent[..i], previous)
    {
      assert recent[..i + 1][..i] == recent[..i];
      if recent[i] !in previous {
        r := r + [recent[i]];
      }
    }
    assert recent[..|recent|] == recent;
  }

  method ReachedCount(g: Graph, k: Key, targets: seq<Function>) returns (n: nat)
    requires k.functions != []
    ensures n == |Reached(g, k, targets)|
  {
    var reached := TargetsInOneStep(g, k.functions[|k.functions| - 1], targets);
    DistinctCount(reached);
    assert (set t | t in reached) == Reached(g, k, targets);
    n := |reached|;
  }

  lemma {:induction false} DistinctCount(s: seq<Function>)
    requires forall i, j :: 0 <= i < j < |s| ==> s[i] != s[j]
    ensures |set t | t in s| == |s|
  {
    if s != [] {
      var n := |s| - 1;
      DistinctCount(s[..n]);
      assert s == s[..n] + [s[n]];
      assert (set t | t in s) == (set t | t in s[..n]) + {s[n]};
    }
  }
}
