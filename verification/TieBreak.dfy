/** Picking up the state with the lexicographically largest values, through separately sorted lists. */
module TieBreak {
  import opened Filtering
  import opened Selection

  // ---------- sorting pairs by their second part ----------

  function Second<T>(): ((T, real)) -> real {
    (p: (T, real)) => p.1
  }

  function Scored<T>(s: seq<T>, value: T -> real): seq<(T, real)> {
    if s == [] then [] else [(s[0], value(s[0]))] + Scored(s[1..], value)
  }

  lemma {:induction false} ScoredAt<T>(s: seq<T>, value: T -> real)
    ensures |Scored(s, value)| == |s| && forall i :: 0 <= i < |s| ==> Scored(s, value)[i] == (s[i], value(s[i]))
  {
    if s != [] {
      ScoredAt(s[1..], value);
    }
  }

  lemma {:induction false} InsertScored<T>(x: T, s: seq<T>, value: T -> real)
    ensures Insert((x, value(x)), Scored(s, value), Second<T>()) == Scored(Insert(x, s, value), value)
  {
    if s != [] && value(x) < value(s[0]) {
      InsertScored(x, s[1..], value);
    }
  }

  /** Sorting pairs of a value and its score is sorting the values by their scores. */
  lemma {:induction false} SortScored<T>(s: seq<T>, value: T -> real)
    ensures SortDown(Scored(s, value), Second<T>()) == Scored(SortDown(s, value), value)
  {
    if s != [] {
      SortScored(s[1..], value);
      InsertScored(s[0], SortDown(s[1..], value), value);
      assert Scored(s, value)[1..] == Scored(s[1..], value);
    }
  }

  method SortPairs<T>(s: seq<T>, scored: seq<(T, real)>, ghost value: T -> real) returns (sorted: seq<(T, real)>)
    requires |scored| == |s| && forall i :: 0 <= i < |s| ==> scored[i] == (s[i], value(s[i]))
    ensures sorted == Scored(SortDown(s, value), value)
  {
    ScoredAt(s, value);
    assert scored == Scored(s, value);
    SortScored(s, value);
    sorted := SortDown(scored, Second<T>());
  }

  // ---------- one stage ----------

  function By(v: View, i: nat): Candidate -> real
    requires i < 5
  {
    (c: Candidate) => Value(v, i, c.1)
  }

  /** Sorts the candidates and keeps those that tie with the first. */
  method KeepHighest(cands: seq<Candidate>, scored: seq<(Candidate, real)>, ghost v: View, ghost i: nat) returns (best: seq<Candidate>)
    requires i < 5 && cands != []
    requires |scored| == |cands| && forall j :: 0 <= j < |cands| ==> scored[j] == (cands[j], By(v, i)(cands[j]))
    ensures Best(v, i, cands, best)
  {
    hide Value, SortDown;
    ghost var order := SortDown(cands, By(v, i));
    var sorted := SortPairs(cands, scored, By(v, i));
    ScoredAt(order, By(v, i));
    SortDownSorts(cands, By(v, i));
    best := [];
    for j := 0 to |sorted|
      invariant forall c :: c in best <==> c in order[..j] && Value(v, i, c.1) == Value(v, i, order[0].1)
      invariant j > 0 ==> best != []
    {
      assert order[..j + 1] == order[..j] + [order[j]];
      if sorted[j].1 == sorted[0].1 {
        best := best + [sorted[j].0];
      }
    }
    assert order[..|order|] == order;
    SortedTop(v, i, cands, order);
  }

  /** In a sorted list the values equal to the first are the largest. */
  lemma SortedTop(v: View, i: nat, cands: seq<Candidate>, order: seq<Candidate>)
    requires i < 5 && order != [] && Descending(order, By(v, i)) && multiset(order) == multiset(cands)
    ensures forall c :: c in order && Value(v, i, c.1) == Value(v, i, order[0].1) <==> c in cands && Top(v, i, cands, c)
  {
    hide Value;
    assert forall c :: c in order <==> c in cands by {
      assert forall c :: c in order <==> c in multiset(order);
      assert forall c :: c in cands <==> c in multiset(cands);
    }
    forall c | c in cands ensures Value(v, i, c.1) <= Value(v, i, order[0].1) {
      var j :| 0 <= j < |order| && order[j] == c;
      assert j == 0 || By(v, i)(order[0]) >= By(v, i)(order[j]);
    }
  }

  // ---------- the four stages of the tie break ----------

  method BreakByNewRecentWrites(v: View, cands: seq<Candidate>) returns (best: seq<Candidate>)
    requires cands != []
    ensures Best(v, 1, cands, best)
  {
    hide Best;
    var scored: seq<(Candidate, real)> := [];
    for j := 0 to |cands|
      invariant |scored| == j && forall k :: 0 <= k < j ==> scored[k] == (cands[k], By(v, 1)(cands[k]))
    {
      var slots := NewRecentWrites(v.written, cands[j].1);
      scored := scored + [(cands[j], |slots| as real)];
    }
    best := KeepHighest(cands, scored, v, 1);
  }

  method BreakByRecentWrites(v: View, cands: seq<Candidate>) returns (best: seq<Candidate>)
    requires cands != []
    ensures Best(v, 2, cands, best)
  {
    hide Best;
    var scored: seq<(Candidate, real)> := [];
    for j := 0 to |cands|
      invariant |scored| == j && forall k :: 0 <= k < j ==> scored[k] == (cands[k], By(v, 2)(cands[k]))
    {
      var value := Evaluate(v.conditionReads, v.targets, Recent(v.written, cands[j].1));
      scored := scored + [(cands[j], value)];
    }
    best := KeepHighest(cands, scored, v, 2);
  }

  /** Shortest sequences first. */
  method BreakByDepth(v: View, cands: seq<Candidate>) returns (best: seq<Candidate>)
    requires cands != []
    ensures Best(v, 3, cands, best)
  {
    hide Best;
    var scored: seq<(Candidate, real)> := [];
    for j := 0 to |cands|
      invariant |scored| == j && forall k :: 0 <= k < j ==> scored[k] == (cands[k], By(v, 3)(cands[k]))
    {
      scored := scored + [(cands[j], -(|cands[j].1.functions| as real))];
    }
    best := KeepHighest(cands, scored, v, 3);
  }

  /** When no candidate reaches a target in one step, all stay. */
  method BreakByReached(v: View, cands: seq<Candidate>) returns (best: seq<Candidate>)
    requires cands != [] && forall c :: c in cands ==> c.1.functions != []
    ensures Best(v, 4, cands, best)
  {
    hide Best;
    var scored: seq<(Candidate, real)> := [];
    var most := 0;
    for j := 0 to |cands|
      invariant |scored| == j && forall k :: 0 <= k < j ==> scored[k] == (cands[k], By(v, 4)(cands[k]))
      invariant most >= 0 && forall k :: 0 <= k < j ==> 0.0 <= scored[k].1 <= most as real
    {
      var n := ReachedCount(v.augmented, cands[j].1, v.targets);
      scored := scored + [(cands[j], n as real)];
      most := if n > most then n else most;
    }
    if most == 0 {
      NoneReached(v, cands, scored);
      return cands;
    }
    best := KeepHighest(cands, scored, v, 4);
  }

  lemma NoneReached(v: View, cands: seq<Candidate>, scored: seq<(Candidate, real)>)
    requires cands != [] && |scored| == |cands| && forall k :: 0 <= k < |cands| ==> scored[k] == (cands[k], By(v, 4)(cands[k]))
    requires forall k :: 0 <= k < |cands| ==> scored[k].1 == 0.0
    ensures Best(v, 4, cands, cands)
  {
    hide Value;
    forall c | c in cands ensures Value(v, 4, c.1) == 0.0 {
      var k :| 0 <= k < |cands| && cands[k] == c;
      assert scored[k].1 == 0.0;
    }
  }

  /** The position of a candidate that no other candidate beats. The last choice is random. */
  method BreakATie(v: View, ghost all: seq<Candidate>, cands: seq<Candidate>, random: nat) returns (win: Candidate)
    requires Leading(v, 1, all, cands) && forall c :: c in all ==> c.1.functions != []
    ensures win in all && forall d :: d in all ==> AtMostAs(v, d.1, win.1)
  {
    hide Best, Leading, AtMostAs;
    LeadersExist(v, 1, all, cands);
    var newest := BreakByNewRecentWrites(v, cands);
    BestLeads(v, 1, all, cands, newest);
    LeadersExist(v, 2, all, newest);
    if |newest| == 1 {
      Maximum(v, 2, all, newest, newest[0]);
      return newest[0];
    }
    var recent := BreakByRecentWrites(v, newest);
    BestLeads(v, 2, all, newest, recent);
    LeadersExist(v, 3, all, recent);
    if |recent| == 1 {
      Maximum(v, 3, all, recent, recent[0]);
      return recent[0];
    }
    var shortest := BreakByDepth(v, recent);
    BestLeads(v, 3, all, recent, shortest);
    LeadersExist(v, 4, all, shortest);
    if |shortest| == 1 {
      Maximum(v, 4, all, shortest, shortest[0]);
      return shortest[0];
    }
    var reaching := BreakByReached(v, shortest);
    BestLeads(v, 4, all, shortest, reaching);
    LeadersExist(v, 5, all, reaching);
    win := reaching[random % |reaching|];
    Maximum(v, 5, all, reaching, win);
  }

  lemma LeadersExist(v: View, n: nat, all: seq<Candidate>, cands: seq<Candidate>)
    requires n <= 5 && Leading(v, n, all, cands)
    ensures cands != [] && forall c :: c in cands ==> c in all
  {
  }

  lemma Maximum(v: View, n: nat, all: seq<Candidate>, cands: seq<Candidate>, win: Candidate)
    requires n <= 5 && Leading(v, n, all, cands) && win in cands && (n == 5 || |cands| == 1)
    ensures forall d :: d in all ==> AtMostAs(v, d.1, win.1)
  {
    forall d | d in all ensures AtMostAs(v, d.1, win.1) {
      LeaderIsMaximum(v, n, all, cands, win, d);
    }
  }
}
