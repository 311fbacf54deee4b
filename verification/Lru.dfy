/** The cache of models: an ordered dictionary, least recently used first, and the inclusion of smaller in larger caches. */
module Lru {
  type Entry<K> = (K, int)

  const MISS := -1

  predicate Has<K(==)>(s: seq<Entry<K>>, key: K) {
    s != [] && (s[0].0 == key || Has(s[1..], key))
  }

  function ValueOf<K(==)>(s: seq<Entry<K>>, key: K): int
    requires Has(s, key)
  {
    if s[0].0 == key then s[0].1 else ValueOf(s[1..], key)
  }

  /** The dictionary without a key. */
  function Remove<K(==)>(s: seq<Entry<K>>, key: K): seq<Entry<K>> {
    if s == [] then [] else if s[0].0 == key then Remove(s[1..], key) else [s[0]] + Remove(s[1..], key)
  }

  ghost predicate DistinctKeys<K>(s: seq<Entry<K>>) {
    s != [] ==> !Has(s[1..], s[0].0) && DistinctKeys(s[1..])
  }

  // ---------- the two operations ----------

  datatype Op<K> = Get(key: K) | Put(key: K, value: int)

  function AfterGet<K(==)>(s: seq<Entry<K>>, key: K): seq<Entry<K>> {
    if Has(s, key) then Remove(s, key) + [(key, ValueOf(s, key))] else s
  }

  function AfterPut<K(==)>(s: seq<Entry<K>>, key: K, value: int, capacity: nat): seq<Entry<K>>
    requires capacity > 0
  {
    (if Has(s, key) then Remove(s, key) else if |s| >= capacity then s[1..] else s) + [(key, value)]
  }

  function Apply<K(==)>(s: seq<Entry<K>>, op: Op<K>, capacity: nat): seq<Entry<K>>
    requires capacity > 0
  {
    match op
    case Get(key) => AfterGet(s, key)
    case Put(key, value) => AfterPut(s, key, value, capacity)
  }

  /** The entries after a history of operations on an empty cache. */
  function Run<K(==)>(history: seq<Op<K>>, capacity: nat): seq<Entry<K>>
    requires capacity > 0
  {
    if history == [] then [] else Apply(Run(history[..|history| - 1], capacity), history[|history| - 1], capacity)
  }

  class LRUCache<K(==)> {
    const size: nat
    var entries: seq<Entry<K>>

    constructor (size: nat)
      ensures this.size == size && entries == []
    {
      this.size, entries := size, [];
    }

    /** A miss returns -1 and changes nothing. */
    method Get(key: K) returns (r: int)
      modifies this`entries
      ensures entries == AfterGet(old(entries), key)
      ensures r == if Has(old(entries), key) then ValueOf(old(entries), key) else -1
    {
      if !Has(entries, key) {
        return MISS;
      }
      r := ValueOf(entries, key);
      entries := Remove(entries, key);
      entries := entries + [(key, r)];
    }

    /** Fails only for a cache without room: there is no oldest entry to drop. */
    method Put(key: K, value: int) returns (ok: bool)
      requires size == 0 ==> entries == []
      modifies this`entries
      ensures ok <==> size > 0
      ensures ok ==> entries == AfterPut(old(entries), key, value, size)
      ensures !ok ==> entries == old(entries)
    {
      if Has(entries, key) {
        entries := Remove(entries, key);
      } else if |entries| >= size {
        if |entries| == 0 {
          return false;
        }
        entries := entries[1..];
      }
      entries := entries + [(key, value)];
      ok := true;
    }
  }

  // ---------- subsequences ----------

  ghost predicate Sub<K>(s: seq<Entry<K>>, l: seq<Entry<K>>) {
    s == [] || (l != [] && ((s[0] == l[0] && Sub(s[1..], l[1..])) || Sub(s, l[1..])))
  }

  lemma {:induction false} SubItself<K>(s: seq<Entry<K>>)
    ensures Sub(s, s)
  {
    if s != [] {
      SubItself(s[1..]);
    }
  }

  lemma {:induction false} SubDrop<K>(s: seq<Entry<K>>, l: seq<Entry<K>>)
    requires Sub(s, l) && s != []
    ensures l != [] && Sub(s[1..], l[1..])
    ensures Sub(s[1..], l)
  {
    if !(s[0] == l[0] && Sub(s[1..], l[1..])) {
      SubDrop(s, l[1..]);
    }
    SubOfMore(s[1..], l);
  }

  lemma SubOfMore<K>(s: seq<Entry<K>>, l: seq<Entry<K>>)
    requires l != [] && Sub(s, l[1..])
    ensures Sub(s, l)
  {
  }

  lemma {:induction false} SubAppend<K>(s: seq<Entry<K>>, l: seq<Entry<K>>, e: Entry<K>)
    requires Sub(s, l)
    ensures Sub(s + [e], l + [e]) && Sub(s, l + [e])
  {
    if l == [] {
      SubItself([e]);
      assert s + [e] == [e] && l + [e] == [e];
    } else {
      assert (l + [e])[1..] == l[1..] + [e];
      if s != [] && s[0] == l[0] && Sub(s[1..], l[1..]) {
        SubAppend(s[1..], l[1..], e);
        assert (s + [e])[1..] == s[1..] + [e];
      } else {
        SubAppend(s, l[1..], e);
      }
    }
  }

  lemma {:induction false} SubRemove<K>(s: seq<Entry<K>>, l: seq<Entry<K>>, key: K)
    requires Sub(s, l)
    ensures Sub(Remove(s, key), Remove(l, key))
  {
    if s != [] {
      if s[0] == l[0] && Sub(s[1..], l[1..]) {
        SubRemove(s[1..], l[1..], key);
        if s[0].0 != key {
          assert Remove(s, key)[1..] == Remove(s[1..], key) && Remove(l, key)[1..] == Remove(l[1..], key);
        }
      } else {
        SubRemove(s, l[1..], key);
        if l[0].0 != key {
          assert Remove(l, key)[1..] == Remove(l[1..], key);
          SubOfMore(Remove(s, key), Remove(l, key));
        }
      }
    }
  }

  lemma {:induction false} RemoveAbsent<K>(s: seq<Entry<K>>, key: K)
    requires !Has(s, key)
    ensures Remove(s, key) == s
  {
    if s != [] {
      RemoveAbsent(s[1..], key);
    }
  }

  /** What a subsequence holds, the whole holds, with the same value. */
  lemma {:induction false} SubShares<K>(s: seq<Entry<K>>, l: seq<Entry<K>>, key: K)
    requires Sub(s, l) && DistinctKeys(l) && Has(s, key)
    ensures Has(l, key) && ValueOf(l, key) == ValueOf(s, key)
  {
    if s[0] == l[0] && Sub(s[1..], l[1..]) {
      if s[0].0 != key {
        SubShares(s[1..], l[1..], key);
      }
    } else {
      SubShares(s, l[1..], key);
    }
  }

  // ---------- sizes and distinct keys ----------

  lemma {:induction false} RemoveCounts<K>(s: seq<Entry<K>>, key: K)
    requires DistinctKeys(s)
    ensures |Remove(s, key)| == if Has(s, key) then |s| - 1 else |s|
    ensures DistinctKeys(Remove(s, key)) && !Has(Remove(s, key), key)
    ensures forall k :: Has(Remove(s, key), k) ==> Has(s, k)
  {
    if s != [] {
      RemoveCounts(s[1..], key);
      if s[0].0 == key {
        RemoveAbsent(s[1..], key);
      } else {
        assert Remove(s, key)[1..] == Remove(s[1..], key);
      }
    }
  }

  lemma {:induction false} AppendDistinct<K>(s: seq<Entry<K>>, e: Entry<K>)
    requires DistinctKeys(s) && !Has(s, e.0)
    ensures DistinctKeys(s + [e])
    ensures forall k :: Has(s + [e], k) <==> Has(s, k) || k == e.0
  {
    if s == [] {
      assert s + [e] == [e] && [e][1..] == [];
    } else {
      assert (s + [e])[1..] == s[1..] + [e];
      AppendDistinct(s[1..], e);
    }
  }

  /** Keys stay distinct and no cache outgrows its capacity. */
  lemma {:induction false} ApplyFits<K>(s: seq<Entry<K>>, op: Op<K>, capacity: nat)
    requires capacity > 0 && DistinctKeys(s) && |s| <= capacity
    ensures DistinctKeys(Apply(s, op, capacity)) && |Apply(s, op, capacity)| <= capacity
  {
    RemoveCounts(s, op.key);
    match op {
      case Get(key) =>
        if Has(s, key) {
          AppendDistinct(Remove(s, key), (key, ValueOf(s, key)));
        }
      case Put(key, value) =>
        if Has(s, key) {
          AppendDistinct(Remove(s, key), (key, value));
        } else if |s| >= capacity {
          AppendDistinct(s[1..], (key, value));
        } else {
          AppendDistinct(s, (key, value));
        }
    }
  }

  // ---------- inclusion ----------

  /** The smaller cache is a subsequence of the larger, and equal to it until it is full. */
  ghost predicate Included<K>(s: seq<Entry<K>>, l: seq<Entry<K>>, n: nat, m: nat) {
    && Sub(s, l) && DistinctKeys(s) && DistinctKeys(l)
    && |s| <= n && |l| <= m && (|s| < n ==> s == l)
  }

  lemma GetKeepsInclusion<K>(s: seq<Entry<K>>, l: seq<Entry<K>>, n: nat, m: nat, key: K)
    requires 1 <= n <= m && Included(s, l, n, m)
    ensures Sub(AfterGet(s, key), AfterGet(l, key)) && (|AfterGet(s, key)| < n ==> AfterGet(s, key) == AfterGet(l, key))
  {
    SubRemove(s, l, key);
    RemoveCounts(s, key);
    if Has(s, key) {
      SubShares(s, l, key);
      SubAppend(Remove(s, key), Remove(l, key), (key, ValueOf(s, key)));
    } else {
      RemoveAbsent(s, key);
      if Has(l, key) {
        SubAppend(s, Remove(l, key), (key, ValueOf(l, key)));
      }
    }
  }

  lemma PutKeepsInclusion<K>(s: seq<Entry<K>>, l: seq<Entry<K>>, n: nat, m: nat, key: K, value: int)
    requires 1 <= n <= m && Included(s, l, n, m)
    ensures Sub(AfterPut(s, key, value, n), AfterPut(l, key, value, m))
    ensures |AfterPut(s, key, value, n)| < n ==> AfterPut(s, key, value, n) == AfterPut(l, key, value, m)
  {
    SubRemove(s, l, key);
    RemoveCounts(s, key);
    var e := (key, value);
    if Has(s, key) {
      SubShares(s, l, key);
      SubAppend(Remove(s, key), Remove(l, key), e);
    } else {
      RemoveAbsent(s, key);
      if Has(l, key) {
        SubDrop(s, Remove(l, key));
        SubAppend(s[1..], Remove(l, key), e);
      } else if |s| >= n {
        SubDrop(s, l);
        SubAppend(s[1..], if |l| >= m then l[1..] else l, e);
      } else {
        SubItself(AfterPut(s, key, value, n));
      }
    }
  }

  /** After every history a cache of capacity `n` holds a subsequence, in order of use, of a cache of capacity `m`. */
  lemma {:induction false} SmallerIsIncluded<K>(history: seq<Op<K>>, n: nat, m: nat)
    requires 1 <= n <= m
    ensures Included(Run(history, n), Run(history, m), n, m)
  {
    hide DistinctKeys, Sub;
    if history == [] {
      EmptyIncluded<K>(n, m);
    } else {
      var before, op := history[..|history| - 1], history[|history| - 1];
      SmallerIsIncluded(before, n, m);
      var s, l := Run(before, n), Run(before, m);
      ApplyFits(s, op, n);
      ApplyFits(l, op, m);
      match op {
        case Get(key) => GetKeepsInclusion(s, l, n, m, key);
        case Put(key, value) => PutKeepsInclusion(s, l, n, m, key, value);
      }
    }
  }

  lemma EmptyIncluded<K>(n: nat, m: nat)
    requires 1 <= n <= m
    ensures Included<K>([], [], n, m)
  {
  }

  /** What the smaller cache answers, the larger answers too, and nothing else. */
  lemma HitsAreShared<K>(history: seq<Op<K>>, n: nat, m: nat, key: K)
    requires 1 <= n <= m && Has(Run(history, n), key)
    ensures Has(Run(history, m), key) && ValueOf(Run(history, m), key) == ValueOf(Run(history, n), key)
  {
    SmallerIsIncluded(history, n, m);
    SubShares(Run(history, n), Run(history, m), key);
  }

  // ---------- what is kept: the most recently used keys ----------

  /** The keys used after the last use of `key`. */
  function UsedAfter<K(==)>(uses: seq<K>, key: K): set<K> {
    if uses == [] || uses[|uses| - 1] == key then {} else UsedAfter(uses[..|uses| - 1], key) + {uses[|uses| - 1]}
  }

  /** `key` was used, and fewer than `n` other keys since. */
  predicate IsRecent<K(==)>(uses: seq<K>, n: nat, key: K) {
    key in uses && |UsedAfter(uses, key)| < n
  }

  /** The uses of a history: every put, and every get of a key that is among the `n` most recently used. */
  function Uses<K(==)>(history: seq<Op<K>>, n: nat): seq<K> {
    if history == [] then []
    else
      var before, op := Uses(history[..|history| - 1], n), history[|history| - 1];
      if op.Put? || IsRecent(before, n, op.key) then before + [op.key] else before
  }

  /** The value that was put last under `key`. */
  function LastPut<K(==)>(history: seq<Op<K>>, key: K): int {
    if history == [] then MISS
    else
      var op := history[|history| - 1];
      if op.Put? && op.key == key then op.value else LastPut(history[..|history| - 1], key)
  }

  function KeysOf<K>(s: seq<Entry<K>>): set<K> {
    set i | 0 <= i < |s| :: s[i].0
  }

  /** The cache holds the recently used keys in the order of their last uses: behind each exactly those that
      were used after it. */
  ghost predicate HoldsRecent<K>(s: seq<Entry<K>>, uses: seq<K>, n: nat) {
    && |s| <= n
    && (forall i, j :: 0 <= i < j < |s| ==> s[i].0 != s[j].0)
    && (forall i :: 0 <= i < |s| ==> s[i].0 in uses && UsedAfter(uses, s[i].0) == KeysOf(s[i + 1..]))
    && (forall k :: k in uses && k !in KeysOf(s) ==> |s| == n && KeysOf(s) <= UsedAfter(uses, k))
  }

  lemma {:induction false} HasIsIn<K>(s: seq<Entry<K>>, key: K)
    ensures Has(s, key) <==> key in KeysOf(s)
  {
    if s != [] {
      HasIsIn(s[1..], key);
      assert s == [s[0]] + s[1..];
      if i :| 0 <= i < |s| && s[i].0 == key {
        assert i == 0 || s[1..][i - 1].0 == key;
      }
      if Has(s[1..], key) {
        var i :| 0 <= i < |s[1..]| && s[1..][i].0 == key;
        assert s[i + 1].0 == key;
      }
    }
  }

  lemma {:induction false} RemoveIsSlice<K>(s: seq<Entry<K>>, p: nat)
    requires p < |s| && forall i, j :: 0 <= i < j < |s| ==> s[i].0 != s[j].0
    ensures Remove(s, s[p].0) == s[..p] + s[p + 1..]
  {
    if p == 0 {
      HasIsIn(s[1..], s[0].0);
      RemoveAbsent(s[1..], s[0].0);
    } else {
      assert s[0].0 != s[p].0 && s[1..][p - 1] == s[p];
      RemoveIsSlice(s[1..], p - 1);
      assert s[1..][..p - 1] == s[1..p] && s[1..][p..] == s[p + 1..];
      assert s[..p] == [s[0]] + s[1..p];
    }
  }

  lemma {:induction false} ValueAt<K>(s: seq<Entry<K>>, p: nat)
    requires p < |s| && forall i, j :: 0 <= i < j < |s| ==> s[i].0 != s[j].0
    ensures Has(s, s[p].0) && ValueOf(s, s[p].0) == s[p].1
  {
    if p > 0 {
      assert s[1..][p - 1] == s[p];
      ValueAt(s[1..], p - 1);
    }
  }

  lemma {:induction false} KeysCount<K>(s: seq<Entry<K>>)
    requires forall i, j :: 0 <= i < j < |s| ==> s[i].0 != s[j].0
    ensures |KeysOf(s)| == |s|
  {
    if s != [] {
      var n := |s| - 1;
      KeysCount(s[..n]);
      assert KeysOf(s) == KeysOf(s[..n]) + {s[n].0};
    }
  }

  lemma KeysAppend<K>(s: seq<Entry<K>>, t: seq<Entry<K>>)
    ensures KeysOf(s + t) == KeysOf(s) + KeysOf(t)
  {
    assert forall i :: 0 <= i < |s| ==> (s + t)[i] == s[i];
    assert forall i :: 0 <= i < |t| ==> (s + t)[|s| + i] == t[i];
  }

  lemma UsedAfterMore<K>(uses: seq<K>, key: K, k: K)
    ensures UsedAfter(uses + [key], k) == if k == key then {} else UsedAfter(uses, k) + {key}
  {
    assert (uses + [key])[..|uses|] == uses;
  }

  /** A key that is used again moves behind all others. */
  lemma UsedAgain<K>(s: seq<Entry<K>>, uses: seq<K>, n: nat, p: nat, value: int)
    requires HoldsRecent(s, uses, n) && p < |s|
    ensures HoldsRecent(s[..p] + s[p + 1..] + [(s[p].0, value)], uses + [s[p].0], n)
  {
    hide UsedAfter;
    var key := s[p].0;
    var rest := s[..p] + s[p + 1..];
    var t := rest + [(key, value)];
    forall i | 0 <= i < |t| ensures t[i].0 in uses + [key] && UsedAfter(uses + [key], t[i].0) == KeysOf(t[i + 1..]) {
      UsedAfterMore(uses, key, t[i].0);
      if i < |rest| {
        var m := if i < p then i else i + 1;
        assert t[i] == s[m];
        Behind(s, p, i, value);
      } else {
        assert t[i + 1..] == [];
      }
    }
    assert KeysOf(t) == KeysOf(s) by { SameKeys(s, p, value); }
    forall k | k in uses + [key] && k !in KeysOf(t) ensures |t| == n && KeysOf(t) <= UsedAfter(uses + [key], k) {
      UsedAfterMore(uses, key, k);
      assert key in KeysOf(s);
    }
  }

  lemma SameKeys<K>(s: seq<Entry<K>>, p: nat, value: int)
    requires p < |s|
    ensures KeysOf(s[..p] + s[p + 1..] + [(s[p].0, value)]) == KeysOf(s)
  {
    KeysAppend(s[..p] + s[p + 1..], [(s[p].0, value)]);
    KeysAppend(s[..p], s[p + 1..]);
    assert s == s[..p] + ([s[p]] + s[p + 1..]);
    KeysAppend(s[..p], [s[p]] + s[p + 1..]);
    KeysAppend([s[p]], s[p + 1..]);
    OneKey(s[p]);
    OneKey((s[p].0, value));
  }

  lemma OneKey<K>(e: Entry<K>)
    ensures KeysOf([e]) == {e.0}
  {
    assert [e][0] == e;
  }

  /** What lies behind a key that is not moved: the same keys, and the moved one. */
  lemma Behind<K>(s: seq<Entry<K>>, p: nat, i: nat, value: int)
    requires p < |s| && i < |s| - 1
    ensures var t := s[..p] + s[p + 1..] + [(s[p].0, value)];
      KeysOf(t[i + 1..]) == KeysOf(s[(if i < p then i else i + 1) + 1..]) + {s[p].0}
  {
    var t := s[..p] + s[p + 1..] + [(s[p].0, value)];
    OneKey(s[p]);
    OneKey((s[p].0, value));
    if i < p {
      assert t[i + 1..] == s[i + 1..p] + (s[p + 1..] + [(s[p].0, value)]);
      assert s[i + 1..] == s[i + 1..p] + ([s[p]] + s[p + 1..]);
      KeysAppend(s[i + 1..p], s[p + 1..] + [(s[p].0, value)]);
      KeysAppend(s[p + 1..], [(s[p].0, value)]);
      KeysAppend(s[i + 1..p], [s[p]] + s[p + 1..]);
      KeysAppend([s[p]], s[p + 1..]);
    } else {
      assert t[i + 1..] == s[i + 2..] + [(s[p].0, value)];
      KeysAppend(s[i + 2..], [(s[p].0, value)]);
    }
  }

  /** A new key goes behind all others; without room the one that was used longest ago is dropped. */
  lemma UsedFirst<K>(s: seq<Entry<K>>, uses: seq<K>, n: nat, key: K, value: int)
    requires HoldsRecent(s, uses, n) && key !in KeysOf(s) && n > 0
    ensures HoldsRecent((if |s| >= n then s[1..] else s) + [(key, value)], uses + [key], n)
  {
    hide UsedAfter;
    var drop := if |s| >= n then 1 else 0;
    var rest := s[drop..];
    var t := rest + [(key, value)];
    OneKey((key, value));
    KeysAppend(rest, [(key, value)]);
    forall i | 0 <= i < |t| ensures t[i].0 in uses + [key] && UsedAfter(uses + [key], t[i].0) == KeysOf(t[i + 1..]) {
      UsedAfterMore(uses, key, t[i].0);
      if i < |rest| {
        assert t[i] == s[drop + i] && t[i].0 != key;
        assert t[i + 1..] == s[drop + i + 1..] + [(key, value)];
        KeysAppend(s[drop + i + 1..], [(key, value)]);
      } else {
        assert t[i + 1..] == [];
      }
    }
    forall k | k in uses + [key] && k !in KeysOf(t) ensures |t| == n && KeysOf(t) <= UsedAfter(uses + [key], k) {
      UsedAfterMore(uses, key, k);
      if k in KeysOf(s) {
        assert s == s[..drop] + rest;
        assert drop == 1 && k == s[0].0;
      } else {
        assert forall x :: x in KeysOf(rest) ==> x in KeysOf(s);
      }
    }
  }

  lemma Held<K>(s: seq<Entry<K>>, uses: seq<K>, n: nat, key: K)
    requires HoldsRecent(s, uses, n)
    ensures Has(s, key) <==> IsRecent(uses, n, key)
  {
    HasIsIn(s, key);
    KeysCount(s);
    if key in KeysOf(s) {
      var i :| 0 <= i < |s| && s[i].0 == key;
      KeysCount(s[i + 1..]);
    } else if key in uses {
      Fewer(KeysOf(s), UsedAfter(uses, key));
    }
  }

  lemma Fewer<K>(a: set<K>, b: set<K>)
    requires a <= b
    ensures |a| <= |b|
  {
    assert |b| == |b - a| + |a|;
  }

  ghost predicate HoldsLast<K>(s: seq<Entry<K>>, history: seq<Op<K>>) {
    forall i :: 0 <= i < |s| ==> s[i].1 == LastPut(history, s[i].0)
  }

  /** An operation on a key that is held. */
  lemma HitHolds<K>(s: seq<Entry<K>>, uses: seq<K>, op: Op<K>, n: nat, p: nat)
    requires HoldsRecent(s, uses, n) && n > 0 && p < |s| && s[p].0 == op.key
    ensures Apply(s, op, n) == s[..p] + s[p + 1..] + [(s[p].0, if op.Put? then op.value else s[p].1)]
    ensures HoldsRecent(Apply(s, op, n), uses + [op.key], n)
  {
    hide HoldsRecent, Remove;
    DistinctHeld(s, uses, n);
    HasIsIn(s, op.key);
    RemoveIsSlice(s, p);
    ValueAt(s, p);
    UsedAgain(s, uses, n, p, if op.Put? then op.value else s[p].1);
  }

  lemma StepHolds<K>(s: seq<Entry<K>>, uses: seq<K>, op: Op<K>, n: nat)
    requires HoldsRecent(s, uses, n) && n > 0
    ensures HoldsRecent(Apply(s, op, n), if op.Put? || IsRecent(uses, n, op.key) then uses + [op.key] else uses, n)
  {
    hide HoldsRecent, UsedAfter, Remove;
    Held(s, uses, n, op.key);
    HasIsIn(s, op.key);
    if Has(s, op.key) {
      var p :| 0 <= p < |s| && s[p].0 == op.key;
      HitHolds(s, uses, op, n, p);
    } else if op.Put? {
      UsedFirst(s, uses, n, op.key, op.value);
    }
  }

  lemma LastPutMore<K>(history: seq<Op<K>>, op: Op<K>, k: K)
    ensures LastPut(history + [op], k) == if op.Put? && op.key == k then op.value else LastPut(history, k)
  {
    assert (history + [op])[..|history|] == history;
  }

  lemma StepKeepsValues<K>(s: seq<Entry<K>>, uses: seq<K>, history: seq<Op<K>>, op: Op<K>, n: nat)
    requires HoldsRecent(s, uses, n) && HoldsLast(s, history) && n > 0
    ensures HoldsLast(Apply(s, op, n), history + [op])
  {
    hide HoldsRecent, LastPut, Remove, Apply, KeysOf;
    HasIsIn(s, op.key);
    DistinctHeld(s, uses, n);
    if Has(s, op.key) {
      var p := Position(s, op.key);
      HitHolds(s, uses, op, n, p);
    } else {
      MissHolds(s, op, n);
    }
    var t := Apply(s, op, n);
    forall i | 0 <= i < |t| ensures t[i].1 == LastPut(history + [op], t[i].0) {
      LastPutMore(history, op, t[i].0);
    }
  }

  lemma Position<K>(s: seq<Entry<K>>, key: K) returns (p: nat)
    requires key in KeysOf(s)
    ensures p < |s| && s[p].0 == key
  {
    p :| 0 <= p < |s| && s[p].0 == key;
  }

  /** An operation on a key that is not held. */
  lemma MissHolds<K>(s: seq<Entry<K>>, op: Op<K>, n: nat)
    requires !Has(s, op.key) && n > 0
    ensures op.key !in KeysOf(s) && forall i :: 0 <= i < |s| ==> s[i].0 != op.key
    ensures Apply(s, op, n) == if op.Put? then (if |s| >= n then s[1..] else s) + [(op.key, op.value)] else s
  {
    HasIsIn(s, op.key);
  }

  lemma {:induction false} RunHolds<K>(history: seq<Op<K>>, n: nat)
    requires n > 0
    ensures HoldsRecent(Run(history, n), Uses(history, n), n) && HoldsLast(Run(history, n), history)
  {
    hide HoldsRecent, HoldsLast, Apply, IsRecent;
    if history == [] {
      NothingHeld<K>(n);
    } else {
      var before, op := history[..|history| - 1], history[|history| - 1];
      RunHolds(before, n);
      StepHolds(Run(before, n), Uses(before, n), op, n);
      StepKeepsValues(Run(before, n), Uses(before, n), before, op, n);
      assert history == before + [op];
    }
  }

  lemma NothingHeld<K>(n: nat)
    ensures HoldsRecent<K>([], [], n) && HoldsLast<K>([], [])
  {
  }

  lemma DistinctHeld<K>(s: seq<Entry<K>>, uses: seq<K>, n: nat)
    requires HoldsRecent(s, uses, n)
    ensures forall i, j :: 0 <= i < j < |s| ==> s[i].0 != s[j].0
  {
  }

  /** After every history the cache of capacity `n` holds exactly the `n` most recently used keys, a hit
      counting as a use and a miss not, each with the value that was put last. */
  lemma CacheIsRecent<K>(history: seq<Op<K>>, n: nat, key: K)
    requires n > 0
    ensures Has(Run(history, n), key) <==> IsRecent(Uses(history, n), n, key)
    ensures Has(Run(history, n), key) ==> ValueOf(Run(history, n), key) == LastPut(history, key)
  {
    hide HoldsRecent;
    var s := Run(history, n);
    RunHolds(history, n);
    Held(s, Uses(history, n), n, key);
    HasIsIn(s, key);
    DistinctHeld(s, Uses(history, n), n);
    if Has(s, key) {
      var p :| 0 <= p < |s| && s[p].0 == key;
      ValueAt(s, p);
    }
  }

  /** A get right after a put gives the value. */
  lemma PutThenGet<K>(history: seq<Op<K>>, n: nat, key: K, value: int)
    requires n > 0
    ensures var s := Run(history + [Put(key, value)], n); Has(s, key) && ValueOf(s, key) == value
  {
    var all := history + [Put(key, value)];
    assert all[..|history|] == history;
    CacheIsRecent(all, n, key);
    UsedAfterMore(Uses(history, n), key, key);
  }
}
