/** Python's stable sort, and the thinning of the queue of states. */
module Filtering {
  import opened Merge
  import opened FunctionAssignment

  type Slot = string

  // ---------- stable sorting, largest first ----------

  function Insert<T>(x: T, s: seq<T>, value: T -> real): seq<T> {
    if s == [] || value(x) >= value(s[0]) then [x] + s else [s[0]] + Insert(x, s[1..], value)
  }

  function SortDown<T>(s: seq<T>, value: T -> real): seq<T> {
    if s == [] then [] else Insert(s[0], SortDown(s[1..], value), value)
  }

  ghost predicate Descending<T>(s: seq<T>, value: T -> real) {
    forall i, j :: 0 <= i < j < |s| ==> value(s[i]) >= value(s[j])
  }

  ghost predicate AtMost<T>(s: seq<T>, value: T -> real, bound: real) {
    forall i :: 0 <= i < |s| ==> value(s[i]) <= bound
  }

  lemma DescendingCons<T>(x: T, s: seq<T>, value: T -> real)
    ensures Descending([x] + s, value) <==> AtMost(s, value, value(x)) && Descending(s, value)
  {
    var t := [x] + s;
    if Descending(t, value) {
      forall i | 0 <= i < |s| ensures value(s[i]) <= value(x) {
        assert t[i + 1] == s[i] && t[0] == x;
      }
      forall i, j | 0 <= i < j < |s| ensures value(s[i]) >= value(s[j]) {
        assert t[i + 1] == s[i] && t[j + 1] == s[j];
      }
    }
  }

  lemma {:induction false} InsertAtMost<T>(x: T, s: seq<T>, value: T -> real, bound: real)
    requires AtMost(s, value, bound) && value(x) <= bound
    ensures AtMost(Insert(x, s, value), value, bound)
  {
    if s != [] && value(x) < value(s[0]) {
      InsertAtMost(x, s[1..], value, bound);
    }
  }

  lemma {:induction false} InsertSorts<T>(x: T, s: seq<T>, value: T -> real)
    requires Descending(s, value)
    ensures Descending(Insert(x, s, value), value)
  {
    hide Descending, AtMost;
    if s == [] {
      DescendingCons(x, [], value);
      NothingIsSorted(value, value(x));
    } else {
      assert s == [s[0]] + s[1..];
      DescendingCons(s[0], s[1..], value);
      if value(x) >= value(s[0]) {
        Relax(s, value, value(x));
        DescendingCons(x, s, value);
      } else {
        InsertSorts(x, s[1..], value);
        InsertAtMost(x, s[1..], value, value(s[0]));
        DescendingCons(s[0], Insert(x, s[1..], value), value);
      }
    }
  }

  lemma NothingIsSorted<T>(value: T -> real, bound: real)
    ensures Descending([], value) && AtMost([], value, bound)
  {
  }

  lemma Relax<T>(s: seq<T>, value: T -> real, bound: real)
    requires s != [] && Descending(s, value) && value(s[0]) <= bound
    ensures AtMost(s, value, bound)
  {
    forall i | 0 <= i < |s| ensures value(s[i]) <= bound {
      assert i == 0 || value(s[0]) >= value(s[i]);
    }
  }

  lemma {:induction false} InsertKeeps<T>(x: T, s: seq<T>, value: T -> real)
    ensures multiset(Insert(x, s, value)) == multiset(s) + multiset{x}
  {
    if s != [] {
      assert s == [s[0]] + s[1..];
      if value(x) < value(s[0]) {
        InsertKeeps(x, s[1..], value);
      }
    }
  }

  lemma {:induction false} SortDownSorts<T>(s: seq<T>, value: T -> real)
    ensures Descending(SortDown(s, value), value) && multiset(SortDown(s, value)) == multiset(s)
    ensures |SortDown(s, value)| == |s|
  {
    if s != [] {
      assert s == [s[0]] + s[1..];
      SortDownSorts(s[1..], value);
      InsertSorts(s[0], SortDown(s[1..], value), value);
      InsertKeeps(s[0], SortDown(s[1..], value), value);
      assert |multiset(SortDown(s, value))| == |multiset(s)|;
    }
  }

  /** Sorting a sorted list changes nothing. */
  lemma {:induction false} SortDownOfSorted<T>(s: seq<T>, value: T -> real)
    requires Descending(s, value)
    ensures SortDown(s, value) == s
  {
    if s != [] {
      SortDownOfSorted(s[1..], value);
      if |s| > 1 {
        assert value(s[0]) >= value(s[1]);
      }
    }
  }

  // ---------- thinning the queue ----------

  function Prefix(k: Key): seq<Function> {
    k.functions
  }

  predicate EndsWith(s: string, t: string) {
    |s| >= |t| && s[|s| - |t|..] == t
  }

  /** Sequences of two or more functions that begin and end with the fallback, or end with two fallbacks.
      The code compares the joined names, so a name that only starts with the word counts as well. */
  predicate Excluded(functions: seq<Function>) {
    && |functions| >= 2
    && (|| ("fallback" <= functions[0] && EndsWith(functions[|functions| - 1], "fallback"))
        || (functions[|functions| - 1] == "fallback" && EndsWith(functions[|functions| - 2], "fallback")))
  }

  /** The functions of a sequence joined with `#`, as the source writes the prefix of a key. */
  function Joined(functions: seq<Function>): string
    requires functions != []
  {
    if |functions| == 1 then functions[0] else Joined(functions[..|functions| - 1]) + "#" + functions[|functions| - 1]
  }

  lemma EndOfJoin(a: string, b: string, t: string)
    requires '#' !in t && '#' !in b
    ensures EndsWith(a + "#" + b, t) <==> EndsWith(b, t)
  {
    var s := a + "#" + b;
    assert s[|a|] == '#';
    if |b| >= |t| {
      assert s[|s| - |t|..] == b[|b| - |t|..];
    } else if |s| >= |t| {
      assert s[|s| - |t|..][|a| - (|s| - |t|)] == '#';
    }
  }

  /** A join ends with two names joined exactly if its last name is the second and the rest ends with the first. */
  lemma EndOfJoins(a: string, b: string, t: string, u: string)
    requires '#' !in b && '#' !in u && '#' !in t
    ensures EndsWith(a + "#" + b, t + "#" + u) <==> b == u && EndsWith(a, t)
  {
    var s, e := a + "#" + b, t + "#" + u;
    assert s[|a|] == '#' && e[|t|] == '#';
    if EndsWith(s, e) {
      var from := |s| - |e|;
      assert s[from..] == e;
      assert s[from + |t|] == '#' && (|a| >= from ==> e[|a| - from] == '#');
      assert forall i :: 0 <= i < |b| ==> s[|a| + 1 + i] == b[i];
      assert forall i :: 0 <= i < |u| ==> e[|t| + 1 + i] == u[i];
      assert from + |t| == |a|;
      assert b == s[|a| + 1..] && u == e[|t| + 1..];
      assert s[|a| + 1..] == s[from..][|t| + 1..];
      assert a[|a| - |t|..] == s[from..][..|t|];
    }
    if b == u && EndsWith(a, t) {
      assert s[|s| - |e|..] == a[|a| - |t|..] + "#" + b;
    }
  }

  lemma {:induction false} StartOfJoin(functions: seq<Function>, t: string)
    requires functions != [] && '#' !in t
    ensures t <= Joined(functions) <==> t <= functions[0]
  {
    var n := |functions| - 1;
    if n > 0 {
      StartOfJoin(functions[..n], t);
      var front := Joined(functions[..n]);
      var s := front + "#" + functions[n];
      assert s[|front|] == '#' && s[..|front|] == front;
      if t <= s {
        assert forall i :: 0 <= i < |t| ==> t[i] == s[i];
      }
    }
  }

  lemma NamesOfJoin(functions: seq<Function>, t: string)
    requires |functions| >= 2 && '#' !in t && forall f :: f in functions ==> '#' !in f
    ensures var n, s := |functions| - 1, Joined(functions);
      && (t <= s <==> t <= functions[0])
      && (EndsWith(s, t) <==> EndsWith(functions[n], t))
      && (EndsWith(s, t + "#" + t) <==> functions[n] == t && EndsWith(functions[n - 1], t))
  {
    hide EndsWith;
    var n := |functions| - 1;
    var front := Joined(functions[..n]);
    StartOfJoin(functions, t);
    EndOfJoin(front, functions[n], t);
    EndOfJoins(front, functions[n], t, t);
    if n > 1 {
      assert functions[..n][..n - 1] == functions[..n - 1] && functions[..n][n - 1] == functions[n - 1];
      EndOfJoin(Joined(functions[..n - 1]), functions[n - 1], t);
    }
  }

  /** In terms of the joined names: excluded are sequences of two or more whose text begins and ends with
      "fallback", or ends with "fallback#fallback". */
  lemma ExcludedByName(functions: seq<Function>)
    requires functions != [] && forall f :: f in functions ==> '#' !in f
    ensures var s := Joined(functions);
      Excluded(functions) <==>
        |functions| >= 2 && (("fallback" <= s && EndsWith(s, "fallback")) || EndsWith(s, "fallback#fallback"))
  {
    hide EndsWith, Joined;
    if |functions| >= 2 {
      assert "fallback" + "#" + "fallback" == "fallback#fallback";
      NamesOfJoin(functions, "fallback");
    }
  }

  /** States with the same executed functions, in queue order. */
  datatype Bucket = Bucket(prefix: seq<Function>, keys: seq<Key>)

  function AddKey(buckets: seq<Bucket>, k: Key): seq<Bucket> {
    if buckets == [] then [Bucket(Prefix(k), [k])]
    else if buckets[0].prefix == Prefix(k) then [buckets[0].(keys := buckets[0].keys + [k])] + buckets[1..]
    else [buckets[0]] + AddKey(buckets[1..], k)
  }

  function Buckets(queue: seq<Key>): seq<Bucket> {
    if queue == [] then []
    else
      var before := Buckets(queue[..|queue| - 1]);
      if Excluded(Prefix(queue[|queue| - 1])) then before else AddKey(before, queue[|queue| - 1])
  }

  /** The slots that the last function of each state wrote. */
  type Writes = Key -> seq<Slot>

  predicate SameSlots(a: seq<Slot>, b: seq<Slot>) {
    (forall e :: e in a ==> e in b) && (forall e :: e in b ==> e in a)
  }

  /** Keeps the first `free` keys, and after them every key whose writes differ from the last kept one. */
  function Thin(keys: seq<Key>, writes: Writes, free: nat, last: seq<Slot>): seq<Key> {
    if keys == [] then []
    else if free > 0 then [keys[0]] + Thin(keys[1..], writes, free - 1, writes(keys[0]))
    else if SameSlots(last, writes(keys[0])) then Thin(keys[1..], writes, 0, last)
    else [keys[0]] + Thin(keys[1..], writes, 0, writes(keys[0]))
  }

  /** How many slots the last function wrote. */
  function Size(writes: Writes): Key -> real {
    (k: Key) => |writes(k)| as real
  }

  function Keep(keys: seq<Key>, writes: Writes): seq<Key> {
    Thin(SortDown(keys, Size(writes)), writes, 3, [])
  }

  function KeepAll(buckets: seq<Bucket>, writes: Writes): seq<Key> {
    if buckets == [] then [] else KeepAll(buckets[..|buckets| - 1], writes) + Keep(buckets[|buckets| - 1].keys, writes)
  }

  /** The queue after filtering. */
  function Filtered(queue: seq<Key>, writes: Writes): seq<Key> {
    KeepAll(Buckets(queue), writes)
  }

  // ---------- thinning one bucket ----------

  /** Every key's set of writes survives. */
  ghost predicate Represented(k: Key, kept: seq<Key>, writes: Writes) {
    exists r :: r in kept && SameSlots(writes(r), writes(k))
  }

  lemma {:induction false} ThinIsSub(keys: seq<Key>, writes: Writes, free: nat, last: seq<Slot>)
    ensures multiset(Thin(keys, writes, free, last)) <= multiset(keys)
    ensures |keys| <= free ==> Thin(keys, writes, free, last) == keys
  {
    if keys != [] {
      assert keys == [keys[0]] + keys[1..];
      ThinIsSub(keys[1..], writes, if free > 0 then free - 1 else 0, if free > 0 || !SameSlots(last, writes(keys[0])) then writes(keys[0]) else last);
    }
  }

  lemma {:induction false} ThinRepresents(keys: seq<Key>, writes: Writes, free: nat, last: seq<Slot>, k: Key)
    requires k in keys
    ensures Represented(k, Thin(keys, writes, free, last), writes) || (free == 0 && SameSlots(last, writes(k)))
  {
    var kept := Thin(keys, writes, free, last);
    if k == keys[0] {
      if free > 0 || !SameSlots(last, writes(k)) {
        assert kept[0] == k;
      }
    } else {
      assert keys == [keys[0]] + keys[1..];
      var keepsFirst := free > 0 || !SameSlots(last, writes(keys[0]));
      var rest := Thin(keys[1..], writes, if free > 0 then free - 1 else 0, if keepsFirst then writes(keys[0]) else last);
      ThinRepresents(keys[1..], writes, if free > 0 then free - 1 else 0, if keepsFirst then writes(keys[0]) else last, k);
      assert kept == if keepsFirst then [keys[0]] + rest else rest;
      if Represented(k, rest, writes) {
        var r :| r in rest && SameSlots(writes(r), writes(k));
        assert r in kept;
      } else if keepsFirst {
        assert keys[0] in kept;
      }
    }
  }

  /** A thinned list is not thinned further. */
  lemma {:induction false} ThinTwice(keys: seq<Key>, writes: Writes, free: nat, last: seq<Slot>)
    ensures var kept := Thin(keys, writes, free, last); Thin(kept, writes, free, last) == kept
  {
    if keys != [] {
      if free > 0 {
        ThinTwice(keys[1..], writes, free - 1, writes(keys[0]));
      } else if SameSlots(last, writes(keys[0])) {
        ThinTwice(keys[1..], writes, 0, last);
      } else {
        ThinTwice(keys[1..], writes, 0, writes(keys[0]));
      }
    }
  }

  lemma {:induction false} ThinDescends(keys: seq<Key>, writes: Writes, free: nat, last: seq<Slot>, value: Key -> real)
    requires Descending(keys, value)
    ensures Descending(Thin(keys, writes, free, last), value)
    ensures forall bound :: AtMost(keys, value, bound) ==> AtMost(Thin(keys, writes, free, last), value, bound)
  {
    hide Descending;
    if keys != [] {
      assert keys == [keys[0]] + keys[1..];
      DescendingCons(keys[0], keys[1..], value);
      var keepsFirst := free > 0 || !SameSlots(last, writes(keys[0]));
      var rest := Thin(keys[1..], writes, if free > 0 then free - 1 else 0, if keepsFirst then writes(keys[0]) else last);
      ThinDescends(keys[1..], writes, if free > 0 then free - 1 else 0, if keepsFirst then writes(keys[0]) else last, value);
      DescendingCons(keys[0], rest, value);
    }
  }

  /** The writes at a position differ from those in front of it, or from `last` at the start. */
  ghost predicate Differs(t: seq<Key>, writes: Writes, last: seq<Slot>, j: nat)
    requires j < |t|
  {
    !SameSlots(if j == 0 then last else writes(t[j - 1]), writes(t[j]))
  }

  /** From the fourth key on the writes differ from those of the key in front, and three keys stay if there are three. */
  lemma {:induction false} ThinDiffers(keys: seq<Key>, writes: Writes, free: nat, last: seq<Slot>)
    ensures var t := Thin(keys, writes, free, last);
      && (forall j :: free <= j < |t| ==> Differs(t, writes, last, j))
      && (|t| >= free || t == keys)
  {
    hide SameSlots;
    if keys != [] {
      var keepsFirst := free > 0 || !SameSlots(last, writes(keys[0]));
      var rest := Thin(keys[1..], writes, if free > 0 then free - 1 else 0, if keepsFirst then writes(keys[0]) else last);
      ThinDiffers(keys[1..], writes, if free > 0 then free - 1 else 0, if keepsFirst then writes(keys[0]) else last);
      if keepsFirst {
        var t := [keys[0]] + rest;
        forall j | free <= j < |t| ensures Differs(t, writes, last, j) {
          if j > 0 {
            assert Differs(rest, writes, writes(keys[0]), j - 1);
          }
        }
        assert keys == [keys[0]] + keys[1..];
      }
    }
  }

  /** The first three positions, and those whose writes differ from the position in front. */
  predicate IsNew(s: seq<Key>, writes: Writes, i: nat)
    requires i < |s|
  {
    i < 3 || !SameSlots(writes(s[i - 1]), writes(s[i]))
  }

  function News(s: seq<Key>, writes: Writes, i: nat): seq<Key>
    requires i <= |s|
    decreases |s| - i
  {
    if i == |s| then [] else (if IsNew(s, writes, i) then [s[i]] else []) + News(s, writes, i + 1)
  }

  /** Comparing with the last kept key is comparing with the key in front. */
  lemma {:induction false} ThinIsNews(s: seq<Key>, writes: Writes, i: nat, last: seq<Slot>)
    requires i <= |s| && (i >= 3 ==> SameSlots(last, writes(s[i - 1])))
    ensures Thin(s[i..], writes, if i < 3 then 3 - i else 0, last) == News(s, writes, i)
    decreases |s| - i
  {
    if i < |s| {
      assert s[i..][1..] == s[i + 1..];
      ThinIsNews(s, writes, i + 1, if IsNew(s, writes, i) then writes(s[i]) else last);
    }
  }

  /** What is kept of one bucket: of its keys, those with most last writes first, the first three and every
      key whose last writes differ from those of the key in front. */
  lemma KeepExactly(keys: seq<Key>, writes: Writes)
    ensures Keep(keys, writes) == News(SortDown(keys, Size(writes)), writes, 0)
  {
    hide SortDown;
    var s := SortDown(keys, Size(writes));
    assert s[0..] == s;
    ThinIsNews(s, writes, 0, []);
  }

  /** What thinning one bucket does. */
  lemma KeepProperties(keys: seq<Key>, writes: Writes)
    ensures multiset(Keep(keys, writes)) <= multiset(keys)
    ensures |keys| <= 3 ==> multiset(Keep(keys, writes)) == multiset(keys)
    ensures forall k :: k in keys ==> Represented(k, Keep(keys, writes), writes)
    ensures Keep(Keep(keys, writes), writes) == Keep(keys, writes)
    ensures keys != [] ==> Keep(keys, writes) != []
  {
    hide SortDown, Thin, Descending, Represented;
    var value := Size(writes);
    var sorted := SortDown(keys, value);
    SortDownSorts(keys, value);
    ThinIsSub(sorted, writes, 3, []);
    forall k | k in keys ensures Represented(k, Keep(keys, writes), writes) {
      assert k in multiset(sorted);
      ThinRepresents(sorted, writes, 3, [], k);
    }
    ThinDescends(sorted, writes, 3, [], value);
    SortDownOfSorted(Thin(sorted, writes, 3, []), value);
    ThinTwice(sorted, writes, 3, []);
    if keys != [] {
      FirstIsKept(sorted, writes);
    }
  }

  lemma FirstIsKept(keys: seq<Key>, writes: Writes)
    requires keys != []
    ensures Thin(keys, writes, 3, []) != []
  {
  }

  // ---------- buckets ----------

  /** The keys of the bucket of a prefix. */
  function Lookup(buckets: seq<Bucket>, p: seq<Function>): seq<Key> {
    if buckets == [] then [] else if buckets[0].prefix == p then buckets[0].keys else Lookup(buckets[1..], p)
  }

  function OfPrefix(queue: seq<Key>, p: seq<Function>): seq<Key> {
    if queue == [] then []
    else OfPrefix(queue[..|queue| - 1], p) + (if Prefix(queue[|queue| - 1]) == p then [queue[|queue| - 1]] else [])
  }

  lemma {:induction false} AddKeyLookup(buckets: seq<Bucket>, k: Key, p: seq<Function>)
    ensures Lookup(AddKey(buckets, k), p) == Lookup(buckets, p) + (if Prefix(k) == p then [k] else [])
  {
    if buckets != [] && buckets[0].prefix != Prefix(k) {
      AddKeyLookup(buckets[1..], k, p);
    }
  }

  /** A bucket holds exactly the queued states of its prefix, in queue order. */
  lemma {:induction false} BucketIsPrefixGroup(queue: seq<Key>, p: seq<Function>)
    ensures Lookup(Buckets(queue), p) == if Excluded(p) then [] else OfPrefix(queue, p)
  {
    hide Excluded;
    if queue != [] {
      BucketIsPrefixGroup(queue[..|queue| - 1], p);
      AddKeyLookup(Buckets(queue[..|queue| - 1]), queue[|queue| - 1], p);
    }
  }

  function PrefixesOf(buckets: seq<Bucket>): set<seq<Function>> {
    set i | 0 <= i < |buckets| :: buckets[i].prefix
  }

  /** Prefixes are distinct and not excluded; every bucket holds keys of its own prefix only. */
  ghost predicate Tidy(buckets: seq<Bucket>) {
    && (forall i, j :: 0 <= i < j < |buckets| ==> buckets[i].prefix != buckets[j].prefix)
    && (forall i :: 0 <= i < |buckets| ==> TidyBucket(buckets[i]))
  }

  ghost predicate TidyBucket(b: Bucket) {
    b.keys != [] && !Excluded(b.prefix) && forall k :: k in b.keys ==> Prefix(k) == b.prefix
  }

  lemma TidyCons(b: Bucket, rest: seq<Bucket>)
    ensures Tidy([b] + rest) <==> TidyBucket(b) && b.prefix !in PrefixesOf(rest) && Tidy(rest)
  {
    hide TidyBucket;
    var all := [b] + rest;
    assert forall i :: 0 <= i < |rest| ==> all[i + 1] == rest[i];
    assert all[0] == b;
    if Tidy(all) {
      forall i, j | 0 <= i < j < |rest| ensures rest[i].prefix != rest[j].prefix {
        assert all[i + 1].prefix != all[j + 1].prefix;
      }
      forall i | 0 <= i < |rest| ensures TidyBucket(rest[i]) && rest[i].prefix != b.prefix {
        assert TidyBucket(all[i + 1]) && all[0].prefix != all[i + 1].prefix;
      }
    }
  }

  lemma PrefixesCons(b: Bucket, rest: seq<Bucket>)
    ensures PrefixesOf([b] + rest) == {b.prefix} + PrefixesOf(rest)
  {
    var all := [b] + rest;
    assert forall i :: 0 <= i < |rest| ==> all[i + 1] == rest[i];
    assert all[0] == b;
  }

  lemma {:induction false} AddKeyPrefixes(buckets: seq<Bucket>, k: Key)
    ensures PrefixesOf(AddKey(buckets, k)) == PrefixesOf(buckets) + {Prefix(k)}
  {
    hide PrefixesOf;
    if buckets == [] {
      assert AddKey(buckets, k) == [Bucket(Prefix(k), [k])] + [];
      PrefixesCons(Bucket(Prefix(k), [k]), []);
      NoBuckets();
    } else {
      assert buckets == [buckets[0]] + buckets[1..];
      PrefixesCons(buckets[0], buckets[1..]);
      if buckets[0].prefix == Prefix(k) {
        PrefixesCons(buckets[0].(keys := buckets[0].keys + [k]), buckets[1..]);
      } else {
        AddKeyPrefixes(buckets[1..], k);
        PrefixesCons(buckets[0], AddKey(buckets[1..], k));
      }
    }
  }

  lemma {:induction false} AddKeyTidy(buckets: seq<Bucket>, k: Key)
    requires Tidy(buckets) && !Excluded(Prefix(k))
    ensures Tidy(AddKey(buckets, k))
  {
    hide Excluded, PrefixesOf, Tidy;
    if buckets == [] {
      assert AddKey(buckets, k) == [Bucket(Prefix(k), [k])] + [];
      TidyCons(Bucket(Prefix(k), [k]), []);
      NoBuckets();
    } else {
      assert buckets == [buckets[0]] + buckets[1..];
      TidyCons(buckets[0], buckets[1..]);
      if buckets[0].prefix == Prefix(k) {
        TidyCons(buckets[0].(keys := buckets[0].keys + [k]), buckets[1..]);
      } else {
        AddKeyTidy(buckets[1..], k);
        AddKeyPrefixes(buckets[1..], k);
        TidyCons(buckets[0], AddKey(buckets[1..], k));
      }
    }
  }

  lemma {:induction false} AddKeyKeeps(buckets: seq<Bucket>, k: Key)
    ensures multiset(AllKeys(AddKey(buckets, k))) == multiset(AllKeys(buckets)) + multiset{k}
  {
    hide AllKeys;
    if buckets == [] {
      assert AddKey(buckets, k) == [Bucket(Prefix(k), [k])] + [];
      AllKeysCons(Bucket(Prefix(k), [k]), []);
      NoBuckets();
    } else {
      assert buckets == [buckets[0]] + buckets[1..];
      AllKeysCons(buckets[0], buckets[1..]);
      if buckets[0].prefix == Prefix(k) {
        AllKeysCons(buckets[0].(keys := buckets[0].keys + [k]), buckets[1..]);
      } else {
        AddKeyKeeps(buckets[1..], k);
        AllKeysCons(buckets[0], AddKey(buckets[1..], k));
      }
    }
  }

  function AllKeys(buckets: seq<Bucket>): seq<Key> {
    if buckets == [] then [] else AllKeys(buckets[..|buckets| - 1]) + buckets[|buckets| - 1].keys
  }

  lemma {:induction false} AllKeysCons(b: Bucket, rest: seq<Bucket>)
    ensures AllKeys([b] + rest) == b.keys + AllKeys(rest)
  {
    var all := [b] + rest;
    if rest == [] {
      assert all[..0] == [];
    } else {
      assert all[..|all| - 1] == [b] + rest[..|rest| - 1];
      AllKeysCons(b, rest[..|rest| - 1]);
    }
  }

  lemma {:induction false} BucketsTidy(queue: seq<Key>)
    ensures Tidy(Buckets(queue)) && multiset(AllKeys(Buckets(queue))) <= multiset(queue)
  {
    hide Excluded, Tidy;
    if queue == [] {
      NoBuckets();
    } else {
      var n := |queue| - 1;
      assert queue == queue[..n] + [queue[n]];
      BucketsTidy(queue[..n]);
      if !Excluded(Prefix(queue[n])) {
        AddKeyTidy(Buckets(queue[..n]), queue[n]);
        AddKeyKeeps(Buckets(queue[..n]), queue[n]);
      }
    }
  }

  lemma NoBuckets()
    ensures Tidy([]) && PrefixesOf([]) == {} && AllKeys([]) == []
  {
  }

  lemma {:induction false} KeepAllIsSub(buckets: seq<Bucket>, writes: Writes)
    ensures multiset(KeepAll(buckets, writes)) <= multiset(AllKeys(buckets))
  {
    hide Keep;
    if buckets != [] {
      KeepAllIsSub(buckets[..|buckets| - 1], writes);
      KeepProperties(buckets[|buckets| - 1].keys, writes);
    }
  }

  /** What is kept of one bucket is in the result. */
  lemma {:induction false} KeepAllHolds(buckets: seq<Bucket>, writes: Writes, i: nat, k: Key)
    requires i < |buckets| && k in Keep(buckets[i].keys, writes)
    ensures k in KeepAll(buckets, writes)
  {
    hide Keep;
    if i < |buckets| - 1 {
      KeepAllHolds(buckets[..|buckets| - 1], writes, i, k);
    }
  }

  lemma {:induction false} LookupIndex(buckets: seq<Bucket>, p: seq<Function>) returns (i: nat)
    requires Lookup(buckets, p) != []
    ensures i < |buckets| && buckets[i].keys == Lookup(buckets, p)
  {
    if buckets[0].prefix == p {
      i := 0;
    } else {
      i := LookupIndex(buckets[1..], p);
      i := i + 1;
    }
  }

  lemma {:induction false} OfPrefixHolds(queue: seq<Key>, k: Key)
    requires k in queue
    ensures k in OfPrefix(queue, Prefix(k))
  {
    var n := |queue| - 1;
    if k != queue[n] {
      assert k in queue[..n];
      OfPrefixHolds(queue[..n], k);
    }
  }

  /** Filtering keeps a sub-multiset of the queue; each pair of executed functions and last writes that is
      not excluded survives; groups of at most three states survive whole. */
  lemma FilteringKeeps(queue: seq<Key>, writes: Writes)
    ensures multiset(Filtered(queue, writes)) <= multiset(queue)
    ensures forall k :: k in queue && !Excluded(Prefix(k)) ==>
      exists r :: r in Filtered(queue, writes) && Prefix(r) == Prefix(k) && SameSlots(writes(r), writes(k))
    ensures forall k :: k in queue && !Excluded(Prefix(k)) && |OfPrefix(queue, Prefix(k))| <= 3 ==> k in Filtered(queue, writes)
  {
    hide Keep, Excluded, SameSlots, Tidy;
    var buckets := Buckets(queue);
    BucketsTidy(queue);
    KeepAllIsSub(buckets, writes);
    forall k | k in queue && !Excluded(Prefix(k))
      ensures exists r :: r in Filtered(queue, writes) && Prefix(r) == Prefix(k) && SameSlots(writes(r), writes(k))
      ensures |OfPrefix(queue, Prefix(k))| <= 3 ==> k in Filtered(queue, writes)
    {
      BucketIsPrefixGroup(queue, Prefix(k));
      OfPrefixHolds(queue, k);
      var i := LookupIndex(buckets, Prefix(k));
      var keys := buckets[i].keys;
      KeepProperties(keys, writes);
      var r :| r in Keep(keys, writes) && SameSlots(writes(r), writes(k));
      assert r in multiset(keys);
      BucketPrefix(buckets, i, r, k);
      KeepAllHolds(buckets, writes, i, r);
      if |keys| <= 3 {
        assert k in multiset(Keep(keys, writes));
        KeepAllHolds(buckets, writes, i, k);
      }
    }
  }

  lemma BucketPrefix(buckets: seq<Bucket>, i: nat, r: Key, k: Key)
    requires Tidy(buckets) && i < |buckets| && r in buckets[i].keys && k in buckets[i].keys
    ensures Prefix(r) == Prefix(k)
  {
    hide Excluded;
    assert TidyBucket(buckets[i]);
  }

  // ---------- filtering twice ----------

  function AddAll(buckets: seq<Bucket>, keys: seq<Key>): seq<Bucket> {
    if keys == [] then buckets else AddKey(AddAll(buckets, keys[..|keys| - 1]), keys[|keys| - 1])
  }

  lemma {:induction false} BucketsOfConcat(queue: seq<Key>, more: seq<Key>)
    requires forall k :: k in more ==> !Excluded(Prefix(k))
    ensures Buckets(queue + more) == AddAll(Buckets(queue), more)
  {
    hide Excluded;
    if more == [] {
      assert queue + more == queue;
    } else {
      var n := |more| - 1;
      assert (queue + more)[..|queue + more| - 1] == queue + more[..n];
      BucketsOfConcat(queue, more[..n]);
    }
  }

  lemma {:induction false} AddKeyNew(buckets: seq<Bucket>, k: Key)
    requires forall i :: 0 <= i < |buckets| ==> buckets[i].prefix != Prefix(k)
    ensures AddKey(buckets, k) == buckets + [Bucket(Prefix(k), [k])]
  {
    if buckets != [] {
      AddKeyNew(buckets[1..], k);
      assert buckets == [buckets[0]] + buckets[1..];
    }
  }

  lemma {:induction false} AddKeyLast(buckets: seq<Bucket>, b: Bucket, k: Key)
    requires (forall i :: 0 <= i < |buckets| ==> buckets[i].prefix != Prefix(k)) && b.prefix == Prefix(k)
    ensures AddKey(buckets + [b], k) == buckets + [b.(keys := b.keys + [k])]
  {
    if buckets != [] {
      AddKeyLast(buckets[1..], b, k);
      assert (buckets + [b])[1..] == buckets[1..] + [b];
      assert buckets == [buckets[0]] + buckets[1..];
    }
  }

  /** Keys of one new prefix form one new bucket. */
  lemma {:induction false} AddAllNew(buckets: seq<Bucket>, p: seq<Function>, keys: seq<Key>)
    requires keys != [] && (forall k :: k in keys ==> Prefix(k) == p)
    requires forall i :: 0 <= i < |buckets| ==> buckets[i].prefix != p
    ensures AddAll(buckets, keys) == buckets + [Bucket(p, keys)]
  {
    var n := |keys| - 1;
    assert keys == keys[..n] + [keys[n]];
    if n == 0 {
      assert AddAll(buckets, keys[..0]) == buckets;
      AddKeyNew(buckets, keys[0]);
    } else {
      AddAllNew(buckets, p, keys[..n]);
      AddKeyLast(buckets, Bucket(p, keys[..n]), keys[n]);
    }
  }

  function Thinned(buckets: seq<Bucket>, writes: Writes): seq<Bucket> {
    seq(|buckets|, i requires 0 <= i < |buckets| => Bucket(buckets[i].prefix, Keep(buckets[i].keys, writes)))
  }

  lemma {:induction false} BucketsOfKept(buckets: seq<Bucket>, writes: Writes)
    requires Tidy(buckets)
    ensures Buckets(KeepAll(buckets, writes)) == Thinned(buckets, writes)
  {
    hide Keep, Excluded;
    if buckets != [] {
      var n := |buckets| - 1;
      var init, b := buckets[..n], buckets[n];
      assert TidyBucket(b);
      BucketsOfKept(init, writes);
      KeepProperties(b.keys, writes);
      var keys := Keep(b.keys, writes);
      forall k | k in keys ensures Prefix(k) == b.prefix {
        assert k in multiset(keys);
      }
      BucketsOfConcat(KeepAll(init, writes), keys);
      AddAllNew(Thinned(init, writes), b.prefix, keys);
      assert Thinned(buckets, writes) == Thinned(init, writes) + [Bucket(b.prefix, keys)];
    }
  }

  lemma {:induction false} KeepThinned(buckets: seq<Bucket>, writes: Writes)
    ensures KeepAll(Thinned(buckets, writes), writes) == KeepAll(buckets, writes)
  {
    hide Keep;
    if buckets != [] {
      var n := |buckets| - 1;
      assert Thinned(buckets, writes)[..n] == Thinned(buckets[..n], writes);
      KeepThinned(buckets[..n], writes);
      KeepProperties(buckets[n].keys, writes);
    }
  }

  lemma {:induction false} KeptAreTidy(buckets: seq<Bucket>, writes: Writes, k: Key)
    requires Tidy(buckets) && k in KeepAll(buckets, writes)
    ensures !Excluded(Prefix(k))
  {
    hide Keep, Excluded;
    var n := |buckets| - 1;
    if k in KeepAll(buckets[..n], writes) {
      KeptAreTidy(buckets[..n], writes, k);
    } else {
      KeepProperties(buckets[n].keys, writes);
      assert k in multiset(Keep(buckets[n].keys, writes));
      assert TidyBucket(buckets[n]) && k in multiset(buckets[n].keys);
    }
  }

  lemma {:induction false} NoneOfPrefix(queue: seq<Key>, p: seq<Function>)
    requires forall k :: k in queue ==> Prefix(k) != p
    ensures OfPrefix(queue, p) == []
  {
    if queue != [] {
      NoneOfPrefix(queue[..|queue| - 1], p);
    }
  }

  lemma {:induction false} LookupThinned(buckets: seq<Bucket>, writes: Writes, p: seq<Function>)
    ensures Lookup(Thinned(buckets, writes), p) == Keep(Lookup(buckets, p), writes)
  {
    hide Keep;
    if buckets == [] {
      KeepNothing(writes);
    } else {
      assert Thinned(buckets, writes)[1..] == Thinned(buckets[1..], writes);
      LookupThinned(buckets[1..], writes, p);
    }
  }

  lemma KeepNothing(writes: Writes)
    ensures Keep([], writes) == []
  {
  }

  /** In the filtered queue each group is the thinned group, and no state of an excluded sequence is left. */
  lemma GroupIsKept(queue: seq<Key>, writes: Writes, p: seq<Function>)
    ensures OfPrefix(Filtered(queue, writes), p) == if Excluded(p) then [] else Keep(OfPrefix(queue, p), writes)
  {
    hide Keep, Excluded, Tidy;
    var kept := Filtered(queue, writes);
    BucketsTidy(queue);
    if Excluded(p) {
      forall k | k in kept ensures Prefix(k) != p {
        KeptAreTidy(Buckets(queue), writes, k);
      }
      NoneOfPrefix(kept, p);
    } else {
      BucketsOfKept(Buckets(queue), writes);
      BucketIsPrefixGroup(kept, p);
      BucketIsPrefixGroup(queue, p);
      LookupThinned(Buckets(queue), writes, p);
    }
  }

  lemma {:induction false} OfOnePrefix(queue: seq<Key>, p: seq<Function>)
    ensures forall k :: k in OfPrefix(queue, p) ==> k in queue && k.functions == p
  {
    if queue != [] {
      OfOnePrefix(queue[..|queue| - 1], p);
    }
  }

  /** The states of one sequence that are left stand in the order of how many slots they wrote last; from the
      fourth on each wrote other slots than the one in front, so at most three are left when all wrote the
      same; three are left if there were three; and none is left of an excluded sequence. */
  lemma GroupsAreThin(queue: seq<Key>, writes: Writes, p: seq<Function>)
    ensures var group, left := OfPrefix(queue, p), OfPrefix(Filtered(queue, writes), p);
      && (forall i, j :: 0 <= i < j < |left| ==> |writes(left[i])| >= |writes(left[j])|)
      && (forall i :: 3 <= i < |left| ==> !SameSlots(writes(left[i - 1]), writes(left[i])))
      && ((forall k, l :: k in group && l in group ==> SameSlots(writes(k), writes(l))) ==> |left| <= 3)
      && (|left| >= 3 || multiset(left) == multiset(group) || Excluded(p))
      && multiset(left) <= multiset(group) && (forall k :: k in left ==> k.functions == p)
      && (Excluded(p) ==> left == [])
  {
    hide SortDown, Thin, Descending, Filtered, Excluded, SameSlots;
    var group, left := OfPrefix(queue, p), OfPrefix(Filtered(queue, writes), p);
    GroupIsKept(queue, writes, p);
    OfOnePrefix(Filtered(queue, writes), p);
    if !Excluded(p) {
      var value := Size(writes);
      var sorted := SortDown(group, value);
      SortDownSorts(group, value);
      ThinIsSub(sorted, writes, 3, []);
      ThinDiffers(sorted, writes, 3, []);
      ThinDescends(sorted, writes, 3, [], value);
      InOrder(left, writes);
      forall i | 3 <= i < |left| ensures !SameSlots(writes(left[i - 1]), writes(left[i])) {
        assert Differs(left, writes, [], i);
      }
      if |left| > 3 {
        assert left[2] in multiset(left) && left[3] in multiset(left);
        assert left[2] in group && left[3] in group && !SameSlots(writes(left[2]), writes(left[3]));
      }
    }
  }

  lemma InOrder(left: seq<Key>, writes: Writes)
    requires Descending(left, Size(writes))
    ensures forall i, j :: 0 <= i < j < |left| ==> |writes(left[i])| >= |writes(left[j])|
  {
    forall i, j | 0 <= i < j < |left| ensures |writes(left[i])| >= |writes(left[j])| {
      assert Size(writes)(left[i]) >= Size(writes)(left[j]);
    }
  }

  /** Filtering a filtered queue changes nothing, not even the order. */
  lemma FilteringIsIdempotent(queue: seq<Key>, writes: Writes)
    ensures Filtered(Filtered(queue, writes), writes) == Filtered(queue, writes)
  {
    BucketsTidy(queue);
    BucketsOfKept(Buckets(queue), writes);
    KeepThinned(Buckets(queue), writes);
  }
}
