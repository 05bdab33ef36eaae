/** Ordering a keyed collection of profilers by decreasing total duration.

    A Java map is modelled by the sequence of its entries in iteration order;
    a map never holds a key twice (`DistinctKeys`). The result map keeps
    insertion order, so it is modelled the same way. */
module Ranking {
  import opened Metric

  datatype Option<T> = None | Some(value: T)

  /** One map entry: a caller-chosen key and its profiler. */
  datatype Entry<K> = Entry(key: K, metric: Profile)

  /** The value the comparator looks at. */
  function Weight<K>(e: Entry<K>): int
  {
    e.metric.totalTime
  }

  function Keys<K(==)>(m: seq<Entry<K>>): set<K>
  {
    if |m| == 0 then {} else {m[0].key} + Keys(m[1..])
  }

  predicate DistinctKeys<K(==)>(m: seq<Entry<K>>)
  {
    |m| == 0 || (m[0].key !in Keys(m[1..]) && DistinctKeys(m[1..]))
  }

  /** `Map.get`: the profiler of the first entry whose key is `k`. */
  function Lookup<K(==)>(m: seq<Entry<K>>, k: K): Option<Profile>
  {
    if |m| == 0 then None
    else if m[0].key == k then Some(m[0].metric)
    else Lookup(m[1..], k)
  }

  /** Total durations never increase along `s`. */
  predicate Descending<K>(s: seq<Entry<K>>)
  {
    forall i, j | 0 <= i < j < |s| :: Weight(s[i]) >= Weight(s[j])
  }

  /** The entries of `s` whose total duration is `w`, in their order in `s`.
      A sort is stable when it keeps every one of these sub-sequences. */
  function WithWeight<K>(s: seq<Entry<K>>, w: int): seq<Entry<K>>
  {
    if |s| == 0 then []
    else if Weight(s[0]) == w then [s[0]] + WithWeight(s[1..], w)
    else WithWeight(s[1..], w)
  }

  /** `r` lists the entries of `s` sorted by decreasing total duration, and
      entries of equal duration appear in `r` in the same order as in `s`. */
  ghost predicate StableDescendingOf<K>(r: seq<Entry<K>>, s: seq<Entry<K>>)
  {
    Descending(r) && forall w :: WithWeight(r, w) == WithWeight(s, w)
  }

  // ---------------------------------------------------------------------
  // The stable sort
  // ---------------------------------------------------------------------

  /** Inserts `x`, which came before every entry of `t` in the input, in
      front of the first entry of `t` that is not strictly longer than it. */
  function Insert<K(==)>(x: Entry<K>, t: seq<Entry<K>>): (r: seq<Entry<K>>)
    ensures multiset(r) == multiset{x} + multiset(t)
    ensures forall e | e in r :: e == x || e in t
    ensures Descending(t) ==> Descending(r)
  {
    if |t| == 0 || Weight(x) >= Weight(t[0]) then
      assert Descending(t) ==> forall e | e in t :: Weight(x) >= Weight(e) by {
        if Descending(t) {
          forall e | e in t ensures Weight(x) >= Weight(e) {
            HeadIsLongest(t, e);
          }
        }
      }
      ConsDescending(x, t);
      [x] + t
    else
      var rest := Insert(x, t[1..]);
      assert t == [t[0]] + t[1..];
      assert Descending(t) ==> forall e | e in rest :: Weight(t[0]) >= Weight(e) by {
        if Descending(t) {
          forall e | e in rest ensures Weight(t[0]) >= Weight(e) {
            if e != x {
              HeadIsLongest(t, e);
            }
          }
        }
      }
      assert Descending(t) ==> Descending(t[1..]);
      ConsDescending(t[0], rest);
      [t[0]] + rest
  }

  /** An entry no shorter than every entry of a sorted `r` may go in front. */
  lemma {:induction false} ConsDescending<K>(h: Entry<K>, r: seq<Entry<K>>)
    ensures Descending(r) && (forall e | e in r :: Weight(h) >= Weight(e)) ==> Descending([h] + r)
  {
  }

  /** `Collections.sort` with the comparator of `AbstractTimeProfiling`, which
      orders by decreasing `totalTime`. The Java sort is a stable merge sort; it is
      modelled by a stable insertion sort, which by `StableSortIsUnique`
      produces the very same sequence. */
  function StableSortDesc<K(==)>(s: seq<Entry<K>>): (r: seq<Entry<K>>)
    ensures multiset(r) == multiset(s)
    ensures Descending(r)
  {
    if |s| == 0 then []
    else
      assert s == [s[0]] + s[1..];
      Insert(s[0], StableSortDesc(s[1..]))
  }

  lemma {:induction false} InsertKeepsEqualWeightOrder<K>(x: Entry<K>, t: seq<Entry<K>>, w: int)
    requires Descending(t)
    ensures WithWeight(Insert(x, t), w)
            == if Weight(x) == w then [x] + WithWeight(t, w) else WithWeight(t, w)
    decreases |t|
  {
    if |t| == 0 || Weight(x) >= Weight(t[0]) {
      assert ([x] + t)[1..] == t;
    } else {
      var rest := Insert(x, t[1..]);
      assert ([t[0]] + rest)[1..] == rest;
      InsertKeepsEqualWeightOrder(x, t[1..], w);
      if Weight(x) == w {
        // t[0] is strictly longer than x, so it is not of weight w.
        assert Weight(t[0]) != w;
      }
    }
  }

  /** Equal durations keep their input order. */
  lemma {:induction false} SortIsStable<K>(s: seq<Entry<K>>, w: int)
    ensures WithWeight(StableSortDesc(s), w) == WithWeight(s, w)
    decreases |s|
  {
    if |s| > 0 {
      SortIsStable(s[1..], w);
      InsertKeepsEqualWeightOrder(s[0], StableSortDesc(s[1..]), w);
    }
  }

  lemma {:induction false} SortIsStableDescending<K>(s: seq<Entry<K>>)
    ensures StableDescendingOf(StableSortDesc(s), s)
  {
    forall w ensures WithWeight(StableSortDesc(s), w) == WithWeight(s, w) {
      SortIsStable(s, w);
    }
  }

  lemma {:induction false} InWithWeight<K>(s: seq<Entry<K>>, e: Entry<K>)
    ensures e in WithWeight(s, Weight(e)) <==> e in s
    decreases |s|
  {
    if |s| > 0 {
      InWithWeight(s[1..], e);
      assert s == [s[0]] + s[1..];
    }
  }

  /** Sequences that agree on every group of equal durations hold the same
      entries. */
  lemma {:induction false} SameEntries<K>(a: seq<Entry<K>>, b: seq<Entry<K>>)
    requires forall w :: WithWeight(a, w) == WithWeight(b, w)
    ensures forall e :: e in a <==> e in b
    ensures |a| == 0 <==> |b| == 0
  {
    forall e ensures e in a <==> e in b {
      InWithWeight(a, e);
      InWithWeight(b, e);
    }
    if |a| > 0 {
      assert a[0] in b;
    }
    if |b| > 0 {
      assert b[0] in a;
    }
  }

  lemma {:induction false} HeadIsLongest<K>(s: seq<Entry<K>>, e: Entry<K>)
    requires Descending(s) && e in s
    ensures Weight(e) <= Weight(s[0])
  {
  }

  /** Stability and order determine the result: two sequences that are both
      sorted by decreasing duration and agree on the order of every group of
      equal durations are equal. */
  lemma {:induction false} StableDescendingIsUnique<K>(a: seq<Entry<K>>, b: seq<Entry<K>>)
    requires Descending(a) && Descending(b)
    requires forall w :: WithWeight(a, w) == WithWeight(b, w)
    ensures a == b
    decreases |a|
  {
    SameEntries(a, b);
    if |a| > 0 {
      HeadIsLongest(b, a[0]);
      HeadIsLongest(a, b[0]);
      var v := Weight(a[0]);
      assert WithWeight(a, v) == [a[0]] + WithWeight(a[1..], v);
      assert WithWeight(b, v) == [b[0]] + WithWeight(b[1..], v);
      assert a[0] == WithWeight(a, v)[0] == WithWeight(b, v)[0] == b[0];
      forall w ensures WithWeight(a[1..], w) == WithWeight(b[1..], w) {
        assert WithWeight(a, w) == WithWeight(b, w);
        if w == v {
          assert WithWeight(a[1..], w) == WithWeight(a, w)[1..];
        }
      }
      StableDescendingIsUnique(a[1..], b[1..]);
      assert a == [a[0]] + a[1..];
      assert b == [b[0]] + b[1..];
    }
  }

  /** Any stable sort by decreasing duration yields exactly `StableSortDesc`. */
  lemma {:induction false} StableSortIsUnique<K>(s: seq<Entry<K>>, r: seq<Entry<K>>)
    requires StableDescendingOf(r, s)
    ensures r == StableSortDesc(s)
  {
    SortIsStableDescending(s);
    StableDescendingIsUnique(r, StableSortDesc(s));
  }

  // ---------------------------------------------------------------------
  // Keys and lookups through the sort
  // ---------------------------------------------------------------------

  lemma {:induction false} KeysAppend<K>(a: seq<Entry<K>>, b: seq<Entry<K>>)
    ensures Keys(a + b) == Keys(a) + Keys(b)
    decreases |a|
  {
    if |a| == 0 {
      assert a + b == b;
    } else {
      assert (a + b)[1..] == a[1..] + b;
      KeysAppend(a[1..], b);
    }
  }

  lemma {:induction false} InsertKeysAndLookup<K>(x: Entry<K>, t: seq<Entry<K>>)
    requires x.key !in Keys(t) && DistinctKeys(t)
    ensures Keys(Insert(x, t)) == {x.key} + Keys(t)
    ensures DistinctKeys(Insert(x, t))
    ensures forall k :: Lookup(Insert(x, t), k) == if k == x.key then Some(x.metric) else Lookup(t, k)
    decreases |t|
  {
    if |t| == 0 || Weight(x) >= Weight(t[0]) {
      assert ([x] + t)[1..] == t;
    } else {
      var rest := Insert(x, t[1..]);
      assert ([t[0]] + rest)[1..] == rest;
      InsertKeysAndLookup(x, t[1..]);
      assert t[0].key != x.key;
    }
  }

  /** The sort keeps the key set, keeps keys distinct, and maps every key to
      the profiler it had in the input. */
  lemma {:induction false} SortKeepsEntries<K>(s: seq<Entry<K>>)
    requires DistinctKeys(s)
    ensures Keys(StableSortDesc(s)) == Keys(s)
    ensures DistinctKeys(StableSortDesc(s))
    ensures forall k :: Lookup(StableSortDesc(s), k) == Lookup(s, k)
    decreases |s|
  {
    if |s| > 0 {
      SortKeepsEntries(s[1..]);
      InsertKeysAndLookup(s[0], StableSortDesc(s[1..]));
    }
  }

  // ---------------------------------------------------------------------
  // The insertion-ordered result map
  // ---------------------------------------------------------------------

  /** `LinkedHashMap.put`: a key already present keeps its position and gets
      the new profiler; a new key is appended at the end. */
  function Put<K(==,!new)>(m: seq<Entry<K>>, k: K, v: Profile): (r: seq<Entry<K>>)
    ensures Keys(r) == Keys(m) + {k}
  {
    if |m| == 0 then
      [Entry(k, v)]
    else if m[0].key == k then
      assert ([Entry(k, v)] + m[1..])[1..] == m[1..];
      [Entry(k, v)] + m[1..]
    else
      var rest := Put(m[1..], k, v);
      assert ([m[0]] + rest)[1..] == rest;
      assert m == [m[0]] + m[1..];
      [m[0]] + rest
  }

  /** After a put, `k` maps to `v`, every other key keeps its profiler, and
      no key is duplicated. */
  lemma {:induction false} PutLookup<K(!new)>(m: seq<Entry<K>>, k: K, v: Profile)
    ensures Lookup(Put(m, k, v), k) == Some(v)
    ensures forall k' | k' != k :: Lookup(Put(m, k, v), k') == Lookup(m, k')
    ensures DistinctKeys(m) ==> DistinctKeys(Put(m, k, v))
    decreases |m|
  {
    if |m| > 0 && m[0].key != k {
      PutLookup(m[1..], k, v);
      assert ([m[0]] + Put(m[1..], k, v))[1..] == Put(m[1..], k, v);
    } else if |m| > 0 {
      assert ([Entry(k, v)] + m[1..])[1..] == m[1..];
    }
  }

  /** A key not yet in the map is appended at the end. */
  lemma {:induction false} PutFreshAppends<K(!new)>(m: seq<Entry<K>>, k: K, v: Profile)
    requires k !in Keys(m)
    ensures Put(m, k, v) == m + [Entry(k, v)]
    decreases |m|
  {
    if |m| > 0 {
      PutFreshAppends(m[1..], k, v);
      assert m == [m[0]] + m[1..];
    }
  }

  /** Puts every entry of `entries` into `m`, first to last. */
  function PutAll<K(==,!new)>(m: seq<Entry<K>>, entries: seq<Entry<K>>): seq<Entry<K>>
    decreases |entries|
  {
    if |entries| == 0 then m else PutAll(Put(m, entries[0].key, entries[0].metric), entries[1..])
  }

  /** One step of `PutAllFresh`: the first entry is appended, and the
      remaining ones stay fresh for the grown map. */
  lemma {:induction false} PutFreshStep<K(!new)>(m: seq<Entry<K>>, entries: seq<Entry<K>>)
    requires |entries| > 0 && DistinctKeys(entries) && Keys(m) !! Keys(entries)
    ensures PutAll(m, entries) == PutAll(m + [entries[0]], entries[1..])
    ensures DistinctKeys(entries[1..]) && Keys(m + [entries[0]]) !! Keys(entries[1..])
  {
    var e := entries[0];
    PutFreshAppends(m, e.key, e.metric);
    assert Entry(e.key, e.metric) == e;
    KeysAppend(m, [e]);
    assert Keys([e]) == {e.key};
    assert Keys(entries) == {e.key} + Keys(entries[1..]);
  }

  /** Putting entries with fresh, distinct keys appends them in order. */
  lemma {:induction false} PutAllFresh<K(!new)>(m: seq<Entry<K>>, entries: seq<Entry<K>>)
    requires DistinctKeys(entries) && Keys(m) !! Keys(entries)
    ensures PutAll(m, entries) == m + entries
    decreases |entries|
  {
    if |entries| == 0 {
      assert m + entries == m;
    } else {
      PutFreshStep(m, entries);
      PutAllFresh(m + [entries[0]], entries[1..]);
      assert entries == [entries[0]] + entries[1..];
      assert m + entries == m + [entries[0]] + entries[1..];
    }
  }

  /** `sortByDescendingTotalTime`: the entries of `unsorted`, stably sorted
      by decreasing total duration, collected into an insertion-ordered map.
      A map never holds a key twice, hence the precondition. */
  function SortByDescendingTotalTime<K(==,!new)>(unsorted: seq<Entry<K>>): (sorted: seq<Entry<K>>)
    requires DistinctKeys(unsorted)
    ensures multiset(sorted) == multiset(unsorted)
    ensures DistinctKeys(sorted) && Keys(sorted) == Keys(unsorted)
    ensures forall k :: Lookup(sorted, k) == Lookup(unsorted, k)
    ensures Descending(sorted)
    ensures forall w :: WithWeight(sorted, w) == WithWeight(unsorted, w)
  {
    var entries := StableSortDesc(unsorted);
    SortKeepsEntries(unsorted);
    SortIsStableDescending(unsorted);
    PutAllFresh([], entries);
    assert [] + entries == entries;
    PutAll([], entries)
  }

  /** The result of `SortByDescendingTotalTime` is the one arrangement of its
      input that is sorted by decreasing duration and keeps the input order
      among equal durations. */
  lemma {:induction false} SortIsCharacterised<K(!new)>(unsorted: seq<Entry<K>>, r: seq<Entry<K>>)
    requires DistinctKeys(unsorted)
    ensures SortByDescendingTotalTime(unsorted) == r <==> StableDescendingOf(r, unsorted)
  {
    var sorted := SortByDescendingTotalTime(unsorted);
    if StableDescendingOf(r, unsorted) {
      forall w ensures WithWeight(sorted, w) == WithWeight(r, w) {
        assert WithWeight(r, w) == WithWeight(unsorted, w);
      }
      StableDescendingIsUnique(sorted, r);
    }
  }

  /** Four entries with durations 5, 10, 0 and 10, in that input order. */
  predicate ExampleWeights<K>(a: Entry<K>, b: Entry<K>, c: Entry<K>, d: Entry<K>)
  {
    Weight(a) == 5 && Weight(b) == 10 && Weight(c) == 0 && Weight(d) == 10
  }

  lemma {:induction false} ExampleGroups<K>(a: Entry<K>, b: Entry<K>, c: Entry<K>, d: Entry<K>, w: int)
    requires ExampleWeights(a, b, c, d)
    ensures WithWeight([b, d, a, c], w) == WithWeight([a, b, c, d], w)
  {
    assert [c][1..] == [] && [d][1..] == [];
    assert [a, c][1..] == [c] && [c, d][1..] == [d];
    assert [d, a, c][1..] == [a, c] && [b, c, d][1..] == [c, d];
    assert [b, d, a, c][1..] == [d, a, c] && [a, b, c, d][1..] == [b, c, d];
    var tens := if w == 10 then [d] else [];
    var fives := if w == 5 then [a] else [];
    var zeros := if w == 0 then [c] else [];
    assert WithWeight([c], w) == zeros;
    assert WithWeight([d], w) == tens;
    assert WithWeight([a, c], w) == fives + zeros;
    assert WithWeight([c, d], w) == zeros + tens;
    assert WithWeight([d, a, c], w) == tens + fives + zeros;
    assert WithWeight([b, c, d], w) == (if w == 10 then [b] else []) + zeros + tens;
  }

  /** Durations 5, 10, 0 and 10 under keys a, b, c and d come out as b, d, a,
      c: the two tens keep their input order, ahead of the five and then the
      zero. */
  lemma {:induction false} SortExample<K(!new)>(a: Entry<K>, b: Entry<K>, c: Entry<K>, d: Entry<K>)
    requires ExampleWeights(a, b, c, d) && DistinctKeys([a, b, c, d])
    ensures SortByDescendingTotalTime([a, b, c, d]) == [b, d, a, c]
  {
    var input, expected := [a, b, c, d], [b, d, a, c];
    assert StableDescendingOf(expected, input) by {
      assert Descending(expected) by {
        forall i, j | 0 <= i < j < 4 ensures Weight(expected[i]) >= Weight(expected[j]) {
        }
      }
      forall w ensures WithWeight(expected, w) == WithWeight(input, w) {
        ExampleGroups(a, b, c, d, w);
      }
    }
    SortIsCharacterised(input, expected);
  }
}
