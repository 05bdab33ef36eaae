# Time profiling accumulator

A Dafny model of `AbstractTimeProfiling`, the duration record that the
SonarQube batch profilers keep for each phase, sensor or decorator, together
with its two static helpers that prepare a report: ordering a keyed
collection of records by decreasing total duration, and cutting a list of
records down to its head.

Three modules, one per part of the class:

- `Metric` (`metric.dfy`): the record `Profile(startTime, totalTime)` and the
  state transformers `Start` (the constructor), `Stop`, `SetTotalTime` and
  `Add`. A clock reading is an integer argument. `Run` applies any sequence of
  calls and shows that the start time read at construction never changes,
  because the Java field is `final`. `AddAll` folds `Add` over a list, and
  `AddOrderIrrelevant` shows that the order of the additions does not matter.
- `Ranking` (`ranking.dfy`): `sortByDescendingTotalTime`. A Java `Map` is a
  sequence of `Entry(key, metric)` in iteration order with `DistinctKeys`.
  `Collections.sort` is modelled by `StableSortDesc`, a stable insertion
  sort. `StableSortIsUnique` shows that every stable sort by decreasing
  duration yields that same sequence. So the choice of algorithm is not a
  modelling assumption: Java's merge sort gives the identical result. The
  result map is a `LinkedHashMap`. Its `put` is modelled by `Put`: a present
  key keeps its place and a new key is appended. `PutAllFresh` shows that
  putting the sorted entries one by one rebuilds exactly the sorted sequence.
- `Truncation` (`truncation.dfy`): `truncate`. `TruncateFrom` follows the
  Java loop step by step: the counter is checked against `MaxSize` (10)
  first, then the item against a zero duration, and either check ends the
  loop. A zero is a hard stop, not a filter: later items are never looked
  at. The input is meant to be sorted already, but the loop does not check
  that, so the model does not require it either. `FirstZero` is an
  independent reference definition, and the `TruncateStopRule` lemma
  connects the two.

Durations and timestamps are unbounded integers.

## Model

| member | source | states |
|---|---|---|
| Metric.Start | sonar-batch/src/main/java/org/sonar/batch/profiling/AbstractTimeProfiling.java:40-47 | a new record's start time is the clock reading it was created with, and its total is zero until something sets it |
| Metric.Stop | sonar-batch/src/main/java/org/sonar/batch/profiling/AbstractTimeProfiling.java:49-51 | stopping at `now` makes the total exactly `now - startTime`, keeps the start time, and gives a non-negative total when the clock did not go back |
| Metric.SetTotalTime | sonar-batch/src/main/java/org/sonar/batch/profiling/AbstractTimeProfiling.java:61-63 | the total becomes the given value and the start time is kept |
| Metric.Add | sonar-batch/src/main/java/org/sonar/batch/profiling/AbstractTimeProfiling.java:65-67 | the total grows by exactly the other record's total and the start time is kept |
| Metric.AddAll | sonar-batch/src/main/java/org/sonar/batch/profiling/AbstractTimeProfiling.java:65-67 | adding a list of records one after the other adds the sum of their totals and keeps the start time |
| Metric.Run | sonar-batch/src/main/java/org/sonar/batch/profiling/AbstractTimeProfiling.java:34-67 | after any sequence of stop, set, add and self-add calls the start time is still the construction reading; a last `stop` leaves `now - startTime` and a last set leaves the set value |
| Metric.StopOverwrites | sonar-batch/src/main/java/org/sonar/batch/profiling/AbstractTimeProfiling.java:49-51 | a second stop gives the same record as stopping only once at the later reading; it does not add the two elapsed times |
| Metric.StartStopElapsed | sonar-batch/src/main/java/org/sonar/batch/profiling/AbstractTimeProfiling.java:40-51 | creating at `t0` and stopping at `t1` records `t1 - t0` |
| Metric.AddCommutesAndAssociates | sonar-batch/src/main/java/org/sonar/batch/profiling/AbstractTimeProfiling.java:65-67 | two additions give the same record in either order, and adding `a` then `b` equals adding their merged sum |
| Metric.SumTotalPermutation | sonar-batch/src/main/java/org/sonar/batch/profiling/AbstractTimeProfiling.java:65-67 | the sum of the totals of a list depends only on the multiset of its records |
| Metric.SelfAddOrderMatters | sonar-batch/src/main/java/org/sonar/batch/profiling/AbstractTimeProfiling.java:65-67 | `p.add(p)` reads the current total of `p`, so with totals 1 and 5, adding `o` then `p` itself gives 12, and the other order gives 7 |
| Metric.AddOrderIrrelevant | sonar-batch/src/main/java/org/sonar/batch/profiling/AbstractTimeProfiling.java:65-67 | adding the same records in any order gives the same result |
| Ranking.Insert | sonar-batch/src/main/java/org/sonar/batch/profiling/AbstractTimeProfiling.java:72-77 | one sorting step: the result holds exactly the inserted entry plus the old ones, and stays sorted by decreasing duration |
| Ranking.StableSortDesc | sonar-batch/src/main/java/org/sonar/batch/profiling/AbstractTimeProfiling.java:70-77 | the sorted list is a permutation of the input entries and its totals never increase |
| Ranking.SortIsStable | sonar-batch/src/main/java/org/sonar/batch/profiling/AbstractTimeProfiling.java:72-77 | for every duration, the entries with that duration appear in the sorted list in their input order |
| Ranking.StableDescendingIsUnique | sonar-batch/src/main/java/org/sonar/batch/profiling/AbstractTimeProfiling.java:72-77 | two lists that are both sorted by decreasing duration, with every group of equal durations in the same order, are equal |
| Ranking.StableSortIsUnique | sonar-batch/src/main/java/org/sonar/batch/profiling/AbstractTimeProfiling.java:72-77 | any stable descending arrangement of the input is exactly the modelled sort's result, so any stable sort algorithm gives the same list |
| Ranking.SortKeepsEntries | sonar-batch/src/main/java/org/sonar/batch/profiling/AbstractTimeProfiling.java:70-77 | sorting a map's entries keeps the key set and distinct keys, and maps every key to the record it had |
| Ranking.Put | sonar-batch/src/main/java/org/sonar/batch/profiling/AbstractTimeProfiling.java:78-81 | `put` makes the key set the old keys plus the put key |
| Ranking.PutLookup | sonar-batch/src/main/java/org/sonar/batch/profiling/AbstractTimeProfiling.java:78-81 | after `put`, the key maps to the new record, every other key keeps its record, and keys stay distinct |
| Ranking.PutFreshAppends | sonar-batch/src/main/java/org/sonar/batch/profiling/AbstractTimeProfiling.java:78-81 | putting a key the insertion-ordered map does not hold appends it at the end |
| Ranking.PutAllFresh | sonar-batch/src/main/java/org/sonar/batch/profiling/AbstractTimeProfiling.java:78-82 | putting entries with fresh, distinct keys one by one gives the map with those entries appended in that order |
| Ranking.SortByDescendingTotalTime | sonar-batch/src/main/java/org/sonar/batch/profiling/AbstractTimeProfiling.java:69-83 | the result holds exactly the input entries with distinct keys and the same key-to-record mapping, is sorted by decreasing total, and keeps input order among equal totals |
| Ranking.SortIsCharacterised | sonar-batch/src/main/java/org/sonar/batch/profiling/AbstractTimeProfiling.java:69-83 | a list equals the sorted result if and only if it is a stable descending arrangement of the input |
| Ranking.SortExample | sonar-batch/src/main/java/org/sonar/batch/profiling/AbstractTimeProfiling.java:69-83 | entries with durations 5, 10, 0, 10 under keys a, b, c, d come out as b, d, a, c |
| Truncation.FirstZero | sonar-batch/src/main/java/org/sonar/batch/profiling/AbstractTimeProfiling.java:90 | the returned index is the first position with a zero total, or the length when there is none: everything before it is non-zero |
| Truncation.TruncateFrom | sonar-batch/src/main/java/org/sonar/batch/profiling/AbstractTimeProfiling.java:88-97 | the loop, resumed after `count` items, returns a prefix of the remaining items with no zero total and at most `10 - count` items |
| Truncation.Truncate | sonar-batch/src/main/java/org/sonar/batch/profiling/AbstractTimeProfiling.java:85-98 | the result is a prefix of the input, has at most 10 items, and none of them has a zero total |
| Truncation.TruncateFromLength | sonar-batch/src/main/java/org/sonar/batch/profiling/AbstractTimeProfiling.java:88-97 | the resumed loop keeps as many items as the smaller of the remaining room and the index of the first zero |
| Truncation.TruncateStopRule | sonar-batch/src/main/java/org/sonar/batch/profiling/AbstractTimeProfiling.java:86-97 | the result is the first `min(10, z)` input items, where `z` is the index of the first zero total, or the input length when there is no zero |
| Truncation.TruncateKeeps | sonar-batch/src/main/java/org/sonar/batch/profiling/AbstractTimeProfiling.java:88-97 | input position `j` is kept if and only if `j < 10` and no item up to and including `j` has a zero total; nothing after the first zero is kept |
| Truncation.TruncateWithoutZero | sonar-batch/src/main/java/org/sonar/batch/profiling/AbstractTimeProfiling.java:90 | when the first 10 items are all non-zero, whatever their sign, `min(10, length)` items are kept, so negative totals do not stop the loop |
| Truncation.TruncateExamples | sonar-batch/src/main/java/org/sonar/batch/profiling/AbstractTimeProfiling.java:85-98 | durations 30, 20, 10, 0, 40 give 30, 20, 10; durations 5, -3, 0, 7 give 5, -3; an empty list gives an empty list |
| Truncation.TruncateTwelveKeepsTen | sonar-batch/src/main/java/org/sonar/batch/profiling/AbstractTimeProfiling.java:86-92 | twelve positive durations give exactly the first ten |

## Left out

- `totalTimeAsString` (line 57-59): it delegates to `TimeUtils.formatDuration`. That library is not part of this model.
- The three `println` overloads (lines 100-110): they write console or log output through the static `PhasesSumUpTimeProfiler`. This is I/O and a foreign call.
- `Clock` and the stored clock reference: each `clock.now()` reading is an integer argument of `Start` and `Stop`. No time source is modelled.
- Metric.Stop: computes `now - startTime` on unbounded integers. The Java `long` subtraction can wrap around, and that is not modelled.
- Metric.Add: adds on unbounded integers. The Java `long` addition can wrap around, and that is not modelled. The same holds for `Metric.AddAll`.
- The iteration order of the input `Map`: it is whatever order the caller's map yields. It is taken as the order of the input sequence.
- Java generics and the abstract-class hierarchy (`<G extends AbstractTimeProfiling>`): the model has a single record type, `Profile`. Keys are a generic type `K`.
- A null clock or a null map: these fail fast in Java with a null dereference. Dafny values cannot be null.
- Object identity of records: records and maps are immutable values here. The sort does not mutate its input, as in Java. `add` leaves `other` untouched only when `other` is a different object from the receiver. `p.add(p)` reads and then doubles the total of `p` itself; it is modelled as the `AddSelf` call of `Metric.Run`.
- Metric.AddAll and Metric.AddOrderIrrelevant: the records in `others` are snapshot values, distinct objects from `p`. When `p` is added into itself after another add, Java gives a different result. With totals 1 and 5, `p.add(o); p.add(p)` gives 12 while `p.add(p); p.add(o)` gives 7, as `Metric.SelfAddOrderMatters` shows. So the order of adds does not matter only when no record is added into itself.
- The exact algorithm of `Collections.sort`: it is replaced by a stable insertion sort. `StableSortIsUnique` proves the two give the same result.
