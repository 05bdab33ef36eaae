/** The per-metric state of a time profiler: a start timestamp fixed when the
    profiler is created, and a total duration that `stop`, `setTotalTime` and
    `add` overwrite.

    Each reading of the clock is passed in as an integer. Durations are
    unbounded integers: the 64-bit `long` arithmetic of the Java class
    `AbstractTimeProfiling` is not modelled, so no wrap-around can occur here. */
module Metric {

  /** One profiling record. `startTime` is never rewritten by any operation
      below; `totalTime` is the only mutable part. */
  datatype Profile = Profile(startTime: int, totalTime: int)

  /** Creates a profiler from the clock reading `now`. The total duration
      starts at zero, the default value of an unset `long` field. */
  function Start(now: int): (p: Profile)
    ensures p.startTime == now
    ensures p.totalTime == 0
  {
    Profile(now, 0)
  }

  /** Records the time elapsed since the start, as read at `now`. The previous
      total is discarded, not accumulated. */
  function Stop(p: Profile, now: int): (q: Profile)
    ensures q.startTime == p.startTime
    ensures q.totalTime + p.startTime == now
    ensures now >= p.startTime ==> q.totalTime >= 0
  {
    p.(totalTime := now - p.startTime)
  }

  /** Overwrites the total duration with `value`. */
  function SetTotalTime(p: Profile, value: int): (q: Profile)
    ensures q.startTime == p.startTime
    ensures q.totalTime == value
  {
    p.(totalTime := value)
  }

  /** Adds the total duration of `other` to the one of `p`. `other` is a value
      and so cannot be affected. */
  function Add(p: Profile, other: Profile): (q: Profile)
    ensures q.startTime == p.startTime
    ensures q.totalTime - p.totalTime == other.totalTime
  {
    SetTotalTime(p, p.totalTime + other.totalTime)
  }

  /** The sum of the total durations of `s`. */
  function SumTotal(s: seq<Profile>): int
  {
    if |s| == 0 then 0 else s[0].totalTime + SumTotal(s[1..])
  }

  /** Adds every profiler of `others` into `p`, first to last. */
  function AddAll(p: Profile, others: seq<Profile>): (q: Profile)
    ensures q.startTime == p.startTime
    ensures q.totalTime == p.totalTime + SumTotal(others)
    decreases |others|
  {
    if |others| == 0 then p else AddAll(Add(p, others[0]), others[1..])
  }

  /** One call a caller can make on a profiler after creating it. `AddFrom`
      adds a different profiler, whose total is taken as it is when the call
      is made; `AddSelf` is `p.add(p)`, which reads the total of `p` itself. */
  datatype Op = StopAt(now: int) | SetTotal(value: int) | AddFrom(other: Profile) | AddSelf

  function Apply(p: Profile, op: Op): Profile
  {
    match op
    case StopAt(now) => Stop(p, now)
    case SetTotal(value) => SetTotalTime(p, value)
    case AddFrom(other) => Add(p, other)
    case AddSelf => Add(p, p)
  }

  /** Applies `ops` in order. Whatever the calls, the start time stays the one
      read at construction. */
  function Run(p: Profile, ops: seq<Op>): (q: Profile)
    ensures q.startTime == p.startTime
    ensures |ops| > 0 && ops[|ops| - 1].StopAt? ==> q.totalTime == ops[|ops| - 1].now - p.startTime
    ensures |ops| > 0 && ops[|ops| - 1].SetTotal? ==> q.totalTime == ops[|ops| - 1].value
    decreases |ops|
  {
    if |ops| == 0 then p else Run(Apply(p, ops[0]), ops[1..])
  }

  /** A second `Stop` replaces the first one's result instead of adding to it. */
  lemma StopOverwrites(p: Profile, first: int, second: int)
    ensures Stop(Stop(p, first), second) == Stop(p, second)
    ensures Stop(Stop(p, first), second).totalTime != Stop(p, first).totalTime + Stop(p, second).totalTime
            <== first != p.startTime
  {
  }

  /** Creating at `t0` and stopping at `t1` measures `t1 - t0`. */
  lemma StartStopElapsed(t0: int, t1: int)
    ensures Stop(Start(t0), t1).totalTime == t1 - t0
    ensures Stop(Start(t0), t1).startTime == t0
  {
  }

  /** Two additions commute, and the sum of three totals does not depend on
      how the additions are grouped. */
  lemma AddCommutesAndAssociates(p: Profile, a: Profile, b: Profile)
    ensures Add(Add(p, a), b) == Add(Add(p, b), a)
    ensures Add(Add(p, a), b) == Add(p, Add(a, b))
  {
  }

  lemma {:induction false} SumTotalAppend(a: seq<Profile>, b: seq<Profile>)
    ensures SumTotal(a + b) == SumTotal(a) + SumTotal(b)
    decreases |a|
  {
    if |a| == 0 {
      assert a + b == b;
    } else {
      assert (a + b)[1..] == a[1..] + b;
      SumTotalAppend(a[1..], b);
    }
  }

  /** Taking out the profiler at index `j` takes its total out of the sum. */
  lemma {:induction false} SumTotalRemove(b: seq<Profile>, j: int)
    requires 0 <= j < |b|
    ensures SumTotal(b) == b[j].totalTime + SumTotal(b[..j] + b[j + 1..])
  {
    var pre, post := b[..j], b[j + 1..];
    var tail := [b[j]] + post;
    assert b == pre + tail;
    assert tail[0] == b[j] && tail[1..] == post;
    assert SumTotal(tail) == b[j].totalTime + SumTotal(post);
    SumTotalAppend(pre, tail);
    SumTotalAppend(pre, post);
  }

  lemma {:induction false} MultisetRemove(b: seq<Profile>, j: int)
    requires 0 <= j < |b|
    ensures multiset(b[..j] + b[j + 1..]) == multiset(b) - multiset{b[j]}
  {
    assert b == b[..j] + [b[j]] + b[j + 1..];
  }

  /** The sum of the totals only depends on which profilers are summed, not
      on their order. */
  lemma {:induction false} SumTotalPermutation(a: seq<Profile>, b: seq<Profile>)
    requires multiset(a) == multiset(b)
    ensures SumTotal(a) == SumTotal(b)
    decreases |a|
  {
    if |a| == 0 {
      assert |b| == |multiset(b)| == 0;
    } else {
      assert a[0] in multiset(b);
      var j :| 0 <= j < |b| && b[j] == a[0];
      SumTotalRemove(b, j);
      MultisetRemove(b, j);
      MultisetRemove(a, 0);
      assert a[..0] + a[1..] == a[1..];
      SumTotalPermutation(a[1..], b[..j] + b[j + 1..]);
    }
  }

  /** Adding the same profilers in any order gives the same result. */
  lemma {:induction false} AddOrderIrrelevant(p: Profile, a: seq<Profile>, b: seq<Profile>)
    requires multiset(a) == multiset(b)
    ensures AddAll(p, a) == AddAll(p, b)
  {
    SumTotalPermutation(a, b);
  }

  /** Adding a profiler into itself reads its current total, so once `p.add(p)`
      is among the calls, the order of the additions matters: with totals 1
      and 5, adding `o` and then `p` itself gives 12, the other order gives 7. */
  lemma {:induction false} SelfAddOrderMatters(p: Profile, o: Profile)
    requires p.totalTime == 1 && o.totalTime == 5
    ensures Run(p, [AddFrom(o), AddSelf]).totalTime == 12
    ensures Run(p, [AddSelf, AddFrom(o)]).totalTime == 7
  {
    assert [AddFrom(o), AddSelf][1..] == [AddSelf];
    assert [AddSelf, AddFrom(o)][1..] == [AddFrom(o)];
    assert [AddSelf][1..] == [] && [AddFrom(o)][1..] == [];
    var doubled := Add(p, p);
    assert doubled.totalTime == 2;
    assert Run(p, [AddSelf, AddFrom(o)]) == Run(doubled, [AddFrom(o)]);
    assert Run(doubled, [AddFrom(o)]) == Run(Add(doubled, o), []);
  }
}
