/** Keeping the head of a list of profilers for a report: at most ten
    entries, and nothing from the first zero duration on. */
module Truncation {
  import opened Metric

  /** The largest number of entries a truncated list keeps. */
  const MaxSize: nat := 10

  function Min(a: int, b: int): int
  {
    if a <= b then a else b
  }

  /** The index of the first profiler whose total duration is exactly zero,
      or the length of `items` when there is none. */
  function FirstZero(items: seq<Profile>): (n: nat)
    ensures n <= |items|
    ensures forall j | 0 <= j < n :: items[j].totalTime != 0
    ensures n < |items| ==> items[n].totalTime == 0
  {
    if |items| == 0 then 0
    else if items[0].totalTime == 0 then 0
    else 1 + FirstZero(items[1..])
  }

  /** The loop of `truncate`, resumed after `count` items have been taken.
      Each step first checks the count against `MaxSize` and then the item
      against zero; either check ends the loop. */
  function TruncateFrom(items: seq<Profile>, count: nat): (r: seq<Profile>)
    ensures |r| <= |items| && r == items[..|r|]
    ensures count + |r| <= MaxSize || |r| == 0
    ensures forall j | 0 <= j < |r| :: r[j].totalTime != 0
    decreases |items|
  {
    if |items| == 0 then []
    else if count >= MaxSize || items[0].totalTime == 0 then []
    else
      var rest := TruncateFrom(items[1..], count + 1);
      assert items[1..][..|rest|] == items[1..|rest| + 1];
      [items[0]] + rest
  }

  /** `truncate`: the longest prefix of `sortedList` that has at most
      `MaxSize` entries and no zero duration. */
  function Truncate(sortedList: seq<Profile>): (r: seq<Profile>)
    ensures |r| <= MaxSize && |r| <= |sortedList|
    ensures r == sortedList[..|r|]
    ensures forall j | 0 <= j < |r| :: r[j].totalTime != 0
  {
    TruncateFrom(sortedList, 0)
  }

  lemma {:induction false} TruncateFromLength(items: seq<Profile>, count: nat)
    ensures |TruncateFrom(items, count)| == Min(if count <= MaxSize then MaxSize - count else 0, FirstZero(items))
    decreases |items|
  {
    if |items| > 0 && count < MaxSize && items[0].totalTime != 0 {
      TruncateFromLength(items[1..], count + 1);
    }
  }

  /** The stop rule: the result is the first `min(10, z)` items, where `z` is
      the index of the first zero duration (or the length when there is
      none). */
  lemma {:induction false} TruncateStopRule(sortedList: seq<Profile>)
    ensures Truncate(sortedList) == sortedList[..Min(MaxSize, FirstZero(sortedList))]
  {
    TruncateFromLength(sortedList, 0);
  }

  /** Position `j` of the input is kept exactly when it is among the first
      `MaxSize` positions and neither it nor any earlier item has a zero
      duration. In particular nothing after the first zero is ever kept, and
      negative durations are kept like positive ones. */
  lemma {:induction false} TruncateKeeps(sortedList: seq<Profile>, j: int)
    requires 0 <= j < |sortedList|
    ensures j < |Truncate(sortedList)|
            <==> j < MaxSize && forall i | 0 <= i <= j :: sortedList[i].totalTime != 0
  {
    TruncateStopRule(sortedList);
    var z := FirstZero(sortedList);
    if j >= z {
      assert sortedList[z].totalTime == 0;
    }
  }

  /** When the first `MaxSize` items all have a non-zero duration, whatever
      their sign, exactly that many items (or all of them) are kept. */
  lemma {:induction false} TruncateWithoutZero(sortedList: seq<Profile>)
    requires forall j | 0 <= j < Min(MaxSize, |sortedList|) :: sortedList[j].totalTime != 0
    ensures |Truncate(sortedList)| == Min(MaxSize, |sortedList|)
  {
    TruncateStopRule(sortedList);
    var z := FirstZero(sortedList);
    if z < Min(MaxSize, |sortedList|) {
      assert sortedList[z].totalTime == 0;
    }
  }

  /** The stop rule on concrete lists. */
  lemma {:induction false} TruncateExamples()
    // a zero ends the list even though a longer duration follows it
    ensures Truncate([Profile(0, 30), Profile(0, 20), Profile(0, 10), Profile(0, 0), Profile(0, 40)])
            == [Profile(0, 30), Profile(0, 20), Profile(0, 10)]
    // a negative duration is kept like a positive one
    ensures Truncate([Profile(0, 5), Profile(0, -3), Profile(0, 0), Profile(0, 7)])
            == [Profile(0, 5), Profile(0, -3)]
    ensures Truncate([]) == []
  {
    var s := [Profile(0, 30), Profile(0, 20), Profile(0, 10), Profile(0, 0), Profile(0, 40)];
    TruncateStopRule(s);
    assert FirstZero(s) == 3 by {
      assert s[3].totalTime == 0;
    }
    var t := [Profile(0, 5), Profile(0, -3), Profile(0, 0), Profile(0, 7)];
    TruncateStopRule(t);
    assert FirstZero(t) == 2 by {
      assert t[2].totalTime == 0;
    }
  }

  /** Twelve positive durations keep the first ten. */
  lemma {:induction false} TruncateTwelveKeepsTen(s: seq<Profile>)
    requires |s| == 12 && forall j | 0 <= j < |s| :: s[j].totalTime > 0
    ensures Truncate(s) == s[..10]
  {
    TruncateWithoutZero(s);
  }
}
