/** Daily activity: segments charged to calendar days. Times are whole seconds. */
module DailyActivity {
  import opened Signals

  /** A detected segment, as far as days are concerned. */
  datatype Activity = Activity(start: int, end: Option<int>)

  /** The segment's end as the day sees it: an ongoing one reaches the end of the day. */
  function EndIn(s: Activity, dayEnd: int): int {
    if s.end.Some? && s.end.value < dayEnd then s.end.value else dayEnd
  }

  predicate Counted(s: Activity, dayStart: int, dayEnd: int) {
    !(dayEnd < s.start || EndIn(s, dayEnd) < dayStart || EndIn(s, dayEnd) <= s.start)
  }

  /** The seconds of a segment charged to a day. */
  function Charged(s: Activity, dayStart: int, dayEnd: int): int {
    if Counted(s, dayStart, dayEnd) then Min(EndIn(s, dayEnd), dayEnd) - Max(s.start, dayStart) else 0
  }

  function ChargedAll(ss: seq<Activity>, dayStart: int, dayEnd: int): int {
    if ss == [] then 0 else ChargedAll(ss[..|ss| - 1], dayStart, dayEnd) + Charged(ss[|ss| - 1], dayStart, dayEnd)
  }

  function CountAll(ss: seq<Activity>, dayStart: int, dayEnd: int): nat {
    if ss == [] then 0
    else CountAll(ss[..|ss| - 1], dayStart, dayEnd) + if Counted(ss[|ss| - 1], dayStart, dayEnd) then 1 else 0
  }

  /** The segments counted on a day. */
  ghost function CountedOnes(ss: seq<Activity>, dayStart: int, dayEnd: int): set<nat> {
    set i: nat | i < |ss| && Counted(ss[i], dayStart, dayEnd)
  }

  lemma {:induction false} CountIsNumber(ss: seq<Activity>, dayStart: int, dayEnd: int)
    ensures CountAll(ss, dayStart, dayEnd) == |CountedOnes(ss, dayStart, dayEnd)|
  {
    if ss != [] {
      var n := |ss| - 1;
      CountIsNumber(ss[..n], dayStart, dayEnd);
      var before, all := CountedOnes(ss[..n], dayStart, dayEnd), CountedOnes(ss, dayStart, dayEnd);
      if Counted(ss[n], dayStart, dayEnd) {
        assert all == before + {n};
      } else {
        assert all == before;
      }
    }
  }

  method DaySegmentStats(ss: seq<Activity>, dayStart: int, dayEnd: int)
    returns (count: nat, activeSeconds: int, first: Option<nat>, last: Option<nat>)
    ensures count == CountAll(ss, dayStart, dayEnd) && activeSeconds == ChargedAll(ss, dayStart, dayEnd)
    ensures count == |CountedOnes(ss, dayStart, dayEnd)|
    ensures first.Some? <==> 0 < count
    ensures first.Some? <==> last.Some?
    ensures first.Some? ==>
              && first.value <= last.value < |ss|
              && Counted(ss[first.value], dayStart, dayEnd) && Counted(ss[last.value], dayStart, dayEnd)
              && forall i: nat :: i < |ss| && Counted(ss[i], dayStart, dayEnd) ==> first.value <= i <= last.value
  {
    count, activeSeconds, first, last := 0, 0, None, None;
    for i := 0 to |ss|
      invariant count == CountAll(ss[..i], dayStart, dayEnd) && activeSeconds == ChargedAll(ss[..i], dayStart, dayEnd)
      invariant (first.Some? <==> 0 < count) && (first.Some? <==> last.Some?)
      invariant first.None? ==> forall k: nat :: k < i ==> !Counted(ss[k], dayStart, dayEnd)
      invariant first.Some? ==>
                  && first.value <= last.value < i
                  && Counted(ss[first.value], dayStart, dayEnd) && Counted(ss[last.value], dayStart, dayEnd)
                  && forall k: nat :: k < i && Counted(ss[k], dayStart, dayEnd) ==> first.value <= k <= last.value
    {
      assert ss[..i + 1][..i] == ss[..i];
      var segEnd := EndIn(ss[i], dayEnd);
      if dayEnd < ss[i].start || segEnd < dayStart || segEnd <= ss[i].start {
        continue;
      }
      count := count + 1;
      activeSeconds := activeSeconds + (Min(segEnd, dayEnd) - Max(ss[i].start, dayStart));
      if first.None? {
        first := Some(i);
      }
      last := Some(i);
    }
    assert ss[..|ss|] == ss;
    CountIsNumber(ss, dayStart, dayEnd);
  }

  // ----- conservation

  /** Day k is [bounds[k], bounds[k + 1]): contiguous calendar days. */
  ghost predicate Days(bounds: seq<int>) {
    0 < |bounds| && forall i, j :: 0 <= i < j < |bounds| ==> bounds[i] < bounds[j]
  }

  /** The seconds of one segment charged over the first `n` days. */
  function OverDays(s: Activity, bounds: seq<int>, n: nat): int
    requires n < |bounds|
  {
    if n == 0 then 0 else OverDays(s, bounds, n - 1) + Charged(s, bounds[n - 1], bounds[n])
  }

  /** The seconds of all segments charged over the first `n` days. */
  function TotalOverDays(ss: seq<Activity>, bounds: seq<int>, n: nat): int
    requires n < |bounds|
  {
    if n == 0 then 0 else TotalOverDays(ss, bounds, n - 1) + ChargedAll(ss, bounds[n - 1], bounds[n])
  }

  /** The segment lies in the range; an ongoing one only has to start there. */
  predicate InRange(s: Activity, from: int, to: int) {
    from <= s.start && (s.end.Some? ==> s.start <= s.end.value <= to)
  }

  /** A segment is charged, over the first days, exactly for the part of it those days cover. */
  lemma {:induction false} SegmentConserved(s: Activity, bounds: seq<int>, n: nat)
    requires Days(bounds) && n < |bounds| && bounds[0] <= s.start && (s.end.Some? ==> s.start <= s.end.value)
    ensures OverDays(s, bounds, n) == Max(0, EndIn(s, bounds[n]) - s.start)
  {
    if n != 0 {
      SegmentConserved(s, bounds, n - 1);
      assert bounds[n - 1] < bounds[n];
    }
  }

  /** The lengths of the segments; one that is ongoing counts to the end of the range. */
  function TotalLength(ss: seq<Activity>, to: int): int {
    if ss == [] then 0
    else
      var s := ss[|ss| - 1];
      TotalLength(ss[..|ss| - 1], to) + if s.end.Some? then s.end.value - s.start else Max(0, to - s.start)
  }

  function SumOverDays(ss: seq<Activity>, bounds: seq<int>, n: nat): int
    requires n < |bounds|
  {
    if ss == [] then 0 else SumOverDays(ss[..|ss| - 1], bounds, n) + OverDays(ss[|ss| - 1], bounds, n)
  }

  lemma {:induction false} DayBySegment(ss: seq<Activity>, bounds: seq<int>, n: nat)
    requires 0 < n < |bounds|
    ensures SumOverDays(ss, bounds, n) == SumOverDays(ss, bounds, n - 1) + ChargedAll(ss, bounds[n - 1], bounds[n])
  {
    if ss != [] {
      DayBySegment(ss[..|ss| - 1], bounds, n);
    }
  }

  lemma {:induction false} NoDays(ss: seq<Activity>, bounds: seq<int>)
    requires 0 < |bounds|
    ensures SumOverDays(ss, bounds, 0) == 0
  {
    if ss != [] {
      NoDays(ss[..|ss| - 1], bounds);
    }
  }

  lemma {:induction false} SumsExchange(ss: seq<Activity>, bounds: seq<int>, n: nat)
    requires n < |bounds|
    ensures TotalOverDays(ss, bounds, n) == SumOverDays(ss, bounds, n)
  {
    if n == 0 {
      NoDays(ss, bounds);
    } else {
      SumsExchange(ss, bounds, n - 1);
      DayBySegment(ss, bounds, n);
    }
  }

  lemma {:induction false} LengthsAreCharged(ss: seq<Activity>, bounds: seq<int>)
    requires Days(bounds) && forall s :: s in ss ==> InRange(s, bounds[0], bounds[|bounds| - 1])
    ensures SumOverDays(ss, bounds, |bounds| - 1) == TotalLength(ss, bounds[|bounds| - 1])
  {
    if ss != [] {
      var front, s := ss[..|ss| - 1], ss[|ss| - 1];
      assert s in ss && forall t :: t in front ==> t in ss;
      LengthsAreCharged(front, bounds);
      SegmentConserved(s, bounds, |bounds| - 1);
    }
  }

  /**
   Conservation: over contiguous days the active seconds of all days add up to the
   lengths of the segments in the range, an ongoing one being charged to the very
   end of the last day.
   */
  lemma ActiveSecondsAreConserved(ss: seq<Activity>, bounds: seq<int>)
    requires Days(bounds) && forall s :: s in ss ==> InRange(s, bounds[0], bounds[|bounds| - 1])
    ensures TotalOverDays(ss, bounds, |bounds| - 1) == TotalLength(ss, bounds[|bounds| - 1])
  {
    SumsExchange(ss, bounds, |bounds| - 1);
    LengthsAreCharged(ss, bounds);
  }

  /** The second [t, t + 1) of a segment is charged to the day. */
  predicate ChargesSecond(s: Activity, dayStart: int, dayEnd: int, t: int) {
    Counted(s, dayStart, dayEnd) && Max(s.start, dayStart) <= t < Min(EndIn(s, dayEnd), dayEnd)
  }

  /** No second is charged to two days, and each second of a segment is charged to the day it falls on. */
  lemma SecondsAreChargedOnce(s: Activity, bounds: seq<int>, i: nat, j: nat, t: int)
    requires Days(bounds) && i + 1 < |bounds| && j + 1 < |bounds|
    ensures ChargesSecond(s, bounds[i], bounds[i + 1], t) && ChargesSecond(s, bounds[j], bounds[j + 1], t) ==> i == j
    ensures bounds[i] <= t < bounds[i + 1] && s.start <= t && (s.end.Some? ==> t < s.end.value) ==>
        ChargesSecond(s, bounds[i], bounds[i + 1], t)
  {
    assert i < j ==> bounds[i + 1] <= bounds[j];
    assert j < i ==> bounds[j + 1] <= bounds[i];
  }

  /**
   A segment is counted on a day on which it is active for no time at all if and
   only if it ends exactly as the day begins.
   */
  lemma CountedWithoutActivityIff(s: Activity, dayStart: int, dayEnd: int)
    requires dayStart < dayEnd && (s.end.Some? ==> s.start < s.end.value)
    ensures Counted(s, dayStart, dayEnd) && Charged(s, dayStart, dayEnd) == 0 <==> s.end == Some(dayStart)
  {
  }
}
