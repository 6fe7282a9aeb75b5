/** Ignition detection: noise filtering and debounced segments. */
module Ignition {
  import opened Signals
  import opened TimeRanges
  import opened Segments

  datatype StateChange = StateChange(ts: int, newState: int, prevState: int) {
    predicate On() { newState == 1 }
    predicate Off() { newState == 0 }
  }

  ghost predicate TimeOrdered(cs: seq<StateChange>) {
    forall i, j :: 0 <= i < j < |cs| ==> cs[i].ts <= cs[j].ts
  }

  /** The naive rule: an OFF is noise when some later ON comes less than `minIdle` after it. */
  ghost predicate Noise(cs: seq<StateChange>, i: nat, minIdle: int)
    requires i < |cs|
  {
    cs[i].Off() && exists j :: i < j < |cs| && cs[j].On() && cs[j].ts - cs[i].ts < minIdle
  }

  ghost predicate Kept(cs: seq<StateChange>, i: nat, minIdle: int)
    requires i < |cs|
  {
    cs[i].On() || (cs[i].Off() && !Noise(cs, i, minIdle))
  }

  /** The indices kept among the first `n`, in order. */
  ghost function KeptIndices(cs: seq<StateChange>, n: nat, minIdle: int): seq<nat>
    requires n <= |cs|
  {
    if n == 0 then [] else KeptIndices(cs, n - 1, minIdle) + if Kept(cs, n - 1, minIdle) then [n - 1] else []
  }

  lemma {:induction false} KeptIndicesAre(cs: seq<StateChange>, n: nat, minIdle: int)
    requires n <= |cs|
    ensures forall i: nat :: i in KeptIndices(cs, n, minIdle) <==> i < n && Kept(cs, i, minIdle)
    ensures forall a, b :: 0 <= a < b < |KeptIndices(cs, n, minIdle)| ==>
        KeptIndices(cs, n, minIdle)[a] < KeptIndices(cs, n, minIdle)[b]
  {
    if n != 0 {
      KeptIndicesAre(cs, n - 1, minIdle);
      var front := KeptIndices(cs, n - 1, minIdle);
      assert forall a :: 0 <= a < |front| ==> front[a] in front;
    }
  }

  /** `j` is the first ON at or after `i`, or -1. */
  ghost predicate NextOn(cs: seq<StateChange>, i: nat, j: int)
    requires i < |cs|
  {
    if j == -1 then forall k :: i <= k < |cs| ==> !cs[k].On()
    else i <= j < |cs| && cs[j].On() && forall k :: i <= k < j ==> !cs[k].On()
  }

  /** In time order the first later ON decides whether an OFF is noise. */
  lemma NoiseByNextOn(cs: seq<StateChange>, i: nat, j: int, minIdle: int)
    requires TimeOrdered(cs) && i < |cs| && cs[i].Off() && NextOn(cs, i, j)
    ensures Noise(cs, i, minIdle) <==> i < j && cs[j].ts - cs[i].ts < minIdle
  {
    if k :| i < k < |cs| && cs[k].On() && cs[k].ts - cs[i].ts < minIdle {
      assert j != -1 && j <= k;
    }
  }

  /** One reverse pass finds the next ON of every position; one forward pass keeps what the naive rule keeps. */
  method FilterNoise(cs: seq<StateChange>, minIdle: int) returns (filtered: seq<StateChange>, ghost idx: seq<nat>)
    requires TimeOrdered(cs)
    ensures idx == KeptIndices(cs, |cs|, minIdle)
    ensures |filtered| == |KeptIndices(cs, |cs|, minIdle)|
    ensures forall k :: 0 <= k < |filtered| ==>
              var i := KeptIndices(cs, |cs|, minIdle)[k];
              i < |cs| && filtered[k] == cs[i]
  {
    var n := |cs|;
    var nextOn := new int[n](_ => -1);
    var lastOn, i := -1, n;
    while 0 < i
      invariant 0 <= i <= n
      invariant if i == n then lastOn == -1 else NextOn(cs, i, lastOn)
      invariant forall k :: i <= k < n ==> NextOn(cs, k, nextOn[k])
    {
      i := i - 1;
      if cs[i].On() {
        lastOn := i;
      }
      nextOn[i] := lastOn;
    }
    filtered, idx := [], [];
    for p := 0 to n
      invariant forall k :: 0 <= k < n ==> NextOn(cs, k, nextOn[k])
      invariant idx == KeptIndices(cs, p, minIdle)
      invariant |filtered| == |idx| && forall k :: 0 <= k < |idx| ==> idx[k] < n && filtered[k] == cs[idx[k]]
    {
      var keep := cs[p].On();
      if cs[p].Off() {
        var j := nextOn[p];
        NoiseByNextOn(cs, p, j, minIdle);
        keep := !(p < j && cs[j].ts - cs[p].ts < minIdle);
      }
      if keep {
        filtered, idx := filtered + [cs[p]], idx + [p];
      }
    }
  }

  // ----- building segments

  /** Detection parameters; the query range only marks and measures segments. */
  datatype Params = Params(from: int, to: int, minIdle: int, minDuration: int)

  /**
   A segment with the indices of the changes that open and close it; `off` is the
   length of the list while ongoing.
   */
  datatype Trip = Trip(on: nat, off: nat)

  predicate Opens(c: StateChange) {
    c.On() && c.prevState != 1
  }

  function EndOf(cs: seq<StateChange>, off: nat, q: Params): int {
    if off < |cs| then cs[off].ts else q.to
  }

  function SegmentOfTrip(cs: seq<StateChange>, t: Trip, q: Params): Segment
    requires t.on < |cs|
  {
    var start, end := cs[t.on].ts, EndOf(cs, t.off, q);
    Segment(start, if t.off < |cs| then Some(end) else None, Seconds(end - start), t.off == |cs|, start < q.from)
  }

  predicate LongEnough(cs: seq<StateChange>, t: Trip, q: Params) {
    t.on < |cs| && q.minDuration <= Seconds(EndOf(cs, t.off, q) - cs[t.on].ts)
  }

  /** `off` is the first OFF after `i` that is not noise, or the end of the list. */
  ghost predicate Closes(cs: seq<StateChange>, i: nat, off: nat, minIdle: int) {
    && i < off <= |cs|
    && (forall k :: i < k < off && cs[k].Off() ==> Noise(cs, k, minIdle))
    && (off < |cs| ==> cs[off].Off() && !Noise(cs, off, minIdle))
  }

  /** A trip opens at a real ON, runs to its closing OFF and is long enough. */
  ghost predicate IsTrip(cs: seq<StateChange>, t: Trip, q: Params) {
    t.on < |cs| && Opens(cs[t.on]) && Closes(cs, t.on, t.off, q.minIdle) && LongEnough(cs, t, q)
  }

  ghost predicate Follow(ts: seq<Trip>) {
    forall a, b :: 0 <= a < b < |ts| ==> ts[a].off < ts[b].on
  }

  /** The opening ON at `i` is accounted for: its closing OFF came too soon, or a trip covers it up to there. */
  ghost predicate Accounted(cs: seq<StateChange>, ts: seq<Trip>, i: nat, q: Params) {
    exists off: nat :: Closes(cs, i, off, q.minIdle) && (LongEnough(cs, Trip(i, off), q) ==> CoveredBy(ts, i, off))
  }

  ghost predicate CoveredBy(ts: seq<Trip>, i: nat, off: nat) {
    exists t :: t in ts && t.on <= i && t.off == off
  }

  // ----- the debouncing pass, change by change

  datatype Scan = Scan(trips: seq<Trip>, open: Option<nat>)

  ghost function ScanStep(cs: seq<StateChange>, s: Scan, p: nat, q: Params): Scan
    requires p < |cs|
  {
    if cs[p].On() then (if s.open.None? && cs[p].prevState != 1 then s.(open := Some(p)) else s)
    else if Kept(cs, p, q.minIdle) && s.open.Some? then
      Scan(if LongEnough(cs, Trip(s.open.value, p), q) then s.trips + [Trip(s.open.value, p)] else s.trips, None)
    else s
  }

  ghost function ScanTo(cs: seq<StateChange>, p: nat, q: Params): Scan
    requires p <= |cs|
  {
    if p == 0 then Scan([], None) else ScanStep(cs, ScanTo(cs, p - 1, q), p - 1, q)
  }

  /** All trips: those closed in the list, and the one still open at its end. */
  ghost function Trips(cs: seq<StateChange>, q: Params): seq<Trip> {
    var s := ScanTo(cs, |cs|, q);
    if s.open.None? || !LongEnough(cs, Trip(s.open.value, |cs|), q) then s.trips
    else s.trips + [Trip(s.open.value, |cs|)]
  }

  ghost predicate ScanInvariant(cs: seq<StateChange>, s: Scan, p: nat, q: Params)
    requires p <= |cs|
  {
    && (forall t :: t in s.trips ==> IsTrip(cs, t, q) && t.off < p)
    && Follow(s.trips)
    && (s.open.Some? ==>
          && s.open.value < p && Opens(cs[s.open.value])
          && (forall k :: s.open.value < k < p && cs[k].Off() ==> Noise(cs, k, q.minIdle))
          && forall t :: t in s.trips ==> t.off < s.open.value)
    && (forall i: nat {:trigger Accounted(cs, s.trips, i, q)} :: i < p && Opens(cs[i]) ==>
        (s.open.Some? && s.open.value <= i) || Accounted(cs, s.trips, i, q))
  }

  lemma MoreTrips(cs: seq<StateChange>, ts: seq<Trip>, t: Trip, i: nat, q: Params)
    requires Accounted(cs, ts, i, q)
    ensures Accounted(cs, ts + [t], i, q)
  {
    var off: nat :| Closes(cs, i, off, q.minIdle) && (LongEnough(cs, Trip(i, off), q) ==> CoveredBy(ts, i, off));
    assert CoveredBy(ts, i, off) ==> CoveredBy(ts + [t], i, off);
  }

  /** Closing the open trip accounts for every opening ON inside it. */
  lemma ClosingAccounts(cs: seq<StateChange>, ts: seq<Trip>, on: nat, off: nat, i: nat, q: Params)
    requires TimeOrdered(cs) && on <= i < off && i < |cs| && Closes(cs, on, off, q.minIdle)
    ensures Accounted(cs, if LongEnough(cs, Trip(on, off), q) then ts + [Trip(on, off)] else ts, i, q)
  {
    var ts' := if LongEnough(cs, Trip(on, off), q) then ts + [Trip(on, off)] else ts;
    assert Closes(cs, i, off, q.minIdle);
    if LongEnough(cs, Trip(i, off), q) {
      LongerTrip(cs, on, i, off, q);
      assert Trip(on, off) in ts';
      assert CoveredBy(ts', i, off);
    }
  }

  lemma LongerTrip(cs: seq<StateChange>, on: nat, i: nat, off: nat, q: Params)
    requires TimeOrdered(cs) && on <= i < |cs| && LongEnough(cs, Trip(i, off), q)
    ensures LongEnough(cs, Trip(on, off), q)
  {
    SecondsMonotone(EndOf(cs, off, q) - cs[i].ts, EndOf(cs, off, q) - cs[on].ts);
  }

  lemma SecondsMonotone(a: int, b: int)
    requires a <= b
    ensures Seconds(a) <= Seconds(b)
  {
  }

  lemma CloseStep(cs: seq<StateChange>, s: Scan, p: nat, q: Params)
    requires TimeOrdered(cs) && p < |cs| && ScanInvariant(cs, s, p, q)
    requires cs[p].Off() && Kept(cs, p, q.minIdle) && s.open.Some?
    ensures ScanInvariant(cs, ScanStep(cs, s, p, q), p + 1, q)
  {
    var on, s' := s.open.value, ScanStep(cs, s, p, q);
    assert Closes(cs, on, p, q.minIdle);
    forall i: nat | i < p + 1 && Opens(cs[i]) ensures Accounted(cs, s'.trips, i, q) {
      if on <= i {
        ClosingAccounts(cs, s.trips, on, p, i, q);
      } else if LongEnough(cs, Trip(on, p), q) {
        MoreTrips(cs, s.trips, Trip(on, p), i, q);
      }
    }
  }

  lemma OpenStep(cs: seq<StateChange>, s: Scan, p: nat, q: Params)
    requires p < |cs| && ScanInvariant(cs, s, p, q) && s.open.None? && Opens(cs[p])
    ensures ScanInvariant(cs, s.(open := Some(p)), p + 1, q)
  {
    forall i: nat | i < p && Opens(cs[i]) ensures Accounted(cs, s.trips, i, q) {
    }
  }

  lemma StandStill(cs: seq<StateChange>, s: Scan, p: nat, q: Params)
    requires p < |cs| && ScanInvariant(cs, s, p, q)
    requires s.open.Some? && cs[p].Off() ==> Noise(cs, p, q.minIdle)
    requires s.open.None? ==> !Opens(cs[p])
    ensures ScanInvariant(cs, s, p + 1, q)
  {
    forall i: nat | i < p + 1 && Opens(cs[i])
        ensures (s.open.Some? && s.open.value <= i) || Accounted(cs, s.trips, i, q) {
      if i == p {
        assert s.open.Some?;
      }
    }
  }

  lemma {:induction false} ScanKeepsInvariant(cs: seq<StateChange>, p: nat, q: Params)
    requires TimeOrdered(cs) && p <= |cs|
    ensures ScanInvariant(cs, ScanTo(cs, p, q), p, q)
  {
    if p != 0 {
      ScanKeepsInvariant(cs, p - 1, q);
      var s := ScanTo(cs, p - 1, q);
      if cs[p - 1].Off() && Kept(cs, p - 1, q.minIdle) && s.open.Some? {
        CloseStep(cs, s, p - 1, q);
      } else if s.open.None? && Opens(cs[p - 1]) {
        OpenStep(cs, s, p - 1, q);
      } else {
        StandStill(cs, s, p - 1, q);
      }
    }
  }

  /**
   Every reported trip runs from a real ON to the first OFF that is not noise, the
   trips follow one another, only the last can be ongoing, and no opening ON with a
   long enough stretch to its closing OFF is left out.
   */
  lemma TripsAreDebounced(cs: seq<StateChange>, q: Params)
    requires TimeOrdered(cs)
    ensures forall t :: t in Trips(cs, q) ==> IsTrip(cs, t, q)
    ensures Follow(Trips(cs, q))
    ensures forall k :: 0 <= k < |Trips(cs, q)| && Trips(cs, q)[k].off == |cs| ==> k == |Trips(cs, q)| - 1
    ensures forall i: nat :: i < |cs| && Opens(cs[i]) ==> Accounted(cs, Trips(cs, q), i, q)
  {
    var s, ts := ScanTo(cs, |cs|, q), Trips(cs, q);
    ScanKeepsInvariant(cs, |cs|, q);
    if s.open.Some? {
      var on := s.open.value;
      assert Closes(cs, on, |cs|, q.minIdle);
      forall i: nat | i < |cs| && Opens(cs[i]) ensures Accounted(cs, ts, i, q) {
        if on <= i {
          ClosingAccounts(cs, s.trips, on, |cs|, i, q);
        } else if LongEnough(cs, Trip(on, |cs|), q) {
          MoreTrips(cs, s.trips, Trip(on, |cs|), i, q);
        }
      }
    }
    forall k | 0 <= k < |s.trips| ensures s.trips[k].off < |cs| {
      assert s.trips[k] in s.trips;
    }
  }

  /** Consecutive segments are at least `minIdle` apart, hence ordered and disjoint. */
  lemma SegmentsAreApart(cs: seq<StateChange>, q: Params, a: nat, b: nat)
    requires TimeOrdered(cs) && a < b < |Trips(cs, q)|
    ensures
      var s, t := Trips(cs, q)[a], Trips(cs, q)[b];
      s.off < t.on < |cs| && q.minIdle <= cs[t.on].ts - cs[s.off].ts
  {
    TripsAreDebounced(cs, q);
    var s, t := Trips(cs, q)[a], Trips(cs, q)[b];
    assert s in Trips(cs, q) && t in Trips(cs, q);
    assert IsTrip(cs, s, q) && IsTrip(cs, t, q);
    assert !Noise(cs, s.off, q.minIdle);
  }

  /** An OFF strictly inside a segment is followed by an ON in less than `minIdle`. */
  lemma InnerOffsAreNoise(cs: seq<StateChange>, q: Params, a: nat, k: nat)
    requires TimeOrdered(cs) && a < |Trips(cs, q)| && k < |cs| && cs[k].Off()
    requires
      var t := Trips(cs, q)[a];
      t.on < |cs| && cs[t.on].ts < cs[k].ts && (t.off < |cs| ==> cs[k].ts < cs[t.off].ts)
    ensures exists j :: k < j < |cs| && cs[j].On() && cs[j].ts - cs[k].ts < q.minIdle
  {
    TripsAreDebounced(cs, q);
    var t := Trips(cs, q)[a];
    assert t in Trips(cs, q) && IsTrip(cs, t, q);
    assert t.on < k < t.off;
    assert Noise(cs, k, q.minIdle);
  }

  // ----- the method over the filtered list

  lemma {:induction false} ScanSkips(cs: seq<StateChange>, a: nat, b: nat, q: Params)
    requires a <= b <= |cs| && forall j :: a <= j < b ==> !Kept(cs, j, q.minIdle)
    ensures ScanTo(cs, b, q) == ScanTo(cs, a, q)
  {
    if a < b {
      ScanSkips(cs, a, b - 1, q);
      assert !Kept(cs, b - 1, q.minIdle);
    }
  }

  /** Between two consecutive kept indices the scan stands still. */
  lemma ToNextKept(cs: seq<StateChange>, idx: seq<nat>, k: nat, q: Params)
    requires idx == KeptIndices(cs, |cs|, q.minIdle) && k <= |idx|
    ensures var a := if k == 0 then 0 else idx[k - 1] + 1;
            var b := if k == |idx| then |cs| else idx[k];
            a <= b <= |cs| && ScanTo(cs, b, q) == ScanTo(cs, a, q)
  {
    KeptIndicesAre(cs, |cs|, q.minIdle);
    var a := if k == 0 then 0 else idx[k - 1] + 1;
    var b := if k == |idx| then |cs| else idx[k];
    assert 0 < k ==> idx[k - 1] in idx;
    assert k < |idx| ==> idx[k] in idx;
    forall j | a <= j < b ensures !Kept(cs, j, q.minIdle) {
      NotBetween(idx, k, j);
    }
    ScanSkips(cs, a, b, q);
  }

  lemma NotBetween(idx: seq<nat>, k: nat, j: nat)
    requires k <= |idx| && forall a, b :: 0 <= a < b < |idx| ==> idx[a] < idx[b]
    requires (0 < k ==> idx[k - 1] < j) && (k < |idx| ==> j < idx[k])
    ensures j !in idx
  {
    forall m | 0 <= m < |idx| ensures idx[m] != j {
      if m < k {
        assert idx[m] <= idx[k - 1];
      } else {
        assert idx[k] <= idx[m];
      }
    }
  }

  ghost function SegmentsOfTrips(cs: seq<StateChange>, ts: seq<Trip>, q: Params): seq<Segment>
    requires forall t :: t in ts ==> t.on < |cs|
  {
    seq(|ts|, k requires 0 <= k < |ts| => assert ts[k] in ts; SegmentOfTrip(cs, ts[k], q))
  }

  /** The loop variables stand for the scan state: the segments of its trips and the start of its open one. */
  ghost predicate Represents(cs: seq<StateChange>, s: Scan, segments: seq<Segment>, current: Option<int>, q: Params) {
    && (forall t :: t in s.trips ==> t.on < |cs|)
    && segments == SegmentsOfTrips(cs, s.trips, q)
    && (s.open.Some? ==> s.open.value < |cs|)
    && current == if s.open.Some? then Some(cs[s.open.value].ts) else None
  }

  lemma EmitTrip(cs: seq<StateChange>, ts: seq<Trip>, t: Trip, q: Params)
    requires (forall u :: u in ts ==> u.on < |cs|) && t.on < |cs|
    ensures forall u :: u in ts + [t] ==> u.on < |cs|
    ensures SegmentsOfTrips(cs, ts + [t], q) == SegmentsOfTrips(cs, ts, q) + [SegmentOfTrip(cs, t, q)]
  {
  }

  /** One kept change: open at a real ON, close at an OFF. */
  method HandleChange(sc: StateChange, segments: seq<Segment>, current: Option<int>, q: Params,
      ghost cs: seq<StateChange>, ghost s: Scan, ghost p: nat)
    returns (segs: seq<Segment>, cur: Option<int>)
    requires p < |cs| && sc == cs[p] && Kept(cs, p, q.minIdle) && Represents(cs, s, segments, current, q)
    ensures Represents(cs, ScanStep(cs, s, p, q), segs, cur, q)
  {
    segs, cur := segments, current;
    if sc.On() {
      if current.None? && sc.prevState != 1 {
        cur := Some(sc.ts);
      }
    } else if sc.Off() && current.Some? {
      var duration := Seconds(sc.ts - current.value);
      if q.minDuration <= duration {
        EmitTrip(cs, s.trips, Trip(s.open.value, p), q);
        segs := segs + [Segment(current.value, Some(sc.ts), duration, false, current.value < q.from)];
      }
      cur := None;
    }
  }

  lemma KeptAt(cs: seq<StateChange>, idx: seq<nat>, k: nat, minIdle: int)
    requires idx == KeptIndices(cs, |cs|, minIdle) && k < |idx|
    ensures idx[k] < |cs| && Kept(cs, idx[k], minIdle)
  {
    KeptIndicesAre(cs, |cs|, minIdle);
    assert idx[k] in idx;
  }

  /** The second pass, over the changes the filter kept. */
  method ScanFiltered(filtered: seq<StateChange>, q: Params, ghost cs: seq<StateChange>, ghost idx: seq<nat>)
    returns (segments: seq<Segment>, current: Option<int>)
    requires idx == KeptIndices(cs, |cs|, q.minIdle) && |filtered| == |idx|
    requires forall k :: 0 <= k < |idx| ==> idx[k] < |cs| && filtered[k] == cs[idx[k]]
    ensures Represents(cs, ScanTo(cs, |cs|, q), segments, current, q)
  {
    segments, current := [], None;
    ghost var s := Scan([], None);
    for k := 0 to |filtered|
      invariant s == ScanTo(cs, if k == 0 then 0 else idx[k - 1] + 1, q)
      invariant Represents(cs, s, segments, current, q)
    {
      ToNextKept(cs, idx, k, q);
      KeptAt(cs, idx, k, q.minIdle);
      segments, current := HandleChange(filtered[k], segments, current, q, cs, s, idx[k]);
      s := ScanStep(cs, s, idx[k], q);
    }
    ToNextKept(cs, idx, |idx|, q);
  }

  // ----- the laws of the returned list

  /** The segment runs from the opening ON at `on` to its closing OFF at `off`, or on past the list's end. */
  ghost predicate Reported(cs: seq<StateChange>, seg: Segment, on: nat, off: nat, q: Params) {
    && on < |cs| && cs[on].newState == 1 && cs[on].prevState != 1 && Closes(cs, on, off, q.minIdle)
    && seg.start == cs[on].ts && (seg.startedBefore <==> cs[on].ts < q.from) && q.minDuration <= seg.duration
    && if off < |cs| then
         && cs[off].newState == 0 && !seg.ongoing
         && seg.end == Some(cs[off].ts) && seg.duration == Seconds(cs[off].ts - cs[on].ts)
       else
         seg.ongoing && seg.end == None && seg.duration == Seconds(q.to - cs[on].ts)
  }

  ghost predicate IsReported(cs: seq<StateChange>, seg: Segment, q: Params) {
    exists on: nat, off: nat :: Reported(cs, seg, on, off, q)
  }

  /** Each segment is one of those, they are at least `minIdle` apart, and only the last has no end. */
  ghost predicate WellReported(cs: seq<StateChange>, segments: seq<Segment>, q: Params) {
    && (forall k :: 0 <= k < |segments| ==> IsReported(cs, segments[k], q))
    && forall a, b :: 0 <= a < b < |segments| ==>
         segments[a].end.Some? && segments[a].end.value + q.minIdle <= segments[b].start
  }

  /** Some segment contains the time `start` and ends where the change at `off` says. */
  ghost predicate Covers(cs: seq<StateChange>, segments: seq<Segment>, start: int, off: nat) {
    exists k :: 0 <= k < |segments| && segments[k].start <= start &&
                segments[k].end == if off < |cs| then Some(cs[off].ts) else None
  }

  /** The stretch from the ON at `i` to its closing OFF, or to the query's end, is too short or covered. */
  ghost predicate Settled(cs: seq<StateChange>, segments: seq<Segment>, i: nat, off: nat, q: Params) {
    && i < |cs| && Closes(cs, i, off, q.minIdle)
    && var end := if off < |cs| then cs[off].ts else q.to;
       q.minDuration <= Seconds(end - cs[i].ts) ==> Covers(cs, segments, cs[i].ts, off)
  }

  ghost predicate IsSettled(cs: seq<StateChange>, segments: seq<Segment>, i: nat, q: Params) {
    exists off: nat :: Settled(cs, segments, i, off, q)
  }

  /** No opening ON is left out whose stretch is long enough. */
  ghost predicate NoneLeftOut(cs: seq<StateChange>, segments: seq<Segment>, q: Params) {
    forall i: nat {:trigger IsSettled(cs, segments, i, q)} ::
      i < |cs| && cs[i].newState == 1 && cs[i].prevState != 1 ==> IsSettled(cs, segments, i, q)
  }

  lemma TripsAreReported(cs: seq<StateChange>, q: Params, segments: seq<Segment>)
    requires TimeOrdered(cs) && forall t :: t in Trips(cs, q) ==> t.on < |cs|
    requires segments == SegmentsOfTrips(cs, Trips(cs, q), q)
    ensures WellReported(cs, segments, q)
  {
    var ts := Trips(cs, q);
    TripsAreDebounced(cs, q);
    forall k | 0 <= k < |segments| ensures IsReported(cs, segments[k], q) {
      assert ts[k] in ts;
      assert Reported(cs, segments[k], ts[k].on, ts[k].off, q);
    }
    forall a, b | 0 <= a < b < |segments|
      ensures segments[a].end.Some? && segments[a].end.value + q.minIdle <= segments[b].start
    {
      assert ts[a] in ts && ts[b] in ts;
      SegmentsAreApart(cs, q, a, b);
    }
  }

  /** A trip over an opening ON is a segment over it. */
  lemma TripCovers(cs: seq<StateChange>, q: Params, ts: seq<Trip>, segments: seq<Segment>, i: nat, k: nat)
    requires TimeOrdered(cs) && (forall t :: t in ts ==> t.on < |cs|) && segments == SegmentsOfTrips(cs, ts, q)
    requires k < |ts| && ts[k].on <= i < |cs| && ts[k].off <= |cs|
    ensures Covers(cs, segments, cs[i].ts, ts[k].off)
  {
    assert ts[k] in ts;
    assert segments[k].start <= cs[i].ts;
  }

  lemma OpeningIsSettled(cs: seq<StateChange>, q: Params, ts: seq<Trip>, segments: seq<Segment>, i: nat)
    requires TimeOrdered(cs) && (forall t :: t in ts ==> t.on < |cs|) && segments == SegmentsOfTrips(cs, ts, q)
    requires i < |cs| && Accounted(cs, ts, i, q)
    ensures IsSettled(cs, segments, i, q)
  {
    var off: nat :| Closes(cs, i, off, q.minIdle) && (LongEnough(cs, Trip(i, off), q) ==> CoveredBy(ts, i, off));
    if LongEnough(cs, Trip(i, off), q) {
      var t :| t in ts && t.on <= i && t.off == off;
      var k :| 0 <= k < |ts| && ts[k] == t;
      TripCovers(cs, q, ts, segments, i, k);
    }
    assert Settled(cs, segments, i, off, q);
  }

  lemma TripsLeaveNoneOut(cs: seq<StateChange>, q: Params, segments: seq<Segment>)
    requires TimeOrdered(cs) && forall t :: t in Trips(cs, q) ==> t.on < |cs|
    requires segments == SegmentsOfTrips(cs, Trips(cs, q), q)
    ensures NoneLeftOut(cs, segments, q)
  {
    var ts := Trips(cs, q);
    forall i: nat | i < |cs| && cs[i].newState == 1 && cs[i].prevState != 1 ensures IsSettled(cs, segments, i, q) {
      assert Accounted(cs, ts, i, q) by { TripsAreDebounced(cs, q); }
      OpeningIsSettled(cs, q, ts, segments, i);
    }
  }

  /**
   Two passes: filter the noise, then build the segments from what is left; an open one
   is reported as ongoing.
   */
  method BuildSegmentsWithDebouncing(cs: seq<StateChange>, q: Params) returns (segments: seq<Segment>)
    requires TimeOrdered(cs)
    ensures forall t :: t in Trips(cs, q) ==> t.on < |cs|
    ensures segments == SegmentsOfTrips(cs, Trips(cs, q), q)
    ensures WellReported(cs, segments, q) && NoneLeftOut(cs, segments, q)
  {
    segments := BuildTrips(cs, q);
    TripsAreReported(cs, q, segments);
    TripsLeaveNoneOut(cs, q, segments);
  }

  method BuildTrips(cs: seq<StateChange>, q: Params) returns (segments: seq<Segment>)
    requires TimeOrdered(cs)
    ensures forall t :: t in Trips(cs, q) ==> t.on < |cs|
    ensures segments == SegmentsOfTrips(cs, Trips(cs, q), q)
  {
    var filtered, current;
    ghost var idx;
    filtered, idx := FilterNoise(cs, q.minIdle);
    segments, current := ScanFiltered(filtered, q, cs, idx);
    ghost var s := ScanTo(cs, |cs|, q);
    if current.Some? {
      var duration := Seconds(q.to - current.value);
      if q.minDuration <= duration {
        EmitTrip(cs, s.trips, Trip(s.open.value, |cs|), q);
        segments := segments + [Segment(current.value, None, duration, true, current.value < q.from)];
      }
    }
  }
}
