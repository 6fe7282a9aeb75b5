/** Activity windows merged into segments, as the frequency and change-point detectors report them. */
module Segments {
  import opened Signals
  import opened Sorting
  import opened TimeRanges

  datatype ActiveWindow = ActiveWindow(start: int, end: int, signalCount: nat, distinctCount: nat)

  /** `end` is absent while the segment is ongoing. */
  datatype Segment = Segment(start: int, end: Option<int>, duration: int, ongoing: bool, startedBefore: bool)

  /** The query and the clock of one detection; the gap and the minimum duration are in seconds. */
  datatype Query = Query(from: int, to: int, now: int, maxGap: int, minDuration: int)

  function Clamped(windows: seq<ActiveWindow>, to: int): seq<Range> {
    seq(|windows|, i requires 0 <= i < |windows| =>
      Range(windows[i].start, if to < windows[i].end then to else windows[i].end))
  }

  /** The segment of one merged run; the last may be ongoing, and is then dropped if too short. */
  function SegmentOf(tr: Range, isLast: bool, q: Query): Option<Segment> {
    var gap := q.maxGap * SECOND;
    if isLast && q.to - tr.end <= gap && q.now - q.to <= gap then
      var d := Seconds(q.to - tr.start);
      if q.minDuration <= d then Some(Segment(tr.start, None, d, true, tr.start <= q.from)) else None
    else Some(Segment(tr.start, Some(tr.end), Seconds(tr.end - tr.start), false, tr.start <= q.from))
  }

  /** The segments of the first `n` runs. */
  function SegmentsOf(runs: seq<Range>, n: nat, q: Query): seq<Segment>
    requires n <= |runs|
  {
    if n == 0 then []
    else
      var s := SegmentOf(runs[n - 1], n == |runs|, q);
      SegmentsOf(runs, n - 1, q) + if s.Some? then [s.value] else []
  }

  function MergedRuns(windows: seq<ActiveWindow>, q: Query): seq<Range> {
    ClipAll(Runs(Clamped(windows, q.to), q.maxGap * SECOND), Some(q.from), Some(q.to), q.minDuration)
  }

  function MergeWindows(windows: seq<ActiveWindow>, q: Query): seq<Segment> {
    SegmentsOf(MergedRuns(windows, q), |MergedRuns(windows, q)|, q)
  }

  method MergeWindowsIntoSegments(windows: seq<ActiveWindow>, q: Query) returns (out: seq<Segment>)
    ensures out == MergeWindows(windows, q)
  {
    var ranges: seq<Range> := [];
    for i := 0 to |windows|
      invariant ranges == Clamped(windows, q.to)[..i]
    {
      var w := windows[i];
      ranges := ranges + [Range(w.start, if q.to < w.end then q.to else w.end)];
    }
    assert ranges == Clamped(windows, q.to);
    var merged := MergeTimeRanges(ranges, q.maxGap * SECOND, q.minDuration, Some(q.from), Some(q.to));
    out := ToSegments(merged, q);
  }

  method ToSegments(merged: seq<Range>, q: Query) returns (out: seq<Segment>)
    ensures out == SegmentsOf(merged, |merged|, q)
  {
    out := [];
    for i := 0 to |merged|
      invariant out == SegmentsOf(merged, i, q)
    {
      var s := SegmentOf(merged[i], i == |merged| - 1, q);
      if s.Some? {
        out := out + [s.value];
      }
    }
  }

  /** The run reaches to within the gap of the query's end, and that is within the gap of now. */
  predicate StillRunning(tr: Range, q: Query) {
    q.to - tr.end <= q.maxGap * SECOND && q.now - q.to <= q.maxGap * SECOND
  }

  predicate Reports(s: Segment, tr: Range, q: Query) {
    && s.start == tr.start && (s.startedBefore <==> tr.start <= q.from) && (s.ongoing <==> s.end.None?)
    && (s.end.Some? ==> s.end.value == tr.end && s.duration == Seconds(tr.end - tr.start))
    && (s.end.None? ==> StillRunning(tr, q) && s.duration == Seconds(q.to - tr.start) && q.minDuration <= s.duration)
  }

  /**
   Segment by segment the runs: each run but the last is reported as completed; the
   last is reported as ongoing if it still runs, and is missing exactly when it
   still runs and is too short up to the end of the query.
   */
  lemma {:induction false} SegmentsAreRuns(runs: seq<Range>, n: nat, q: Query)
    requires n <= |runs|
    ensures
      var segs := SegmentsOf(runs, n, q);
      && (n < |runs| ==> |segs| == n)
      && (0 < n == |runs| ==>
            var tr := runs[n - 1];
            && |segs| == (if StillRunning(tr, q) && Seconds(q.to - tr.start) < q.minDuration then n - 1 else n)
            && (|segs| == n ==> (segs[n - 1].ongoing <==> StillRunning(tr, q))))
      && |segs| <= n
      && forall j :: 0 <= j < |segs| ==> Reports(segs[j], runs[j], q) && (j < |runs| - 1 ==> !segs[j].ongoing)
  {
    if n != 0 {
      SegmentsAreRuns(runs, n - 1, q);
    }
  }

  /** Windows that begin in the range, and end no earlier. */
  ghost predicate InQuery(windows: seq<ActiveWindow>, q: Query) {
    0 <= q.maxGap && forall w :: w in windows ==> w.start <= w.end && w.start <= q.to
  }

  lemma ClampedIsWellFormed(windows: seq<ActiveWindow>, q: Query)
    requires InQuery(windows, q)
    ensures WellFormed(AsSet(Clamped(windows, q.to)))
  {
    var ranges := Clamped(windows, q.to);
    forall r | r in AsSet(ranges) ensures r.start <= r.end {
      var k :| 0 <= k < |ranges| && ranges[k] == r;
      assert windows[k] in windows;
    }
  }

  /** Detected segments start in strictly increasing order, which is what cursor pagination relies on. */
  lemma DetectedSegmentsIncrease(windows: seq<ActiveWindow>, q: Query, i: nat, j: nat)
    requires InQuery(windows, q) && i < j < |MergeWindows(windows, q)|
    ensures MergeWindows(windows, q)[i].start < MergeWindows(windows, q)[j].start
    ensures !MergeWindows(windows, q)[i].ongoing
  {
    ClampedIsWellFormed(windows, q);
    MergeResult(Clamped(windows, q.to), q.maxGap * SECOND, q.minDuration, Some(q.from), Some(q.to));
    SegmentsAreRuns(MergedRuns(windows, q), |MergedRuns(windows, q)|, q);
  }

  /** A segment lies in the query, and a completed one is not empty. */
  lemma SegmentWithin(windows: seq<ActiveWindow>, q: Query, i: nat)
    requires InQuery(windows, q) && i < |MergeWindows(windows, q)|
    ensures
      var s := MergeWindows(windows, q)[i];
      q.from <= s.start && (s.end.Some? ==> s.start < s.end.value <= q.to)
  {
    var runs := Runs(Clamped(windows, q.to), q.maxGap * SECOND);
    var merged := MergedRuns(windows, q);
    SegmentsAreRuns(merged, |merged|, q);
    ClipAllShape(runs, Some(q.from), Some(q.to), q.minDuration, i);
    var j :| 0 <= j < |runs| && ClippedFrom(merged[i], runs[j], Some(q.from), Some(q.to), q.minDuration);
    assert Visible(runs[j], Some(q.from), Some(q.to), merged[i].start);
    assert Visible(runs[j], Some(q.from), Some(q.to), merged[i].end - 1);
  }

  // ----- and cover the activity

  /** A visible run that is long enough up to the query's end is reported as a segment. */
  lemma RunIsReported(windows: seq<ActiveWindow>, q: Query, k: nat, o: Range) returns (i: nat)
    requires
      var runs := Runs(Clamped(windows, q.to), q.maxGap * SECOND);
      k < |runs| && ClippedFrom(o, runs[k], Some(q.from), Some(q.to), q.minDuration)
    requires q.minDuration <= Seconds(q.to - o.start)
    ensures i < |MergeWindows(windows, q)|
    ensures
      var s := MergeWindows(windows, q)[i];
      s.start == o.start && (s.end.Some? ==> s.end.value == o.end) && (s.startedBefore <==> o.start <= q.from)
  {
    var runs, merged := Runs(Clamped(windows, q.to), q.maxGap * SECOND), MergedRuns(windows, q);
    ClipAllComplete(runs, Some(q.from), Some(q.to), q.minDuration, k, o);
    var j :| 0 <= j < |merged| && merged[j] == o;
    SegmentsAreRuns(merged, |merged|, q);
    i := j;
  }

  /** Two windows at most the gap apart lie in one run. */
  lemma InOneRun(windows: seq<ActiveWindow>, q: Query, a: ActiveWindow, b: ActiveWindow) returns (k: nat)
    requires InQuery(windows, q) && a in windows && b in windows
    requires a.start <= b.start <= Min(a.end, q.to) + q.maxGap * SECOND
    ensures
      var runs := Runs(Clamped(windows, q.to), q.maxGap * SECOND);
      k < |runs| && runs[k].start <= a.start && Min(b.end, q.to) <= runs[k].end
  {
    var gap, ranges := q.maxGap * SECOND, Clamped(windows, q.to);
    var runs := Runs(ranges, gap);
    var ra, rb := Range(a.start, Min(a.end, q.to)), Range(b.start, Min(b.end, q.to));
    ClampedIsWellFormed(windows, q);
    RunsAreComponents(ranges, gap);
    ClampedHas(windows, q.to, a);
    ClampedHas(windows, q.to, b);
    assert Held(ra, runs) && Held(rb, runs);
    var x :| 0 <= x < |runs| && Inside(ra, runs[x]);
    var y :| 0 <= y < |runs| && Inside(rb, runs[y]);
    assert Spaced(runs, gap);
    k := x;
  }

  lemma ClampedHas(windows: seq<ActiveWindow>, to: int, w: ActiveWindow)
    requires w in windows
    ensures Range(w.start, Min(w.end, to)) in AsSet(Clamped(windows, to))
  {
    var i :| 0 <= i < |windows| && windows[i] == w;
    assert Clamped(windows, to)[i] == Range(w.start, Min(w.end, to));
  }

  /** The activity from window `a` to window `b`, as far as the query shows it, is long enough to be reported. */
  predicate Reportable(q: Query, a: ActiveWindow, b: ActiveWindow) {
    var start, end := Max(a.start, q.from), Min(b.end, q.to);
    && start < end
    && (|| q.minDuration <= Seconds(end - start)
        || (a.start < q.from && q.minDuration <= Seconds(end - a.start) && q.minDuration <= Seconds(q.to - q.from)))
  }

  /**
   No activity is left out: what is seen of two windows at most the gap apart, if long
   enough, lies in one reported segment. If it began before the range, that segment
   starts where the range does and says so.
   */
  lemma ActivityIsReported(windows: seq<ActiveWindow>, q: Query, a: ActiveWindow, b: ActiveWindow) returns (i: nat)
    requires InQuery(windows, q) && a in windows && b in windows
    requires a.start <= b.start <= Min(a.end, q.to) + q.maxGap * SECOND && Reportable(q, a, b)
    ensures i < |MergeWindows(windows, q)|
    ensures
      var s := MergeWindows(windows, q)[i];
      && s.start <= Max(a.start, q.from) && (s.end.Some? ==> Min(b.end, q.to) <= s.end.value)
      && (a.start <= q.from ==> s.start == q.from && s.startedBefore)
  {
    var k := InOneRun(windows, q, a, b);
    var run := Runs(Clamped(windows, q.to), q.maxGap * SECOND)[k];
    var o := Range(Max(run.start, q.from), Min(run.end, q.to));
    LongerSeconds(Min(b.end, q.to) - Max(a.start, q.from), o.end - o.start);
    LongerSeconds(Min(b.end, q.to) - a.start, run.end - run.start);
    LongerSeconds(Min(b.end, q.to) - Max(a.start, q.from), q.to - o.start);
    assert Clip(run, Some(q.from), Some(q.to), q.minDuration) == Some(o);
    ClipIff(run, Some(q.from), Some(q.to), q.minDuration, o);
    i := RunIsReported(windows, q, k, o);
  }

  lemma LongerSeconds(a: int, b: int)
    requires a <= b
    ensures Seconds(a) <= Seconds(b)
  {
  }

  /**
   And nothing is invented: a segment starts with a window or the range, and a
   completed one ends with one of them.
   */
  lemma SegmentEdges(windows: seq<ActiveWindow>, q: Query, i: nat)
    requires InQuery(windows, q) && i < |MergeWindows(windows, q)|
    ensures
      var s := MergeWindows(windows, q)[i];
      && (s.start == q.from || exists w :: w in windows && w.start == s.start)
      && (s.end.Some? ==> s.end.value == q.to || exists w :: w in windows && w.end == s.end.value)
  {
    var ranges := Clamped(windows, q.to);
    var runs, merged := Runs(ranges, q.maxGap * SECOND), MergedRuns(windows, q);
    SegmentsAreRuns(merged, |merged|, q);
    ClipAllShape(runs, Some(q.from), Some(q.to), q.minDuration, i);
    var k :| 0 <= k < |runs| && ClippedFrom(merged[i], runs[k], Some(q.from), Some(q.to), q.minDuration);
    ClipIff(runs[k], Some(q.from), Some(q.to), q.minDuration, merged[i]);
    ClampedIsWellFormed(windows, q);
    RunsAreComponents(ranges, q.maxGap * SECOND);
    assert IsRun(AsSet(ranges), runs[k], q.maxGap * SECOND);
    var r :| r in AsSet(ranges) && r.start == runs[k].start;
    var e :| e in AsSet(ranges) && e.end == runs[k].end;
    var x :| 0 <= x < |ranges| && ranges[x] == r;
    var y :| 0 <= y < |ranges| && ranges[y] == e;
    assert windows[x] in windows && windows[y] in windows;
  }
}
