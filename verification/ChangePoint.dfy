/** The frequency and change-point detectors. CUSUM statistics are doubled so that they are integers. */
module ChangePoint {
  import opened Signals
  import opened Sorting
  import opened TimeRanges
  import opened Segments

  const WINDOW_SECONDS: int := 60
  const SIGNAL_COUNT_THRESHOLD: nat := 10
  const DISTINCT_COUNT_THRESHOLD: nat := 2
  /** Twice (baseline 1.0 + drift 0.5), and twice the threshold 5.0. */
  const DOUBLED_ALLOWANCE: int := 3
  const DOUBLED_THRESHOLD: int := 10

  function Deviation(w: ActiveWindow): int {
    2 * w.signalCount - DOUBLED_ALLOWANCE
  }

  /** The sum of deviations of windows[i..n]. */
  function Sum(windows: seq<ActiveWindow>, i: nat, n: nat): int
    requires i <= n <= |windows|
    decreases n
  {
    if i == n then 0 else Sum(windows, i, n - 1) + Deviation(windows[n - 1])
  }

  /** The running statistic after the first `n` windows. */
  function Cusum(windows: seq<ActiveWindow>, n: nat): int
    requires n <= |windows|
  {
    if n == 0 then 0 else Max(0, Cusum(windows, n - 1) + Deviation(windows[n - 1]))
  }

  /** The statistic is the largest suffix sum of deviations, the empty suffix included. */
  lemma {:induction false} CusumIsLargestSuffixSum(windows: seq<ActiveWindow>, n: nat)
    requires n <= |windows|
    ensures forall i: nat :: i <= n ==> Sum(windows, i, n) <= Cusum(windows, n)
    ensures exists i: nat :: i <= n && Sum(windows, i, n) == Cusum(windows, n)
  {
    assert Sum(windows, n, n) == 0;
    if n != 0 {
      CusumIsLargestSuffixSum(windows, n - 1);
      var i: nat :| i <= n - 1 && Sum(windows, i, n - 1) == Cusum(windows, n - 1);
      assert Sum(windows, i, n) == Cusum(windows, n - 1) + Deviation(windows[n - 1]);
    }
  }

  /** The windows whose statistic exceeds the threshold, among the first `n`. */
  function ActiveOf(windows: seq<ActiveWindow>, n: nat): seq<ActiveWindow>
    requires n <= |windows|
  {
    if n == 0 then []
    else ActiveOf(windows, n - 1) + if DOUBLED_THRESHOLD < Cusum(windows, n) then [windows[n - 1]] else []
  }

  /** The windows after which the doubled statistic exceeds ten. */
  function Exceeding(windows: seq<ActiveWindow>): (keep: seq<bool>)
    ensures |keep| == |windows|
  {
    seq(|windows|, i requires 0 <= i < |windows| => 10 < Cusum(windows, i + 1))
  }

  lemma ActiveNext(windows: seq<ActiveWindow>, n: nat)
    requires n < |windows|
    ensures
      var before := ActiveOf(windows, n);
      ActiveOf(windows, n + 1) == if Exceeding(windows)[n] then before + [windows[n]] else before
  {
  }

  lemma ActiveCollects(windows: seq<ActiveWindow>, keep: seq<bool>) returns (parts: seq<seq<ActiveWindow>>)
    requires keep == Exceeding(windows)
    ensures Collects(windows, keep, parts) && parts[|windows|] == ActiveOf(windows, |windows|)
  {
    parts := seq(|windows| + 1, n requires 0 <= n <= |windows| => ActiveOf(windows, n));
    forall n | 0 <= n < |windows| ensures parts[n + 1] == if keep[n] then parts[n] + [windows[n]] else parts[n] {
      ActiveNext(windows, n);
    }
  }

  /** The active windows are exactly those, in order. */
  lemma ActiveAreMarked(windows: seq<ActiveWindow>, keep: seq<bool>, active: seq<ActiveWindow>)
    requires keep == Exceeding(windows) && active == ActiveOf(windows, |windows|)
    ensures IsMarkedPart(windows, keep, active)
  {
    var parts := ActiveCollects(windows, keep);
    CollectedIsMarked(windows, keep, parts);
  }

  method ApplyCUSUM(windows: seq<ActiveWindow>) returns (active: seq<ActiveWindow>)
    ensures active == ActiveOf(windows, |windows|)
    ensures IsMarkedPart(windows, Exceeding(windows), active)
  {
    active := CollectActive(windows);
    ActiveAreMarked(windows, Exceeding(windows), active);
  }

  method CollectActive(windows: seq<ActiveWindow>) returns (active: seq<ActiveWindow>)
    ensures active == ActiveOf(windows, |windows|)
  {
    active := [];
    var stat := 0;
    for i := 0 to |windows|
      invariant stat == Cusum(windows, i) && active == ActiveOf(windows, i)
    {
      stat := Max(0, stat + Deviation(windows[i]));
      if DOUBLED_THRESHOLD < stat {
        active := active + [windows[i]];
      }
    }
  }

  /**
   A window is active exactly when some run of windows ending with it deviates by more
   than the threshold in total.
   */
  lemma ActiveIffSuffixExceeds(windows: seq<ActiveWindow>, n: nat)
    requires 0 < n <= |windows|
    ensures DOUBLED_THRESHOLD < Cusum(windows, n) <==> exists i: nat :: i < n && DOUBLED_THRESHOLD < Sum(windows, i, n)
  {
    CusumIsLargestSuffixSum(windows, n);
    if DOUBLED_THRESHOLD < Cusum(windows, n) {
      var i: nat :| i <= n && Sum(windows, i, n) == Cusum(windows, n);
      assert i < n;
    }
  }

  /** Windows that meet the source's count threshold are all active. */
  lemma {:induction false} BusyWindowsAreActive(windows: seq<ActiveWindow>, n: nat)
    requires n <= |windows| && forall i :: 0 <= i < |windows| ==> SIGNAL_COUNT_THRESHOLD <= windows[i].signalCount
    ensures ActiveOf(windows, n) == windows[..n]
  {
    if n != 0 {
      BusyWindowsAreActive(windows, n - 1);
      CusumIsLargestSuffixSum(windows, n - 1);
      assert Sum(windows, n - 1, n - 1) == 0;
      assert windows[..n] == windows[..n - 1] + [windows[n - 1]];
    }
  }

  // ----- the detectors

  datatype Config = Config(maxGapSeconds: Option<int>, minSegmentDuration: Option<int>,
      signalCountThreshold: Option<nat>)

  function ResolvedGap(c: Option<Config>): int {
    if c.Some? && c.value.maxGapSeconds.Some? then c.value.maxGapSeconds.value else 300
  }

  function ResolvedMinimum(c: Option<Config>): int {
    if c.Some? && c.value.minSegmentDuration.Some? then c.value.minSegmentDuration.value else 240
  }

  function ResolvedThreshold(c: Option<Config>): nat {
    if c.Some? && c.value.signalCountThreshold.Some? then c.value.signalCountThreshold.value else SIGNAL_COUNT_THRESHOLD
  }

  /** WindowedSignalCounts(from, to, windowSize, countThreshold, distinctThreshold) of one subject. */
  type Counts = (int, int, int, nat, nat) -> seq<ActiveWindow>

  /** The source keeps only windows meeting the count threshold. */
  ghost predicate KeepsBusyWindows(counts: Counts) {
    forall from, to, size, least: nat, distinct: nat ::
      forall w :: w in counts(from, to, size, least, distinct) ==> least <= w.signalCount
  }

  /** Windows are fetched from one gap before the range, so that a segment already under way is seen whole. */
  function WindowsOf(counts: Counts, from: int, to: int, c: Option<Config>, threshold: nat): seq<ActiveWindow> {
    counts(from - ResolvedGap(c) * SECOND, to, WINDOW_SECONDS, threshold, DISTINCT_COUNT_THRESHOLD)
  }

  function QueryOf(from: int, to: int, now: int, c: Option<Config>): Query {
    Query(from, to, now, ResolvedGap(c), ResolvedMinimum(c))
  }

  /** Every window begins in the range and does not end before it begins. */
  ghost predicate SoundWindows(counts: Counts) {
    forall from, to, size, least: nat, distinct: nat ::
      forall w :: w in counts(from, to, size, least, distinct) ==> w.start <= w.end && w.start <= to
  }

  /** Segments a caller can page through and add up: in the range, in order, and only the last ongoing. */
  ghost predicate WellReported(out: seq<Segment>, from: int, to: int) {
    && (forall i, j :: 0 <= i < j < |out| ==> out[i].start < out[j].start && !out[i].ongoing)
    && forall i :: 0 <= i < |out| ==>
         from <= out[i].start && (out[i].end.Some? ==> out[i].start < out[i].end.value <= to)
  }

  function FrequencySegments(counts: Counts, from: int, to: int, now: int, c: Option<Config>,
      least: nat): seq<Segment> {
    MergeWindows(WindowsOf(counts, from, to, c, least), QueryOf(from, to, now, c))
  }

  lemma MergeIsWellReported(windows: seq<ActiveWindow>, q: Query)
    requires InQuery(windows, q)
    ensures WellReported(MergeWindows(windows, q), q.from, q.to)
  {
    var out := MergeWindows(windows, q);
    forall i, j | 0 <= i < j < |out| ensures out[i].start < out[j].start && !out[i].ongoing {
      DetectedSegmentsIncrease(windows, q, i, j);
    }
    forall i | 0 <= i < |out|
      ensures q.from <= out[i].start && (out[i].end.Some? ==> out[i].start < out[i].end.value <= q.to)
    {
      SegmentWithin(windows, q, i);
    }
  }

  /**
   The look-back: windows are fetched from one gap before the range, the configured one
   or 300 s, so activity that began there and runs on into the range, long enough, is
   reported from the range's start and marked as started before.
   */
  lemma LookBack(counts: Counts, from: int, to: int, now: int, c: Option<Config>, least: nat,
                 a: ActiveWindow, b: ActiveWindow) returns (i: nat)
    requires
      var gap := if c.Some? && c.value.maxGapSeconds.Some? then c.value.maxGapSeconds.value else 300;
      var windows := counts(from - gap * SECOND, to, 60, least, 2);
      && SoundWindows(counts) && 0 <= gap && a in windows && b in windows
      && a.start <= from && a.start <= b.start <= Min(a.end, to) + gap * SECOND
    requires
      var minimum := if c.Some? && c.value.minSegmentDuration.Some? then c.value.minSegmentDuration.value else 240;
      && from < Min(b.end, to) && minimum <= Seconds(Min(b.end, to) - a.start) && minimum <= Seconds(to - from)
    ensures i < |FrequencySegments(counts, from, to, now, c, least)|
    ensures
      var s := FrequencySegments(counts, from, to, now, c, least)[i];
      s.start == from && s.startedBefore && (s.end.Some? ==> Min(b.end, to) <= s.end.value)
  {
    var q := QueryOf(from, to, now, c);
    i := ActivityIsReported(WindowsOf(counts, from, to, c, least), q, a, b);
  }

  /** Frequency detection at the configured threshold, or the default. */
  method DetectFrequency(counts: Counts, from: int, to: int, now: int, c: Option<Config>) returns (out: seq<Segment>)
    ensures out == FrequencySegments(counts, from, to, now, c, ResolvedThreshold(c))
    ensures SoundWindows(counts) && 0 <= ResolvedGap(c) ==> WellReported(out, from, to)
  {
    var windows := WindowsOf(counts, from, to, c, ResolvedThreshold(c));
    out := MergeWindowsIntoSegments(windows, QueryOf(from, to, now, c));
    if SoundWindows(counts) && 0 <= ResolvedGap(c) {
      MergeIsWellReported(windows, QueryOf(from, to, now, c));
    }
  }

  /**
   Change-point detection. Its result is well reported over any source; over one that
   keeps busy windows only it is frequency detection at the default threshold, also
   when another threshold is configured.
   */
  method DetectChangePoint(counts: Counts, from: int, to: int, now: int, c: Option<Config>) returns (out: seq<Segment>)
    ensures SoundWindows(counts) && 0 <= ResolvedGap(c) ==> WellReported(out, from, to)
    ensures KeepsBusyWindows(counts) ==> out == FrequencySegments(counts, from, to, now, c, SIGNAL_COUNT_THRESHOLD)
  {
    var windows := WindowsOf(counts, from, to, c, SIGNAL_COUNT_THRESHOLD);
    var active := ApplyCUSUM(windows);
    out := MergeWindowsIntoSegments(active, QueryOf(from, to, now, c));
    if SoundWindows(counts) && 0 <= ResolvedGap(c) {
      ActiveAreWindows(windows, |windows|);
      MergeIsWellReported(active, QueryOf(from, to, now, c));
    }
    if KeepsBusyWindows(counts) {
      DetectorsAgree(counts, from, to, c);
    }
  }

  lemma {:induction false} ActiveAreWindows(windows: seq<ActiveWindow>, n: nat)
    requires n <= |windows|
    ensures forall w :: w in ActiveOf(windows, n) ==> w in windows
  {
    if n != 0 {
      ActiveAreWindows(windows, n - 1);
    }
  }

  /** Over a source that keeps busy windows only, every window is active. */
  lemma DetectorsAgree(counts: Counts, from: int, to: int, c: Option<Config>)
    requires KeepsBusyWindows(counts)
    ensures
      var windows := WindowsOf(counts, from, to, c, SIGNAL_COUNT_THRESHOLD);
      ActiveOf(windows, |windows|) == windows
  {
    var windows := WindowsOf(counts, from, to, c, SIGNAL_COUNT_THRESHOLD);
    forall i | 0 <= i < |windows| ensures SIGNAL_COUNT_THRESHOLD <= windows[i].signalCount {
      assert windows[i] in windows;
    }
    BusyWindowsAreActive(windows, |windows|);
    assert windows[..|windows|] == windows;
  }
}
