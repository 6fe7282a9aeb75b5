/**
 Merging time ranges within a gap, clipping them to the query, and turning
 activity windows into segments. Times are integer nanoseconds.
 */
module TimeRanges {
  import opened Signals
  import opened Sorting

  const SECOND: int := 1_000_000_000

  datatype Range = Range(start: int, end: int)

  /** int(d.Seconds()): whole seconds, truncated toward zero. */
  function Seconds(d: int): (s: int)
    ensures 0 <= d ==> s * SECOND <= d < (s + 1) * SECOND
    ensures d <= 0 ==> (s - 1) * SECOND < d <= s * SECOND
  {
    if 0 <= d then d / SECOND else -((-d) / SECOND)
  }

  predicate ByStart(a: Range, b: Range) {
    a.start <= b.start
  }

  /** clipTimeRange: the visible part of a run, or nothing. */
  function Clip(tr: Range, from: Option<int>, to: Option<int>, minDuration: int): Option<Range> {
    var start := if from.Some? && tr.start < from.value then from.value else tr.start;
    var end := if to.Some? && to.value < tr.end then to.value else tr.end;
    if end <= start then None
    else if Seconds(end - start) < minDuration && (start == tr.start || Seconds(tr.end - tr.start) < minDuration) then
      None
    else Some(Range(start, end))
  }

  // ----- the running merge, and what it computes

  /** The runs built from `cur` and the ranges after it. */
  function RunsFrom(cur: Range, rest: seq<Range>, maxGap: int): seq<Range>
    decreases |rest|
  {
    if rest == [] then [cur]
    else if rest[0].start - cur.end <= maxGap then
      RunsFrom(Range(cur.start, if cur.end < rest[0].end then rest[0].end else cur.end), rest[1..], maxGap)
    else [cur] + RunsFrom(rest[0], rest[1..], maxGap)
  }

  function RunsOf(sorted: seq<Range>, maxGap: int): seq<Range> {
    if sorted == [] then [] else RunsFrom(sorted[0], sorted[1..], maxGap)
  }

  function Runs(ranges: seq<Range>, maxGap: int): seq<Range> {
    RunsOf(Sort(ByStart, ranges), maxGap)
  }

  function ClipAll(runs: seq<Range>, from: Option<int>, to: Option<int>, minDuration: int): seq<Range> {
    if runs == [] then []
    else
      var c := Clip(runs[|runs| - 1], from, to, minDuration);
      ClipAll(runs[..|runs| - 1], from, to, minDuration) + if c.Some? then [c.value] else []
  }

  /** Append a finished run if anything of it is visible. */
  method Emit(out: seq<Range>, cur: Range, from: Option<int>, to: Option<int>, minDuration: int,
      ghost runs: seq<Range>) returns (r: seq<Range>)
    requires out == ClipAll(runs, from, to, minDuration)
    ensures r == ClipAll(runs + [cur], from, to, minDuration)
  {
    assert (runs + [cur])[..|runs|] == runs;
    var c := Clip(cur, from, to, minDuration);
    r := if c.Some? then out + [c.value] else out;
  }

  lemma NextRange(cur: Range, sorted: seq<Range>, i: nat, maxGap: int)
    requires i < |sorted|
    ensures
      var next, rest := sorted[i], sorted[i + 1..];
      RunsFrom(cur, sorted[i..], maxGap) ==
      if next.start - cur.end <= maxGap then
        RunsFrom(Range(cur.start, if cur.end < next.end then next.end else cur.end), rest, maxGap)
      else [cur] + RunsFrom(next, rest, maxGap)
  {
    assert sorted[i..][0] == sorted[i] && sorted[i..][1..] == sorted[i + 1..];
  }

  /** The loop over sorted ranges, with its running range. */
  method MergeSorted(sorted: seq<Range>, maxGap: int, minDuration: int, from: Option<int>, to: Option<int>,
      ghost target: seq<Range>)
    returns (out: seq<Range>)
    requires sorted != [] && target == RunsFrom(sorted[0], sorted[1..], maxGap)
    ensures out == ClipAll(target, from, to, minDuration)
  {
    out := [];
    var cur := sorted[0];
    ghost var done: seq<Range> := [];
    for i := 1 to |sorted|
      invariant out == ClipAll(done, from, to, minDuration)
      invariant target == done + RunsFrom(cur, sorted[i..], maxGap)
    {
      var next := sorted[i];
      NextRange(cur, sorted, i, maxGap);
      if next.start - cur.end <= maxGap {
        if cur.end < next.end {
          cur := Range(cur.start, next.end);
        }
      } else {
        out := Emit(out, cur, from, to, minDuration, done);
        done, cur := done + [cur], next;
      }
    }
    assert target == done + [cur];
    out := Emit(out, cur, from, to, minDuration, done);
  }

  /** mergeTimeRanges without a merge predicate. */
  method MergeTimeRanges(ranges: seq<Range>, maxGap: int, minDuration: int, from: Option<int>, to: Option<int>)
      returns (out: seq<Range>)
    ensures out == ClipAll(Runs(ranges, maxGap), from, to, minDuration)
  {
    if ranges == [] {
      return [];
    }
    var sorted := Sort(ByStart, ranges);
    SortIsSorted(ByStart, ranges);
    out := MergeSorted(sorted, maxGap, minDuration, from, to, Runs(ranges, maxGap));
  }

  // ----- a declarative account of the runs

  ghost predicate WellFormed(rs: set<Range>) {
    forall r :: r in rs ==> r.start <= r.end
  }

  predicate Inside(r: Range, run: Range) {
    run.start <= r.start && r.end <= run.end
  }

  ghost predicate Held(r: Range, runs: seq<Range>) {
    exists i :: 0 <= i < |runs| && Inside(r, runs[i])
  }

  /** Proper ranges, in order, further apart than the gap. */
  ghost predicate Spaced(runs: seq<Range>, gap: int) {
    && (forall i :: 0 <= i < |runs| ==> runs[i].start <= runs[i].end)
    && (forall i, j :: 0 <= i < j < |runs| ==> runs[i].end + gap < runs[j].start)
  }

  ghost predicate StartsAt(rs: set<Range>, t: int) {
    exists r :: r in rs && r.start == t
  }

  ghost predicate EndsAt(rs: set<Range>, t: int) {
    exists r :: r in rs && r.end == t
  }

  /** A range bridges the point `x`: it reaches past `x` and starts at most the gap after it. */
  ghost predicate Bridged(rs: set<Range>, x: int, gap: int) {
    exists r :: r in rs && r.start <= x + gap && x < r.end
  }

  /** Both ends of the run are ends of ranges, and inside it no gap is wider than allowed. */
  ghost predicate IsRun(rs: set<Range>, run: Range, gap: int) {
    && StartsAt(rs, run.start) && EndsAt(rs, run.end)
    && forall x :: run.start <= x < run.end ==> Bridged(rs, x, gap)
  }

  /**
   `runs` are the connected components of the ranges under "gap at most maxGap":
   every range lies in one, each is tight and connected, and they are further apart
   than the gap.
   */
  ghost predicate Components(rs: set<Range>, gap: int, runs: seq<Range>) {
    && (forall r {:trigger Held(r, runs)} :: r in rs ==> Held(r, runs))
    && (forall i {:trigger IsRun(rs, runs[i], gap)} :: 0 <= i < |runs| ==> IsRun(rs, runs[i], gap))
    && Spaced(runs, gap)
  }

  /** One run holding all ranges. */
  ghost predicate OneRun(rs: set<Range>, run: Range, gap: int) {
    (forall r :: r in rs ==> Inside(r, run)) && IsRun(rs, run, gap) && run.start <= run.end
  }

  lemma LargerSet(rs: set<Range>, all: set<Range>, run: Range, gap: int)
    requires rs <= all && IsRun(rs, run, gap)
    ensures IsRun(all, run, gap)
  {
    forall x | run.start <= x < run.end ensures Bridged(all, x, gap) {
      assert Bridged(rs, x, gap);
    }
  }

  lemma GrowRun(rs: set<Range>, cur: Range, r: Range, gap: int)
    requires OneRun(rs, cur, gap) && 0 <= gap && r.start <= r.end
    requires cur.start <= r.start && r.start - cur.end <= gap
    ensures OneRun(rs + {r}, Range(cur.start, if cur.end < r.end then r.end else cur.end), gap)
  {
    var run := Range(cur.start, if cur.end < r.end then r.end else cur.end);
    LargerSet(rs, rs + {r}, cur, gap);
    assert r in rs + {r};
    forall x | run.start <= x < run.end ensures Bridged(rs + {r}, x, gap) {
      if cur.end <= x {
        assert r.start <= x + gap && x < r.end;
      }
    }
  }

  lemma JoinRuns(rs: set<Range>, cur: Range, qs: set<Range>, runs: seq<Range>, gap: int)
    requires OneRun(rs, cur, gap) && Components(qs, gap, runs)
    requires forall q :: q in qs ==> cur.end + gap < q.start
    ensures Components(rs + qs, gap, [cur] + runs)
  {
    var all := [cur] + runs;
    forall r | r in rs + qs ensures Held(r, all) {
      if r in rs {
        assert Inside(r, all[0]);
      } else {
        HeldBehind(r, cur, runs);
      }
    }
    forall i | 0 <= i < |all| ensures IsRun(rs + qs, all[i], gap) {
      if i == 0 {
        LargerSet(rs, rs + qs, cur, gap);
      } else {
        assert IsRun(qs, runs[i - 1], gap);
        LargerSet(qs, rs + qs, runs[i - 1], gap);
      }
    }
    assert Spaced(all, gap) by { SpacedBehind(cur, qs, runs, gap); }
  }

  lemma HeldBehind(r: Range, cur: Range, runs: seq<Range>)
    requires Held(r, runs)
    ensures Held(r, [cur] + runs)
  {
    var i :| 0 <= i < |runs| && Inside(r, runs[i]);
    assert Inside(r, ([cur] + runs)[i + 1]);
  }

  lemma SpacedBehind(cur: Range, qs: set<Range>, runs: seq<Range>, gap: int)
    requires cur.start <= cur.end && Components(qs, gap, runs)
    requires forall q :: q in qs ==> cur.end + gap < q.start
    ensures Spaced([cur] + runs, gap)
  {
    forall j | 0 <= j < |runs| ensures cur.end + gap < runs[j].start {
      assert IsRun(qs, runs[j], gap);
    }
  }

  lemma OneRunIsComponents(rs: set<Range>, run: Range, gap: int)
    requires OneRun(rs, run, gap)
    ensures Components(rs, gap, [run])
  {
    forall r | r in rs ensures Held(r, [run]) {
      assert Inside(r, [run][0]);
    }
  }

  lemma {:induction false} RunsFromAreComponents(rs: set<Range>, cur: Range, rest: seq<Range>, gap: int)
    requires OneRun(rs, cur, gap) && 0 <= gap && WellFormed(AsSet(rest)) && Sorted(ByStart, rest)
    requires rest != [] ==> cur.start <= rest[0].start
    ensures Components(rs + AsSet(rest), gap, RunsFrom(cur, rest, gap))
    decreases |rest|
  {
    if rest == [] {
      assert rs + AsSet(rest) == rs;
      OneRunIsComponents(rs, cur, gap);
    } else {
      var r, tail := rest[0], rest[1..];
      FirstOf(rest);
      if r.start - cur.end <= gap {
        GrowRun(rs, cur, r, gap);
        RunsFromAreComponents(rs + {r}, Range(cur.start, if cur.end < r.end then r.end else cur.end), tail, gap);
        assert rs + {r} + AsSet(tail) == rs + AsSet(rest);
      } else {
        SingleRun(r, gap);
        RunsFromAreComponents({r}, r, tail, gap);
        JoinRuns(rs, cur, AsSet(rest), RunsFrom(r, tail, gap), gap);
      }
    }
  }

  lemma FirstOf(s: seq<Range>)
    requires s != [] && Sorted(ByStart, s)
    ensures AsSet(s) == {s[0]} + AsSet(s[1..]) && Sorted(ByStart, s[1..])
    ensures forall q :: q in AsSet(s) ==> s[0].start <= q.start
    ensures 1 < |s| ==> s[0].start <= s[1].start
  {
    forall q | q in AsSet(s) ensures s[0].start <= q.start && (q == s[0] || q in s[1..]) {
      var i :| 0 <= i < |s| && s[i] == q;
      if 0 < i {
        assert ByStart(s[0], s[i]);
        assert s[1..][i - 1] == q;
      }
    }
    assert 1 < |s| ==> s[1] in AsSet(s);
  }

  lemma SingleRun(r: Range, gap: int)
    requires r.start <= r.end && 0 <= gap
    ensures OneRun({r}, r, gap)
  {
    assert r in {r};
  }

  /** The loop over any list sorted by start returns the connected components of its ranges. */
  lemma SortedRunsAreComponents(s: seq<Range>, gap: int)
    requires WellFormed(AsSet(s)) && 0 <= gap && Sorted(ByStart, s)
    ensures Components(AsSet(s), gap, RunsOf(s, gap))
  {
    if s != [] {
      FirstOf(s);
      SingleRun(s[0], gap);
      RunsFromAreComponents({s[0]}, s[0], s[1..], gap);
    }
  }

  /** The merge returns the connected components. */
  lemma RunsAreComponents(ranges: seq<Range>, gap: int)
    requires WellFormed(AsSet(ranges)) && 0 <= gap
    ensures Components(AsSet(ranges), gap, Runs(ranges, gap))
  {
    var s := Sort(ByStart, ranges);
    SortIsSorted(ByStart, ranges);
    SameElements(s, ranges);
    SortedRunsAreComponents(s, gap);
  }

  lemma SameElements(a: seq<Range>, b: seq<Range>)
    requires multiset(a) == multiset(b)
    ensures AsSet(a) == AsSet(b)
  {
    forall r ensures r in a <==> r in b {
      assert r in a <==> r in multiset(a);
      assert r in b <==> r in multiset(b);
    }
  }

  // ----- the components are unique

  /** No range bridges the end of a run. */
  lemma NoBridge(rs: set<Range>, gap: int, a: seq<Range>, i: nat)
    requires Components(rs, gap, a) && 0 <= gap && i < |a|
    ensures !Bridged(rs, a[i].end, gap)
  {
    forall r | r in rs ensures !(r.start <= a[i].end + gap && a[i].end < r.end) {
      assert Held(r, a);
      var k :| 0 <= k < |a| && Inside(r, a[k]);
      assert k < i ==> a[k].end < a[i].start;
    }
  }

  /** A run of one account that starts inside a run of another starts with it. */
  lemma StartsAgree(rs: set<Range>, gap: int, a: seq<Range>, b: seq<Range>, i: nat, j: nat)
    requires Components(rs, gap, a) && Components(rs, gap, b) && WellFormed(rs) && 0 <= gap
    requires i < |a| && j < |b| && b[j].start <= a[i].start <= b[j].end
    ensures b[j].start == a[i].start
  {
    if b[j].start < a[i].start {
      assert IsRun(rs, b[j], gap);
      var p :| p in rs && p.start == b[j].start;
      assert Held(p, a);
      var k :| 0 <= k < |a| && Inside(p, a[k]);
      var x := a[i - 1].end;
      assert k < i - 1 ==> a[k].end < a[i - 1].start;
      NoBridge(rs, gap, a, i - 1);
    }
  }

  /** Every run of one account is a run of the other. */
  lemma RunIsShared(rs: set<Range>, gap: int, a: seq<Range>, b: seq<Range>, i: nat)
    requires Components(rs, gap, a) && Components(rs, gap, b) && WellFormed(rs) && 0 <= gap && i < |a|
    ensures a[i] in b
  {
    assert IsRun(rs, a[i], gap);
    var q :| q in rs && q.start == a[i].start;
    assert Held(q, b);
    var j :| 0 <= j < |b| && Inside(q, b[j]);
    StartsAgree(rs, gap, a, b, i, j);
    assert IsRun(rs, b[j], gap);
    NoBridge(rs, gap, a, i);
    NoBridge(rs, gap, b, j);
    assert a[i] == b[j];
  }

  lemma {:induction false} CountRuns(a: seq<Range>)
    requires Increasing(a)
    ensures |AsSet(a)| == |a|
  {
    if a != [] {
      CountRuns(a[1..]);
      assert AsSet(a) == {a[0]} + AsSet(a[1..]);
      RestOf(a, a[0]);
    }
  }

  lemma {:induction false} IncreasingListsAgree(a: seq<Range>, b: seq<Range>)
    requires |a| == |b| && forall r :: r in a <==> r in b
    requires Increasing(a) && Increasing(b)
    ensures a == b
  {
    if a != [] {
      assert a[0] in b && b[0] in a;
      assert a[0] == b[0];
      forall r ensures r in a[1..] <==> r in b[1..] {
        RestOf(a, r);
        RestOf(b, r);
      }
      IncreasingListsAgree(a[1..], b[1..]);
    }
  }

  lemma RestOf(a: seq<Range>, r: Range)
    requires a != [] && Increasing(a)
    ensures r in a[1..] <==> r in a && r != a[0]
  {
  }

  ghost predicate Increasing(a: seq<Range>) {
    forall i, j :: 0 <= i < j < |a| ==> a[i].start < a[j].start
  }

  lemma ComponentsAreUnique(rs: set<Range>, gap: int, a: seq<Range>, b: seq<Range>)
    requires Components(rs, gap, a) && Components(rs, gap, b) && WellFormed(rs) && 0 <= gap
    ensures a == b
  {
    forall r ensures r in a <==> r in b {
      if r in a {
        var i :| 0 <= i < |a| && a[i] == r;
        RunIsShared(rs, gap, a, b, i);
      }
      if r in b {
        var i :| 0 <= i < |b| && b[i] == r;
        RunIsShared(rs, gap, b, a, i);
      }
    }
    CountRuns(a);
    CountRuns(b);
    assert AsSet(a) == AsSet(b);
    IncreasingListsAgree(a, b);
  }

  /** The merge is canonical: it returns the one list of components, whatever the order or repetition of its input. */
  lemma MergeIsCanonical(a: seq<Range>, b: seq<Range>, gap: int)
    requires AsSet(a) == AsSet(b) && WellFormed(AsSet(a)) && 0 <= gap
    ensures Runs(a, gap) == Runs(b, gap)
  {
    RunsAreComponents(a, gap);
    RunsAreComponents(b, gap);
    ComponentsAreUnique(AsSet(a), gap, Runs(a, gap), Runs(b, gap));
  }

  /** So it does not matter how an unstable sort orders ranges with equal starts. */
  lemma AnySortWillDo(ranges: seq<Range>, s: seq<Range>, gap: int)
    requires WellFormed(AsSet(ranges)) && 0 <= gap && Sorted(ByStart, s) && multiset(s) == multiset(ranges)
    ensures RunsOf(s, gap) == Runs(ranges, gap)
  {
    SameElements(s, ranges);
    SortedRunsAreComponents(s, gap);
    RunsAreComponents(ranges, gap);
    ComponentsAreUnique(AsSet(ranges), gap, RunsOf(s, gap), Runs(ranges, gap));
  }

  // ----- the clipped result

  /** The instant belongs to the run and to the query range. */
  predicate Visible(run: Range, from: Option<int>, to: Option<int>, t: int) {
    run.start <= t < run.end && (from.Some? ==> from.value <= t) && (to.Some? ==> t < to.value)
  }

  /**
   `o` is exactly the visible part of the run, not empty, and long enough, or cut at
   `from` off a run that was.
   */
  ghost predicate ClippedFrom(o: Range, run: Range, from: Option<int>, to: Option<int>, minDuration: int) {
    && o.start < o.end && (forall t :: o.start <= t < o.end <==> Visible(run, from, to, t))
    && (|| minDuration <= Seconds(o.end - o.start)
        || (from.Some? && run.start < from.value && minDuration <= Seconds(run.end - run.start)))
  }

  /** clipTimeRange returns that part, and nothing exactly when there is none. */
  lemma ClipIff(run: Range, from: Option<int>, to: Option<int>, minDuration: int, o: Range)
    ensures Clip(run, from, to, minDuration) == Some(o) <==> ClippedFrom(o, run, from, to, minDuration)
  {
    var start := if from.Some? && run.start < from.value then from.value else run.start;
    var end := if to.Some? && to.value < run.end then to.value else run.end;
    assert forall t :: start <= t < end <==> Visible(run, from, to, t);
    if ClippedFrom(o, run, from, to, minDuration) {
      SameInterval(o.start, o.end, start, end, run, from, to);
    }
  }

  lemma SameInterval(a: int, b: int, c: int, d: int, run: Range, from: Option<int>, to: Option<int>)
    requires a < b
    requires forall t :: a <= t < b <==> Visible(run, from, to, t)
    requires forall t :: c <= t < d <==> Visible(run, from, to, t)
    ensures a == c && b == d
  {
    assert Visible(run, from, to, a) && Visible(run, from, to, b - 1);
    assert Visible(run, from, to, c) && Visible(run, from, to, d - 1);
  }

  lemma {:induction false} ClipAllShape(runs: seq<Range>, from: Option<int>, to: Option<int>, minDuration: int, j: nat)
    requires j < |ClipAll(runs, from, to, minDuration)|
    ensures
      var o := ClipAll(runs, from, to, minDuration)[j];
      exists i :: 0 <= i < |runs| && ClippedFrom(o, runs[i], from, to, minDuration)
  {
    var front := runs[..|runs| - 1];
    var o := ClipAll(runs, from, to, minDuration)[j];
    if j < |ClipAll(front, from, to, minDuration)| {
      ClipAllShape(front, from, to, minDuration, j);
      var i :| 0 <= i < |front| &&
          ClippedFrom(ClipAll(front, from, to, minDuration)[j], front[i], from, to, minDuration);
      assert ClippedFrom(o, runs[i], from, to, minDuration);
    } else {
      ClipIff(runs[|runs| - 1], from, to, minDuration, o);
      assert ClippedFrom(o, runs[|runs| - 1], from, to, minDuration);
    }
  }

  /** No visible run is left out. */
  lemma {:induction false} ClipAllComplete(runs: seq<Range>, from: Option<int>, to: Option<int>, minDuration: int,
      i: nat, o: Range)
    requires i < |runs| && ClippedFrom(o, runs[i], from, to, minDuration)
    ensures o in ClipAll(runs, from, to, minDuration)
  {
    var n := |runs| - 1;
    if i < n {
      assert runs[..n][i] == runs[i];
      ClipAllComplete(runs[..n], from, to, minDuration, i, o);
    } else {
      ClipIff(runs[i], from, to, minDuration, o);
    }
  }

  lemma ClippedIsInside(o: Range, run: Range, from: Option<int>, to: Option<int>, minDuration: int)
    requires ClippedFrom(o, run, from, to, minDuration)
    ensures Inside(o, run)
  {
    assert Visible(run, from, to, o.start) && Visible(run, from, to, o.end - 1);
  }

  /** Clipping keeps runs apart, so starts increase strictly and gaps stay wider than allowed. */
  lemma {:induction false} ClipAllSpaced(runs: seq<Range>, gap: int, from: Option<int>, to: Option<int>,
      minDuration: int)
    requires Spaced(runs, gap) && 0 <= gap
    ensures Spaced(ClipAll(runs, from, to, minDuration), gap)
  {
    if runs != [] {
      var front, last := runs[..|runs| - 1], runs[|runs| - 1];
      var done := ClipAll(front, from, to, minDuration);
      ClipAllSpaced(front, gap, from, to, minDuration);
      forall j | 0 <= j < |done| ensures done[j].end + gap < last.start {
        ClipAllShape(front, from, to, minDuration, j);
        var i :| 0 <= i < |front| && ClippedFrom(done[j], front[i], from, to, minDuration);
        ClippedIsInside(done[j], front[i], from, to, minDuration);
      }
      forall o | Clip(last, from, to, minDuration) == Some(o) ensures Inside(o, last) && o.start < o.end {
        ClipIff(last, from, to, minDuration, o);
        ClippedIsInside(o, last, from, to, minDuration);
      }
    }
  }

  /**
   The whole of mergeTimeRanges: the connected components of its input, each cut to
   its visible part and kept exactly when that is long enough, or was cut at `from`
   off a run that was; strictly increasing and separated by more than the gap.
   */
  lemma MergeResult(ranges: seq<Range>, gap: int, minDuration: int, from: Option<int>, to: Option<int>)
    requires WellFormed(AsSet(ranges)) && 0 <= gap
    ensures
      var runs, out := Runs(ranges, gap), ClipAll(Runs(ranges, gap), from, to, minDuration);
      && Components(AsSet(ranges), gap, runs)
      && Spaced(out, gap) && Increasing(out)
      && forall o :: o in out <==> exists i :: 0 <= i < |runs| && ClippedFrom(o, runs[i], from, to, minDuration)
  {
    RunsAreComponents(ranges, gap);
    var runs := Runs(ranges, gap);
    ClipAllSpaced(runs, gap, from, to, minDuration);
    var out := ClipAll(runs, from, to, minDuration);
    forall o ensures o in out <==> exists i :: 0 <= i < |runs| && ClippedFrom(o, runs[i], from, to, minDuration) {
      if o in out {
        var j :| 0 <= j < |out| && out[j] == o;
        ClipAllShape(runs, from, to, minDuration, j);
      }
      if i :| 0 <= i < |runs| && ClippedFrom(o, runs[i], from, to, minDuration) {
        ClipAllComplete(runs, from, to, minDuration, i, o);
      }
    }
  }
}
