/**
 Snapshot ingest as a protocol: spans of the change feed are decoded in windows,
 each landing in its own transaction, and the cursor moves with the last one only.
 Any transaction may fail, or land without being acknowledged; the process may
 die anywhere; history may expire.
 */
module Ingest {
  import opened Feed
  import opened RowStore

  /** The raw inserts of each snapshot, and the fixed decode of one event. */
  datatype Source = Source(inserts: nat -> seq<RawEvent>, decode: RawEvent -> seq<Identity>) {
    /** A row whose payload was dropped decodes to nothing. */
    function Decoded(e: RawEvent): seq<Identity> { if e.poison then [] else decode(e) }

    function DecodedAll(rows: seq<RawEvent>): seq<Identity> {
      if rows == [] then [] else DecodedAll(rows[..|rows| - 1]) + Decoded(rows[|rows| - 1])
    }

    /** The raw inserts of snapshots in (from, to]. */
    function Span(from: nat, to: nat): seq<RawEvent> {
      if to <= from then [] else Span(from, to - 1) + inserts(to)
    }
  }

  /** `todo` holds the windows still to be written; the last one commits. */
  datatype Phase = Idle | Writing(to: nat, todo: seq<seq<RawEvent>>)

  /**
   `cursor` is the stored snapshot cursor and `reported` the expiry floor handed to
   the producer. `skipped` and `taken` are history: the snapshots passed over by an
   expiry reset and those of the spans that were opened.
   */
  datatype State = State(
    cursor: nat, head: nat, oldest: nat, reported: nat, rows: Rows,
    skipped: set<nat>, taken: set<nat>, phase: Phase)

  datatype Step =
    | Advance(n: nat)                          // the producer commits snapshots
    | Expire(to: nat)                          // maintenance expires history
    | Open(to: nat, windows: seq<seq<RawEvent>>)
    | Write(floor: int, acked: bool)           // an intermediate window lands
    | Commit(floor: int)                       // the last window lands with the cursor
    | Abort                                    // error, conflict or crash
    | SkipEmpty(to: nat)
    | Recover
      /** A commit landed unseen, so the reset from `cur` matches no row, and the floor is reported all the same. */
    | StaleRecover(cur: nat)
    | Report

  function FlatRows(windows: seq<seq<RawEvent>>): seq<RawEvent> {
    if windows == [] then [] else windows[0] + FlatRows(windows[1..])
  }

  ghost predicate Enabled(src: Source, s: State, step: Step) {
    match step
    case Advance(_) => true
    case Expire(to) => s.oldest <= to
    case Open(to, windows) =>
      && s.phase.Idle? && s.cursor < to <= s.head && s.oldest <= s.cursor + 1
      && windows != [] && multiset(FlatRows(windows)) == multiset(src.Span(s.cursor, to))
    case Write(_, _) => s.phase.Writing? && 1 < |s.phase.todo|
    case Commit(_) => s.phase.Writing? && |s.phase.todo| == 1
    case Abort => s.phase.Writing?
    case SkipEmpty(to) => s.phase.Idle? && s.cursor < to < s.head && s.oldest <= s.cursor + 1 &&
        src.Span(s.cursor, to) == []
    case Recover => s.phase.Idle? && s.cursor + 1 < s.oldest <= s.head + 1
    case StaleRecover(cur) => s.phase.Idle? && cur < s.cursor && cur + 1 < s.oldest
    case Report => s.phase.Idle?
  }

  /** The snapshots strictly between two. */
  ghost function Between(lo: nat, hi: nat): (r: set<nat>)
    ensures forall n :: n in r <==> lo < n < hi
  {
    if hi <= lo + 1 then {} else Between(lo, hi - 1) + {hi - 1}
  }

  /** The snapshots in (from, to]. */
  ghost function SpanOf(from: nat, to: nat): (r: set<nat>)
    ensures forall n :: n in r <==> from < n <= to
  {
    Between(from, to + 1)
  }

  ghost function Land(src: Source, s: State, floor: int): Rows
    requires s.phase.Writing? && s.phase.todo != []
  {
    AntiJoinInsert(s.rows, src.DecodedAll(s.phase.todo[0]), floor)
  }

  ghost function Do(src: Source, s: State, step: Step): State
    requires Enabled(src, s, step)
  {
    match step
    case Advance(n) => s.(head := s.head + n)
    case Expire(to) => s.(oldest := to)
    case Open(to, windows) => s.(phase := Writing(to, windows), taken := s.taken + SpanOf(s.cursor, to))
    case Write(floor, acked) =>
      s.(rows := Land(src, s, floor), phase := if acked then Writing(s.phase.to, s.phase.todo[1..]) else Idle)
    case Commit(floor) => s.(rows := Land(src, s, floor), cursor := s.phase.to, phase := Idle)
    case Abort => s.(phase := Idle)
    case SkipEmpty(to) => s.(cursor := to)
    case Recover => s.(cursor := s.oldest - 1, skipped := s.skipped + Between(s.cursor, s.oldest))
    case StaleRecover(_) => s.(reported := s.oldest - 1)
    case Report => s.(reported := s.cursor)
  }

  // ----- what is at rest

  ghost predicate AtRest(src: Source, rows: Rows, e: RawEvent) {
    forall r :: r in src.Decoded(e) ==> r in rows
  }

  /** Some event of one of these snapshots decodes to this row. */
  ghost predicate Explained(src: Source, r: Identity, taken: set<nat>) {
    exists m: nat, e :: m in taken && e in src.inserts(m) && r in src.Decoded(e)
  }

  /** Every event of the open span is at rest or waiting in a window. */
  ghost predicate SpanCovered(src: Source, s: State)
    requires s.phase.Writing?
  {
    && (forall e :: e in src.Span(s.cursor, s.phase.to) ==> AtRest(src, s.rows, e) || e in FlatRows(s.phase.todo))
    && (forall e :: e in FlatRows(s.phase.todo) ==> e in src.Span(s.cursor, s.phase.to))
  }

  ghost predicate Invariant(src: Source, s: State) {
    && (forall n: nat, e :: 0 < n <= s.cursor && n !in s.skipped && e in src.inserts(n) ==> AtRest(src, s.rows, e))
    && (forall r :: r in s.rows ==> Explained(src, r, s.taken))
    && (forall n :: n in s.skipped ==> n < s.oldest)
    && s.cursor <= s.head && (s.reported <= s.cursor || s.reported < s.oldest)
    && (s.phase.Writing? ==>
        && s.phase.todo != [] && s.cursor < s.phase.to <= s.head
        && SpanOf(s.cursor, s.phase.to) <= s.taken && SpanCovered(src, s))
  }

  lemma {:induction false} SpanMembers(src: Source, from: nat, to: nat, e: RawEvent)
    ensures e in src.Span(from, to) <==> exists n: nat :: from < n <= to && e in src.inserts(n)
  {
    if from < to {
      SpanMembers(src, from, to - 1, e);
    }
  }

  lemma {:induction false} DecodedMembers(src: Source, rows: seq<RawEvent>, r: Identity)
    ensures r in src.DecodedAll(rows) <==> exists e :: e in rows && r in src.Decoded(e)
  {
    if rows != [] {
      var front, last := rows[..|rows| - 1], rows[|rows| - 1];
      DecodedMembers(src, front, r);
      assert last in rows;
      assert forall e :: e in rows <==> e in front || e == last;
    }
  }

  lemma LandEffect(src: Source, rows: Rows, win: seq<RawEvent>, floor: int)
    ensures
      var rows' := AntiJoinInsert(rows, src.DecodedAll(win), floor);
      && (forall e :: AtRest(src, rows, e) || e in win ==> AtRest(src, rows', e))
      && (forall r :: r in rows' ==> r in rows || exists e :: e in win && r in src.Decoded(e))
  {
    forall r
      ensures r in AntiJoinInsert(rows, src.DecodedAll(win), floor) <==>
              r in rows || exists e :: e in win && r in src.Decoded(e)
    {
      InsertMembers(rows, src.DecodedAll(win), floor, r);
      DecodedMembers(src, win, r);
    }
  }

  lemma LandKeepsExplained(src: Source, s: State, floor: int)
    requires Invariant(src, s) && s.phase.Writing?
    ensures forall r :: r in Land(src, s, floor) ==> Explained(src, r, s.taken)
  {
    LandEffect(src, s.rows, s.phase.todo[0], floor);
    forall r | r in Land(src, s, floor) ensures Explained(src, r, s.taken) {
      if r !in s.rows {
        var e :| e in s.phase.todo[0] && r in src.Decoded(e);
        assert e in FlatRows(s.phase.todo);
        SpanMembers(src, s.cursor, s.phase.to, e);
      }
    }
  }

  lemma WriteKeepsInvariant(src: Source, s: State, step: Step)
    requires Invariant(src, s) && step.Write? && Enabled(src, s, step)
    ensures Invariant(src, Do(src, s, step))
  {
    LandEffect(src, s.rows, s.phase.todo[0], step.floor);
    LandKeepsExplained(src, s, step.floor);
    assert FlatRows(s.phase.todo) == s.phase.todo[0] + FlatRows(s.phase.todo[1..]);
  }

  lemma CommitKeepsInvariant(src: Source, s: State, step: Step)
    requires Invariant(src, s) && step.Commit? && Enabled(src, s, step)
    ensures Invariant(src, Do(src, s, step))
  {
    var s' := Do(src, s, step);
    LandEffect(src, s.rows, s.phase.todo[0], step.floor);
    LandKeepsExplained(src, s, step.floor);
    assert FlatRows(s.phase.todo) == s.phase.todo[0] + FlatRows([]);
    forall n: nat, e | 0 < n <= s'.cursor && n !in s'.skipped && e in src.inserts(n) ensures AtRest(src, s'.rows, e) {
      if s.cursor < n {
        SpanMembers(src, s.cursor, s.phase.to, e);
        assert e in src.Span(s.cursor, s.phase.to);
      }
    }
  }

  lemma OtherStepKeepsInvariant(src: Source, s: State, step: Step)
    requires Invariant(src, s) && Enabled(src, s, step) && !step.Write? && !step.Commit?
    ensures Invariant(src, Do(src, s, step))
  {
    match step
    case Open(_, _) => OpenKeepsInvariant(src, s, step);
    case SkipEmpty(to) =>
      forall n: nat, e | 0 < n <= to && n !in s.skipped && e in src.inserts(n) ensures AtRest(src, s.rows, e) {
        SpanMembers(src, s.cursor, to, e);
      }
    case _ =>
  }

  lemma OpenKeepsInvariant(src: Source, s: State, step: Step)
    requires Invariant(src, s) && Enabled(src, s, step) && step.Open?
    ensures Invariant(src, Do(src, s, step))
  {
    forall e ensures e in FlatRows(step.windows) <==> e in src.Span(s.cursor, step.to) {
      assert e in FlatRows(step.windows) <==> e in multiset(FlatRows(step.windows));
    }
    forall r | r in s.rows ensures Explained(src, r, Do(src, s, step).taken) {
      assert Explained(src, r, s.taken);
    }
  }

  lemma StepKeepsInvariant(src: Source, s: State, step: Step)
    requires Invariant(src, s) && Enabled(src, s, step)
    ensures Invariant(src, Do(src, s, step))
  {
    if step.Write? {
      WriteKeepsInvariant(src, s, step);
    } else if step.Commit? {
      CommitKeepsInvariant(src, s, step);
    } else {
      OtherStepKeepsInvariant(src, s, step);
    }
  }

  ghost predicate Legal(src: Source, s: State, steps: seq<Step>)
    decreases |steps|
  {
    steps == [] || (Enabled(src, s, steps[0]) && Legal(src, Do(src, s, steps[0]), steps[1..]))
  }

  ghost function Exec(src: Source, s: State, steps: seq<Step>): State
    requires Legal(src, s, steps)
    decreases |steps|
  {
    if steps == [] then s else Exec(src, Do(src, s, steps[0]), steps[1..])
  }

  ghost predicate Initial(s: State) {
    s == State(0, s.head, s.oldest, 0, multiset{}, {}, {}, Idle)
  }

  /**
   For every crash and retry schedule: the decode of every event up to the cursor
   is at rest, except in snapshots that had expired before the cursor passed them;
   nothing is at rest but the decode of events in the snapshots of opened spans; and the reported floor releases
   no snapshot that is neither behind the cursor nor expired already.
   */
  lemma EveryRunIsComplete(src: Source, s: State, steps: seq<Step>)
    requires Initial(s) && Legal(src, s, steps)
    ensures
      var t := Exec(src, s, steps);
      && (forall n: nat, e :: 0 < n <= t.cursor && n !in t.skipped && e in src.inserts(n) ==> AtRest(src, t.rows, e))
      && (forall r :: r in t.rows ==> Explained(src, r, t.taken))
      && (forall n :: n in t.skipped ==> n < t.oldest)
      && (t.reported <= t.cursor || t.reported < t.oldest)
  {
    RunKeepsInvariant(src, s, steps);
  }

  lemma {:induction false} RunKeepsInvariant(src: Source, s: State, steps: seq<Step>)
    requires Invariant(src, s) && Legal(src, s, steps)
    ensures Invariant(src, Exec(src, s, steps)) && s.cursor <= Exec(src, s, steps).cursor
    decreases |steps|
  {
    if steps != [] {
      StepKeepsInvariant(src, s, steps[0]);
      RunKeepsInvariant(src, Do(src, s, steps[0]), steps[1..]);
    }
  }

  /** A run without a stale reset never reports past the stored cursor. */
  lemma {:induction false} FloorStaysBehindCursor(src: Source, s: State, steps: seq<Step>)
    requires Invariant(src, s) && s.reported <= s.cursor && Legal(src, s, steps)
    requires forall i :: 0 <= i < |steps| ==> !steps[i].StaleRecover?
    ensures Exec(src, s, steps).reported <= Exec(src, s, steps).cursor
    decreases |steps|
  {
    if steps != [] {
      StepKeepsInvariant(src, s, steps[0]);
      FloorStaysBehindCursor(src, Do(src, s, steps[0]), steps[1..]);
    }
  }

  /** Maintenance honours the reported floor: it expires nothing after it. */
  ghost predicate FloorHonoured(src: Source, s: State, steps: seq<Step>)
    requires Legal(src, s, steps)
    decreases |steps|
  {
    steps != [] ==>
      && (steps[0].Expire? ==> steps[0].to <= s.reported + 1)
      && FloorHonoured(src, Do(src, s, steps[0]), steps[1..])
  }

  /** What the floor is for: as long as it is honoured, no snapshot is ever skipped, in any run. */
  lemma {:induction false} FloorPreventsLoss(src: Source, s: State, steps: seq<Step>)
    requires Invariant(src, s) && Legal(src, s, steps) && FloorHonoured(src, s, steps)
    requires s.skipped == {} && s.oldest <= s.reported + 1 && s.reported <= s.cursor
    ensures var t := Exec(src, s, steps); t.skipped == {} && t.oldest <= t.reported + 1 && t.reported <= t.cursor
    decreases |steps|
  {
    if steps != [] {
      StepKeepsInvariant(src, s, steps[0]);
      FloorPreventsLoss(src, Do(src, s, steps[0]), steps[1..]);
    }
  }

  /** Hence everything up to the cursor is at rest, without exception. */
  lemma HonouredRunIsComplete(src: Source, s: State, steps: seq<Step>)
    requires Initial(s) && s.oldest <= 1 && Legal(src, s, steps) && FloorHonoured(src, s, steps)
    ensures
      var t := Exec(src, s, steps);
      forall n: nat, e :: 0 < n <= t.cursor && e in src.inserts(n) ==> AtRest(src, t.rows, e)
  {
    FloorPreventsLoss(src, s, steps);
    RunKeepsInvariant(src, s, steps);
  }

  /** A stale reset moves the reported floor past the stored cursor exactly when the cursor has itself expired. */
  lemma StaleRecoverReportsPastCursorIff(src: Source, s: State, cur: nat)
    requires Invariant(src, s) && Enabled(src, s, StaleRecover(cur))
    ensures
      var t := Do(src, s, StaleRecover(cur));
      t.cursor == s.cursor && t.rows == s.rows && (t.cursor < t.reported <==> s.cursor + 1 < s.oldest)
  {
  }

  lemma {:induction false} OneMoreStep(src: Source, s: State, steps: seq<Step>, step: Step)
    requires Legal(src, s, steps) && Enabled(src, Exec(src, s, steps), step)
    ensures Legal(src, s, steps + [step]) && Exec(src, s, steps + [step]) == Do(src, Exec(src, s, steps), step)
    decreases |steps|
  {
    if steps == [] {
      assert [] + [step] == [step] && [step][1..] == [];
    } else {
      assert (steps + [step])[1..] == steps[1..] + [step];
      OneMoreStep(src, Do(src, s, steps[0]), steps[1..], step);
    }
  }

  /** Some run gets there, whatever is in the feed: a span commits unseen, history expires, the old range is reset. */
  lemma StaleRecoverIsReached(src: Source) returns (start: State, steps: seq<Step>)
    ensures Initial(start) && Legal(src, start, steps)
    ensures Exec(src, start, steps).cursor < Exec(src, start, steps).reported
  {
    start := State(0, 4, 0, 0, multiset{}, {}, {}, Idle);
    var windows := [src.Span(0, 1)];
    assert FlatRows(windows) == src.Span(0, 1) by {
      assert windows[1..] == [];
      assert src.Span(0, 1) + [] == src.Span(0, 1);
    }
    OneMoreStep(src, start, [], Open(1, windows));
    steps := [] + [Open(1, windows)];
    OneMoreStep(src, start, steps, Commit(0));
    OneMoreStep(src, start, steps + [Commit(0)], Expire(4));
    OneMoreStep(src, start, steps + [Commit(0)] + [Expire(4)], StaleRecover(0));
    steps := steps + [Commit(0)] + [Expire(4)] + [StaleRecover(0)];
  }

  // ----- no duplicates

  /** The window decodes without repetition, inside the probe's reach. */
  ghost predicate WithinProbe(src: Source, win: seq<RawEvent>, floor: int) {
    && Distinct(src.DecodedAll(win)) && Timed(src.DecodedAll(win))
    && forall r :: r in src.DecodedAll(win) ==> floor <= r.ts
  }

  lemma {:induction false} DecodedAppend(src: Source, a: seq<RawEvent>, b: seq<RawEvent>)
    ensures src.DecodedAll(a + b) == src.DecodedAll(a) + src.DecodedAll(b)
  {
    if b == [] {
      assert a + b == a;
    } else {
      assert (a + b)[..|a + b| - 1] == a + b[..|b| - 1];
      DecodedAppend(src, a, b[..|b| - 1]);
    }
  }

  lemma DecodedSplit(src: Source, rows: seq<RawEvent>, a: nat)
    requires a <= |rows|
    ensures src.DecodedAll(rows) == src.DecodedAll(rows[..a]) + src.DecodedAll(rows[a..])
  {
    assert rows == rows[..a] + rows[a..];
    DecodedAppend(src, rows[..a], rows[a..]);
  }

  lemma DecodedPiece(src: Source, rows: seq<RawEvent>, a: nat, b: nat) returns (x: seq<Identity>, z: seq<Identity>)
    requires a <= b <= |rows|
    ensures src.DecodedAll(rows) == x + src.DecodedAll(rows[a..b]) + z
  {
    DecodedSplit(src, rows, b);
    DecodedSplit(src, rows[..b], a);
    assert rows[..b][..a] == rows[..a] && rows[..b][a..] == rows[a..b];
    x, z := src.DecodedAll(rows[..a]), src.DecodedAll(rows[b..]);
  }

  lemma DistinctPiece(all: seq<Identity>, x: seq<Identity>, y: seq<Identity>, z: seq<Identity>)
    requires all == x + y + z && Distinct(all)
    ensures Distinct(y)
  {
    forall i, j | 0 <= i < j < |y| ensures y[i] != y[j] {
      assert all[|x| + i] == y[i] && all[|x| + j] == y[j];
    }
  }

  /** A piece of rows within the probe is within it too. */
  lemma PieceWithinProbe(src: Source, rows: seq<RawEvent>, a: nat, b: nat, floor: int)
    requires a <= b <= |rows| && WithinProbe(src, rows, floor)
    ensures WithinProbe(src, rows[a..b], floor)
  {
    var all, y := src.DecodedAll(rows), src.DecodedAll(rows[a..b]);
    var x, z := DecodedPiece(src, rows, a, b);
    DistinctPiece(all, x, y, z);
    assert forall r :: r in y ==> r in all;
  }

  ghost predicate ProbeHolds(src: Source, s: State, step: Step) {
    (step.Write? ==> s.phase.Writing? && s.phase.todo != [] && WithinProbe(src, s.phase.todo[0], step.floor)) &&
    (step.Commit? ==> s.phase.Writing? && s.phase.todo != [] && WithinProbe(src, s.phase.todo[0], step.floor))
  }

  ghost predicate ProbeHoldsRun(src: Source, s: State, steps: seq<Step>)
    requires Legal(src, s, steps)
    decreases |steps|
  {
    steps == [] || (ProbeHolds(src, s, steps[0]) && ProbeHoldsRun(src, Do(src, s, steps[0]), steps[1..]))
  }

  /**
   Exactly once: under those conditions no schedule of crashes, retries and lost
   acknowledgements stores a row twice.
   */
  lemma {:induction false} EveryRunIsDuplicateFree(src: Source, s: State, steps: seq<Step>)
    requires NoDuplicates(s.rows) && Legal(src, s, steps) && ProbeHoldsRun(src, s, steps)
    ensures NoDuplicates(Exec(src, s, steps).rows)
    decreases |steps|
  {
    if steps != [] {
      if steps[0].Write? || steps[0].Commit? {
        InsertKeepsNoDuplicates(s.rows, src.DecodedAll(s.phase.todo[0]), steps[0].floor);
      }
      EveryRunIsDuplicateFree(src, Do(src, s, steps[0]), steps[1..]);
    }
  }

  /**
   Exactly once, in one statement: in every honoured run from the start inside the
   probe's reach, with no span left open or abandoned beyond the cursor, the table holds
   the decode of the feed up to the cursor, each row once, and nothing else.
   */
  lemma EveryRunIsExactlyOnce(src: Source, s: State, steps: seq<Step>, r: Identity)
    requires Initial(s) && s.oldest <= 1 && Legal(src, s, steps)
    requires FloorHonoured(src, s, steps) && ProbeHoldsRun(src, s, steps)
    requires var t := Exec(src, s, steps); t.taken <= SpanOf(0, t.cursor)
    ensures
      var t := Exec(src, s, steps);
      t.rows[r] == if r in src.DecodedAll(src.Span(0, t.cursor)) then 1 else 0
  {
    var t := Exec(src, s, steps);
    EveryRunIsComplete(src, s, steps);
    HonouredRunIsComplete(src, s, steps);
    EveryRunIsDuplicateFree(src, s, steps);
    DecodedMembers(src, src.Span(0, t.cursor), r);
    if r in src.DecodedAll(src.Span(0, t.cursor)) {
      var e :| e in src.Span(0, t.cursor) && r in src.Decoded(e);
      SpanMembers(src, 0, t.cursor, e);
      assert AtRest(src, t.rows, e);
    } else if r in t.rows {
      var m: nat, e :| m in t.taken && e in src.inserts(m) && r in src.Decoded(e);
      SpanMembers(src, 0, t.cursor, e);
    }
  }

  /** Events with distinct ids, each decoding to distinct rows that carry its id, decode without repetition. */
  lemma {:induction false} DistinctEventsDecodeDistinct(src: Source, win: seq<RawEvent>)
    requires forall i, j :: 0 <= i < j < |win| ==> win[i].key.id != win[j].key.id
    requires forall e, r :: e in win && r in src.Decoded(e) ==> r.ceid == e.key.id
    requires forall e :: e in win ==> Distinct(src.Decoded(e))
    ensures Distinct(src.DecodedAll(win))
  {
    if win != [] {
      var front, last := win[..|win| - 1], win[|win| - 1];
      var a, b := src.DecodedAll(front), src.Decoded(last);
      assert last in win && forall e :: e in front ==> e in win;
      DistinctEventsDecodeDistinct(src, front);
      forall i, j | 0 <= i < |a| && 0 <= j < |b| ensures a[i] != b[j] {
        DecodedMembers(src, front, a[i]);
        var e :| e in front && a[i] in src.Decoded(e);
        assert b[j] in src.Decoded(last);
      }
    }
  }
}
