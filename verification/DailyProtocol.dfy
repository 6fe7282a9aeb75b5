/**
 The daily refresh as a protocol: commits, seeds, folds, late recomputes and
 crash-restarts, one catalog transaction per step.

 Premises of the source that are guards here: state is loaded before the first
 commit; an error after a refresh transaction has landed is a crash-restart;
 the late set does not overflow; one process, no backfill, no pruning.
 */
module DailyProtocol {
  import opened Signals
  import opened Rollup
  import opened Buckets
  import opened RollupCatalog

  /** Where the decode goroutine stands in a refresh. Decoding happens only in `Idle`. */
  datatype Phase = Idle | Seeding(w: int, next: nat) | Recomputing(w: int)

  /**
   The catalog plus `dailyStateLoaded`, `dailyWatermark` and `dailyLateSeen`. `pending`
   is history: the rows that arrived late and have not been recomputed yet.
   */
  datatype State = State(
    cat: Catalog, loaded: bool, mark: Option<int>, seen: set<string>, pending: set<Row>, phase: Phase)

  datatype Step =
    | Load
      /**
       The transaction landed; `acked` tells whether the process saw that, `overflow`
       whether the dedup set was reset.
       */
    | Commit(batch: set<Row>, acked: bool, overflow: bool)
    | SeedClear(boundary: int)
    | SeedBucket
    | SeedFinish
      /** A seed that fails before its last transaction: decoding goes on in the same process. */
    | SeedFail
    | Fold(boundary: int)
    | LateChunk(chunk: set<string>)
    | Finish
    | Crash

  ghost predicate Enabled(s: State, step: Step) {
    match step
    case Load => !s.loaded
    case Commit(batch, _, _) => s.loaded && s.phase.Idle? && Coherent(s.cat.base + batch)
    case SeedClear(w) => s.loaded && s.phase.Idle? && s.mark.None? && 0 < w && w % DAY == 0
    case SeedBucket => s.phase.Seeding? && s.phase.next < NUM_BUCKETS
    case SeedFinish => s.phase.Seeding? && s.phase.next == NUM_BUCKETS
    case SeedFail => s.phase.Seeding?
    case Fold(w) =>
      s.loaded && s.phase.Idle? && s.mark.Some? && s.mark.value < w && w % DAY == 0 && s.cat.mark == s.mark
    case LateChunk(chunk) => s.phase.Recomputing? && chunk <= s.cat.late
    case Finish => s.phase.Recomputing? && s.cat.late == {}
    case Crash => true
  }

  ghost function StampedBefore(batch: set<Row>, w: Option<int>): set<string> {
    if w.None? then {} else set r | r in batch && r.ts < w.value :: r.key.subject
  }

  ghost function Do(s: State, step: Step): State
    requires Enabled(s, step)
  {
    match step
    case Load => s.(loaded := true, mark := s.cat.mark, seen := {}, phase := Idle)
    case Commit(batch, acked, overflow) =>
      s.(cat := CommitTx(s.cat, batch, LateMarks(batch, s.mark, s.seen)),
         pending := PendingAfter(s.cat, s.pending, batch),
         seen := if !acked then s.seen else if overflow then {} else s.seen + StampedBefore(batch, s.mark))
    case SeedClear(w) => s.(cat := s.cat.(table := map[]), phase := Seeding(w, 0))
    case SeedBucket =>
      s.(cat := SeedBucketTx(s.cat, s.phase.next, s.phase.w), phase := Seeding(s.phase.w, s.phase.next + 1))
    case SeedFinish =>
      s.(cat := SeedFinishTx(s.cat, s.phase.w), mark := Some(s.phase.w), seen := {}, pending := {}, phase := Idle)
    case SeedFail => s.(phase := Idle)
    case Fold(w) => s.(cat := FoldTx(s.cat, s.mark.value, w), phase := Recomputing(w))
    case LateChunk(chunk) =>
      s.(cat := LateChunkTx(s.cat, chunk, s.phase.w), pending := s.pending - OfSubjects(s.pending, chunk))
    case Finish => s.(mark := Some(s.phase.w), seen := {}, phase := Idle)
    case Crash => State(s.cat, false, None, {}, s.pending, Idle)
  }

  ghost predicate Invariant(s: State) {
    && Accounted(s.cat, s.pending)
    && (s.loaded && s.phase.Idle? ==> s.mark == s.cat.mark && s.seen <= s.cat.late)
    && (s.phase.Seeding? ==>
          && 0 < s.phase.w && s.phase.next <= NUM_BUCKETS && s.cat.mark.None?
          && s.mark.None? && s.seen <= s.cat.late
          && SeededTo(s.cat, s.phase.w, s.phase.next))
    && (s.phase.Recomputing? ==> s.cat.mark == Some(s.phase.w))
    && (!s.loaded ==> s.phase.Idle?)
  }

  /** Every step of the protocol keeps the invariant. */
  lemma StepKeepsInvariant(s: State, step: Step)
    requires Invariant(s) && Enabled(s, step)
    ensures Invariant(Do(s, step))
  {
    match step
    case Load =>
    case Commit(batch, acked, overflow) => CommitKeepsInvariant(s, step);
    case SeedClear(w) =>
    case SeedBucket => SeedBucketAdvances(s.cat, s.phase.w, s.phase.next);
    case SeedFinish => SeedFinishIsRecompute(s.cat, s.phase.w);
    case SeedFail =>
    case Fold(w) => FoldAccounts(s.cat, s.pending, w);
    case LateChunk(chunk) => LateChunkAccounts(s.cat, s.pending, chunk);
    case Finish =>
    case Crash =>
  }

  lemma CommitKeepsInvariant(s: State, step: Step)
    requires Invariant(s) && step.Commit? && Enabled(s, step)
    ensures Invariant(Do(s, step))
  {
    var marks := LateMarks(step.batch, s.mark, s.seen);
    MarksCoverLateRows(s, step.batch);
    CommitAccounts(s.cat, s.pending, step.batch, marks);
  }

  /** With the watermark in memory at the stored one, every late subject of a batch is marked or was already. */
  lemma MarksCoverLateRows(s: State, batch: set<Row>)
    requires s.mark.Some? ==> s.seen <= s.cat.late
    ensures s.mark.Some? ==> Subjects(Before(batch, s.mark.value)) <= s.cat.late + LateMarks(batch, s.mark, s.seen)
  {
    if s.mark.Some? {
      forall r | r in batch && r.ts < s.mark.value
        ensures r.key.subject in s.cat.late + LateMarks(batch, s.mark, s.seen)
      {
      }
    }
  }

  ghost predicate Legal(s: State, steps: seq<Step>)
    decreases |steps|
  {
    steps == [] || (Enabled(s, steps[0]) && Legal(Do(s, steps[0]), steps[1..]))
  }

  ghost function Exec(s: State, steps: seq<Step>): State
    requires Legal(s, steps)
    decreases |steps|
  {
    if steps == [] then s else Exec(Do(s, steps[0]), steps[1..])
  }

  /** No process, no watermark, nothing pending; the table may hold anything. */
  ghost predicate Initial(s: State) {
    Coherent(s.cat.base) && s.cat.mark.None? && !s.loaded && s.phase.Idle? && s.pending == {}
  }

  /**
   In every run from a catalog that never had a watermark, after every step, no key
   has two rows and each subject without a late mark has exactly the rows of the full
   recompute below the stored watermark.
   */
  lemma {:induction false} EveryRunIsExact(s: State, steps: seq<Step>)
    requires Initial(s) && Legal(s, steps)
    ensures
      var c := Exec(s, steps).cat;
      c.mark.Some? ==>
        && OneRowPerKey(c.table)
        && forall k: Key :: k.subject !in c.late ==> RowsAt(c.table, k) == Recomputed(Before(c.base, c.mark.value), k)
  {
    RunKeepsInvariant(s, steps);
    AccountedIsExact(Exec(s, steps).cat, Exec(s, steps).pending);
  }

  /**
   In terms of the base rows alone: such a subject has a stored row for a name exactly
   if it has base rows for it below the watermark, and that row summarizes them.
   */
  lemma EveryRunSummarizes(s: State, steps: seq<Step>, k: Key)
    requires Initial(s) && Legal(s, steps)
    requires var c := Exec(s, steps).cat; c.mark.Some? && k.subject !in c.late
    ensures
      var c := Exec(s, steps).cat;
      var below, stored := Before(c.base, c.mark.value), RowsAt(c.table, k);
      && (stored == [] <==> forall r :: r in below ==> r.key != k)
      && (stored != [] ==> |stored| == 1 && Summarizes(stored[0], below, k))
  {
    RunKeepsInvariant(s, steps);
    var t := Exec(s, steps);
    AccountedIsExact(t.cat, t.pending);
    var below := Before(t.cat.base, t.cat.mark.value);
    assert RowsAt(t.cat.table, k) == Recomputed(below, k);
    SelectKeys(below, k);
    assert Group(below, k) == {} <==> forall r :: r in below ==> r.key != k by {
      assert forall r :: r in below && r.key == k ==> r in Group(below, k);
    }
    if k in RollupSelect(below) {
      SelectSummarizes(below, k);
    }
  }

  /**
   And for every subject, marked or not, the table is the recompute of the rows below
   the watermark other than those still pending, all of which are marked.
   */
  lemma EveryRunIsAccounted(s: State, steps: seq<Step>)
    requires Initial(s) && Legal(s, steps)
    ensures
      var t := Exec(s, steps);
      t.cat.mark.Some? ==>
        && t.pending <= Before(t.cat.base, t.cat.mark.value) && Subjects(t.pending) <= t.cat.late
        && forall k :: RowsAt(t.cat.table, k) == Recomputed(Before(t.cat.base, t.cat.mark.value) - t.pending, k)
  {
    RunKeepsInvariant(s, steps);
  }

  lemma {:induction false} RunKeepsInvariant(s: State, steps: seq<Step>)
    requires Invariant(s) && Legal(s, steps)
    ensures Invariant(Exec(s, steps))
    decreases |steps|
  {
    if steps != [] {
      StepKeepsInvariant(s, steps[0]);
      RunKeepsInvariant(Do(s, steps[0]), steps[1..]);
    }
  }

  lemma {:induction false} OneMoreStep(s: State, steps: seq<Step>, step: Step)
    requires Legal(s, steps) && Enabled(Exec(s, steps), step)
    ensures Legal(s, steps + [step]) && Exec(s, steps + [step]) == Do(Exec(s, steps), step)
    decreases |steps|
  {
    if steps == [] {
      assert [] + [step] == [step] && [step][1..] == [];
    } else {
      assert (steps + [step])[1..] == steps[1..] + [step];
      OneMoreStep(Do(s, steps[0]), steps[1..], step);
    }
  }

  /** A whole first seed, of an empty catalog. */
  lemma EmptySeedRun(w: int) returns (start: State, steps: seq<Step>)
    requires 0 < w && w % DAY == 0
    ensures Initial(start) && Legal(start, steps)
    ensures
      var s := Exec(start, steps);
      s.loaded && s.phase.Idle? && s.cat.mark == s.mark == Some(w) && s.cat.base == {} && s.cat.late == {}
  {
    start := State(Catalog({}, map[], None, {}), false, None, {}, {}, Idle);
    OneMoreStep(start, [], Load);
    OneMoreStep(start, [] + [Load], SeedClear(w));
    steps := [] + [Load] + [SeedClear(w)];
    for i := 0 to NUM_BUCKETS
      invariant Legal(start, steps)
      invariant Exec(start, steps).phase == Seeding(w, i) && Exec(start, steps).cat.base == {}
      invariant Exec(start, steps).loaded
    {
      OneMoreStep(start, steps, SeedBucket);
      steps := steps + [SeedBucket];
    }
    OneMoreStep(start, steps, SeedFinish);
    steps := steps + [SeedFinish];
  }

  /** A refresh that reaches its end leaves the whole table equal to the recompute at the new watermark. */
  lemma FinishedRefreshIsRecompute(s: State)
    requires Invariant(s) && (Enabled(s, Finish) || Enabled(s, SeedFinish))
    ensures
      var c := Do(s, if s.phase.Seeding? then SeedFinish else Finish).cat;
      && c.mark == Some(s.phase.w)
      && forall k :: RowsAt(c.table, k) == Recomputed(Before(c.base, s.phase.w), k)
  {
    var step := if s.phase.Seeding? then SeedFinish else Finish;
    StepKeepsInvariant(s, step);
    NoMarksNothingPending(Do(s, step).cat, Do(s, step).pending);
  }

  // ----- why the premises are needed

  /**
   The in-process error path: the fold's transaction has landed and a late chunk
   fails, so the refresh returns without moving `dailyWatermark`, and decoding goes on.
   */
  ghost function FailAfterFold(s: State): State
    requires s.phase.Recomputing?
  {
    s.(phase := Idle)
  }

  /** No row of `batch` repeats a (subject, name, timestamp) of `base`. */
  ghost predicate FreshStamps(base: set<Row>, batch: set<Row>) {
    forall r, q :: r in batch && q in base && r.key == q.key ==> r.ts != q.ts
  }

  /** Some row of `batch` lies below the stored watermark and its subject carries no mark. */
  ghost predicate Unmarked(c: Catalog, batch: set<Row>) {
    c.mark.Some? && exists r :: r in batch && r.ts < c.mark.value && r.key.subject !in c.late
  }

  lemma FreshDedup(a: set<Row>, b: set<Row>)
    requires FreshStamps(a, b)
    ensures Dedup(a + b) == Dedup(a) + Dedup(b)
  {
  }

  /** A row with a new timestamp changes the recompute of its key: the count grows. */
  lemma FreshRowChangesRecompute(a: set<Row>, b: set<Row>, r: Row)
    requires r in b && FreshStamps(a, b)
    ensures Recomputed(a, r.key) != Recomputed(a + b, r.key)
  {
    var k := r.key;
    var ga, gb := Group(Dedup(a), k), Group(Dedup(b), k);
    FreshDedup(a, b);
    assert Group(Dedup(a + b), k) == ga + gb;
    DedupKeepsRow(b, r);
    var m :| m in Dedup(b) && m.key == k && m.ts == r.ts;
    assert m in gb;
    assert ga !! gb;
    assert |ga + gb| == |ga| + |gb| && 0 < |gb|;
  }

  lemma UnmarkedRowBreaksExact(c: Catalog, batch: set<Row>, marks: set<string>)
    requires Exact(c) && c.mark.Some? && FreshStamps(c.base, batch)
    requires Unmarked(CommitTx(c, batch, marks), batch)
    ensures !Exact(CommitTx(c, batch, marks))
  {
    var c', w := CommitTx(c, batch, marks), c.mark.value;
    var r :| r in batch && r.ts < w && r.key.subject !in c'.late;
    assert Before(c'.base, w) == Before(c.base, w) + Before(batch, w);
    FreshRowChangesRecompute(Before(c.base, w), Before(batch, w), r);
    assert RowsAt(c.table, r.key) == Recomputed(Before(c.base, w), r.key);
  }

  /**
   What a commit of rows with new timestamps does to the rollup depends on the
   watermark and the dedup set in memory, whatever they are: it stays exact if and only
   if every subject of a row below the stored watermark is marked, already or by it.
   */
  lemma CommitIsExactIff(s: State, batch: set<Row>)
    requires s.loaded && s.phase.Idle? && Exact(s.cat) && s.cat.mark.Some?
    requires Coherent(s.cat.base + batch) && FreshStamps(s.cat.base, batch)
    ensures
      Exact(Do(s, Commit(batch, true, false)).cat) <==>
      forall r :: r in batch && r.ts < s.cat.mark.value ==>
                    r.key.subject in s.cat.late + LateMarks(batch, s.mark, s.seen)
  {
    var marks := LateMarks(batch, s.mark, s.seen);
    if forall r :: r in batch && r.ts < s.cat.mark.value ==> r.key.subject in s.cat.late + marks {
      CommitKeepsExact(s.cat, batch, marks);
    } else {
      UnmarkedRowBreaksExact(s.cat, batch, marks);
    }
  }

  /**
   With the dedup set intact and a watermark in memory that trails the stored one, only
   rows between the two can break it.
   */
  lemma StaleWatermarkIsExactIff(s: State, batch: set<Row>)
    requires s.loaded && s.phase.Idle? && Exact(s.cat) && s.seen <= s.cat.late
    requires Coherent(s.cat.base + batch) && FreshStamps(s.cat.base, batch)
    requires s.mark.Some? && s.cat.mark.Some? && s.mark.value <= s.cat.mark.value
    ensures
      Exact(Do(s, Commit(batch, true, false)).cat) <==>
      forall r :: r in batch && s.mark.value <= r.ts < s.cat.mark.value ==>
                    r.key.subject in s.cat.late + LateMarks(batch, s.mark, s.seen)
  {
    MarksCoverLateRows(s, batch);
    forall r | r in batch && r.ts < s.mark.value
      ensures r.key.subject in s.cat.late + LateMarks(batch, s.mark, s.seen)
    {
      assert r.key.subject in Subjects(Before(batch, s.mark.value));
    }
    CommitIsExactIff(s, batch);
  }

  /** A row below the stored watermark, with a new timestamp, that a commit in this state does not mark. */
  ghost predicate Overlooked(s: State, row: Row) {
    && Coherent(s.cat.base + {row}) && FreshStamps(s.cat.base, {row})
    && s.cat.mark.Some? && row.ts < s.cat.mark.value
    && row.key.subject !in s.cat.late + LateMarks({row}, s.mark, s.seen)
  }

  lemma OverlookedRowIsLost(s: State, row: Row)
    requires s.loaded && s.phase.Idle? && Accounted(s.cat, s.pending) && Overlooked(s, row)
    ensures Enabled(s, Commit({row}, true, false)) && !Exact(Do(s, Commit({row}, true, false)).cat)
  {
    AccountedIsExact(s.cat, s.pending);
    assert row in {row};
    CommitIsExactIff(s, {row});
  }

  /**
   First path: the refresh fails after its fold has landed. `dailyWatermark` stays
   behind, so a late row between the two watermarks is lost.
   */
  lemma StaleWatermarkLosesLateRow(s: State, w: int, row: Row)
    requires Invariant(s) && Enabled(s, Fold(w)) && Coherent(s.cat.base + {row}) && FreshStamps(s.cat.base, {row})
    requires s.mark.value <= row.ts < w && row.key.subject !in s.cat.late
    ensures
      var failed := FailAfterFold(Do(s, Fold(w)));
      Enabled(failed, Commit({row}, true, false)) && !Exact(Do(failed, Commit({row}, true, false)).cat)
  {
    FoldAccounts(s.cat, s.pending, w);
    OverlookedRowIsLost(FailAfterFold(Do(s, Fold(w))), row);
  }

  /**
   Second path: a late chunk lands and a later one fails. `dailyLateSeen` still holds
   the unmarked subjects, so any late row of theirs is lost, also one below the old
   watermark.
   */
  lemma StaleSeenLosesLateRow(s: State, w: int, chunk: set<string>, row: Row)
    requires Invariant(s) && Enabled(s, Fold(w)) && Enabled(Do(s, Fold(w)), LateChunk(chunk))
    requires Coherent(s.cat.base + {row}) && FreshStamps(s.cat.base, {row})
    requires row.ts < w && row.key.subject in chunk && row.key.subject in s.seen
    ensures
      var failed := FailAfterFold(Do(Do(s, Fold(w)), LateChunk(chunk)));
      Enabled(failed, Commit({row}, true, false)) && !Exact(Do(failed, Commit({row}, true, false)).cat)
  {
    StepKeepsInvariant(s, Fold(w));
    StepKeepsInvariant(Do(s, Fold(w)), LateChunk(chunk));
    OverlookedRowIsLost(FailAfterFold(Do(Do(s, Fold(w)), LateChunk(chunk))), row);
  }

  /** Both watermarks exist and differ: the compare-and-swap of every later fold fails. */
  ghost predicate Stuck(s: State) {
    s.loaded && s.phase.Idle? && s.mark.Some? && s.cat.mark.Some? && s.mark != s.cat.mark
  }

  /**
   On both paths the process never refreshes again: until it restarts, no run moves a
   watermark or touches the rollup, and no fold is ever possible.
   */
  lemma {:induction false} StuckUntilRestart(s: State, steps: seq<Step>)
    requires Stuck(s) && Legal(s, steps) && forall i :: 0 <= i < |steps| ==> !steps[i].Crash?
    ensures
      var t := Exec(s, steps);
      && Stuck(t) && t.mark == s.mark && t.cat.mark == s.cat.mark && t.cat.table == s.cat.table
      && forall w :: !Enabled(t, Fold(w)) && !Enabled(t, SeedClear(w))
    decreases |steps|
  {
    if steps != [] {
      assert !steps[0].Crash?;
      StuckUntilRestart(Do(s, steps[0]), steps[1..]);
    }
  }

  lemma FailureAfterFoldIsStuck(s: State, w: int)
    requires Invariant(s) && Enabled(s, Fold(w))
    ensures Stuck(FailAfterFold(Do(s, Fold(w))))
    ensures forall chunk :: Enabled(Do(s, Fold(w)), LateChunk(chunk)) ==>
              Stuck(FailAfterFold(Do(Do(s, Fold(w)), LateChunk(chunk))))
  {
  }

  /** The seed's last transaction lands and its acknowledgement is lost: memory still knows no watermark. */
  ghost function UnseenSeedFinish(s: State): State
    requires Enabled(s, SeedFinish)
  {
    Do(s, SeedFinish).(mark := s.mark, seen := s.seen)
  }

  /** Third path: then no late row is marked at all. */
  lemma UnseenSeedLosesLateRow(s: State, row: Row)
    requires Invariant(s) && Enabled(s, SeedFinish)
    requires Coherent(s.cat.base + {row}) && FreshStamps(s.cat.base, {row}) && row.ts < s.phase.w
    ensures
      var unseen := UnseenSeedFinish(s);
      Enabled(unseen, Commit({row}, true, false)) && !Exact(Do(unseen, Commit({row}, true, false)).cat)
  {
    StepKeepsInvariant(s, SeedFinish);
    OverlookedRowIsLost(UnseenSeedFinish(s), row);
  }

  /**
   The overflow branch clears every late mark before it reseeds, while the new
   watermark already stands. If the process dies in between, pending rows with new
   timestamps are lost for good, however they came together: the invariant survives if
   and only if there are none.
   */
  lemma OverflowClearIsExactIff(c: Catalog, pending: set<Row>)
    requires Accounted(c, pending) && c.mark.Some? && FreshStamps(Before(c.base, c.mark.value) - pending, pending)
    ensures Exact(c.(late := {})) <==> pending == {}
  {
    if r :| r in pending {
      PendingRowBreaksExact(c, pending, r);
    } else {
      assert pending == {};
      ClearedIsExact(c, c.(late := {}));
    }
  }

  lemma ClearedIsExact(c: Catalog, bare: Catalog)
    requires Accounted(c, {}) && bare == Catalog(c.base, c.table, c.mark, {})
    ensures Exact(bare)
  {
    assert Subjects({}) == {};
    AccountedIsExact(bare, {});
  }

  lemma PendingRowBreaksExact(c: Catalog, pending: set<Row>, r: Row)
    requires Accounted(c, pending) && c.mark.Some? && r in pending
    requires FreshStamps(Before(c.base, c.mark.value) - pending, pending)
    ensures !Exact(c.(late := {}))
  {
    var below, bare := Before(c.base, c.mark.value), c.(late := {});
    assert Recomputed(below - pending, r.key) != Recomputed(below, r.key) by {
      FreshRowChangesRecompute(below - pending, pending, r);
      assert below - pending + pending == below;
    }
    assert RowsAt(bare.table, r.key) != Recomputed(Before(bare.base, bare.mark.value), r.key);
  }

  /**
   A death inside the reseed leaves the watermark over a table that is seeded in part:
   the invariant survives, whatever was pending, if and only if every subject with a row
   below the watermark lies in a bucket that was reached.
   */
  lemma PartialReseedIsExactIff(c: Catalog, w: int, n: nat)
    requires Coherent(c.base) && 0 < w && c.mark == Some(w) && c.late == {} && SeededTo(c, w, n)
    ensures Exact(c) <==> forall r :: r in Before(c.base, w) ==> HashBucket(r.key.subject) < n
  {
    var below := Before(c.base, w);
    forall k: Key
      ensures RowsAt(c.table, k) == if HashBucket(k.subject) < n then Recomputed(below, k) else []
      ensures |RowsAt(c.table, k)| <= 1
      ensures Recomputed(below, k) == [] <==> Group(below, k) == {}
    {
      SelectKeys(below, k);
    }
    if r :| r in below && n <= HashBucket(r.key.subject) {
      assert r in Group(below, r.key);
      assert RowsAt(c.table, r.key) != Recomputed(below, r.key);
    } else {
      forall k: Key ensures RowsAt(c.table, k) == Recomputed(below, k) {
        if n <= HashBucket(k.subject) {
          assert forall r :: r in below ==> r.key != k;
          assert Group(below, k) == {};
        }
      }
    }
  }

  /** Subject number `i`. */
  function Numbered(i: nat): string {
    seq(i, _ => '0')
  }

  /** One row for each of `n` subjects. */
  ghost function Fleet(n: nat, ts: int): set<Row> {
    set i | 0 <= i < n :: Row(Key(Numbered(i), "speed"), ts, 1, Value(0.0, ""), NO_FIX)
  }

  lemma {:induction false} FleetSize(n: nat, ts: int)
    ensures |Subjects(Fleet(n, ts))| == n
  {
    if n != 0 {
      FleetSize(n - 1, ts);
      var r := Row(Key(Numbered(n - 1), "speed"), ts, 1, Value(0.0, ""), NO_FIX);
      assert Fleet(n, ts) == Fleet(n - 1, ts) + {r};
      assert Subjects(Fleet(n, ts)) == Subjects(Fleet(n - 1, ts)) + {Numbered(n - 1)};
      forall q | q in Fleet(n - 1, ts) ensures q.key.subject != Numbered(n - 1) {
        assert |q.key.subject| < n - 1;
      }
    }
  }

  /** Whatever the cap, a late batch overflows it, and the branch then breaks the invariant. */
  lemma OverflowLosesLateRows(maxDirtySubjects: nat, w: int)
    requires 0 < w
    ensures
      var fleet := Fleet(maxDirtySubjects + 1, 0);
      var marked := CommitTx(Catalog({}, map[], Some(w), {}), fleet, Subjects(fleet));
      Exact(marked) && maxDirtySubjects < |marked.late| && !Exact(marked.(late := {}))
  {
    var c, fleet := Catalog({}, map[], Some(w), {}), Fleet(maxDirtySubjects + 1, 0);
    forall k ensures RowsAt(c.table, k) == Recomputed(Before(c.base, w) - {}, k) {
      SelectKeys({}, k);
      assert Before(c.base, w) - {} == {} && Group({}, k) == {};
    }
    assert Coherent(c.base + fleet);
    assert Before(fleet, w) == fleet;
    FleetSize(maxDirtySubjects + 1, 0);
    CommitAccounts(c, {}, fleet, Subjects(fleet));
    var marked := CommitTx(c, fleet, Subjects(fleet));
    assert PendingAfter(c, {}, fleet) == fleet && Before(marked.base, w) - fleet == {};
    AccountedIsExact(marked, fleet);
    OverflowClearIsExactIff(marked, fleet);
    assert Subjects(fleet) != {};
  }
}
