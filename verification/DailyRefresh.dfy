/**
 The materializer's daily refresh in the form the source has it: an object whose
 methods run catalog transactions, any of which may fail, and keep
 `dailyWatermark` and `dailyLateSeen` beside them.
 */
module DailyRefresh {
  import opened Signals
  import opened Sorting
  import opened Buckets
  import opened RollupCatalog
  import DailyProtocol

  /** Subjects per late-recompute transaction. */
  const ROLLUP_SUBJECT_CHUNK: nat := 500

  predicate Midnight(t: int) {
    t % DAY == 0
  }

  /** The midnight a refresh targets: today's once `delay` has passed, yesterday's before. */
  function LatestDue(now: int, delay: int): int {
    var midnight := now - now % DAY;
    if now - midnight < delay then midnight - DAY else midnight
  }

  /** dailyRefreshBoundary: the boundary to refresh to, if any is due. */
  function DailyRefreshBoundary(now: int, watermark: Option<int>, delay: int): Option<int> {
    if watermark.Some? && LatestDue(now, delay) <= watermark.value then None else Some(LatestDue(now, delay))
  }

  /** `t` is the last midnight that lies at least `delay` in the past. */
  ghost predicate IsLatestDue(now: int, delay: int, t: int) {
    Midnight(t) && t + delay <= now && forall u :: Midnight(u) && u + delay <= now ==> u <= t
  }

  /**
   The targeted boundary is that midnight if and only if the delay is at most a day
   longer than the time of day, and is not negative by more than the rest of the day.
   */
  lemma LatestDueIff(now: int, delay: int)
    ensures IsLatestDue(now, delay, LatestDue(now, delay)) <==> now % DAY - DAY < delay <= now % DAY + DAY
  {
    var due := LatestDue(now, delay);
    assert Midnight(due) by { MidnightShift(now, due); }
    if IsLatestDue(now, delay, due) {
      MidnightShift(due, due + DAY);
      assert !(due + DAY + delay <= now);
    }
    if now % DAY - DAY < delay <= now % DAY + DAY {
      forall u | Midnight(u) && u + delay <= now ensures u <= due {
        NextMidnight(due, u);
      }
    }
  }

  /** So a delay of up to a day always gives it, and a longer one does not, at midnight for one. */
  lemma DelayBeyondADay(delay: int)
    ensures (forall now :: IsLatestDue(now, delay, LatestDue(now, delay))) <==> 0 <= delay <= DAY
  {
    if 0 <= delay <= DAY {
      forall now ensures IsLatestDue(now, delay, LatestDue(now, delay)) {
        LatestDueIff(now, delay);
      }
    } else {
      var now := if delay < 0 then DAY - 1 else 0;
      LatestDueIff(now, delay);
    }
  }

  lemma MidnightShift(now: int, t: int)
    requires t == now - now % DAY || t == now - now % DAY - DAY || t == now - now % DAY + DAY
    ensures Midnight(t)
  {
    assert now - now % DAY == DAY * (now / DAY);
  }

  lemma NextMidnight(t: int, u: int)
    requires Midnight(t) && Midnight(u) && u < t + DAY
    ensures u <= t
  {
    assert t == DAY * (t / DAY) && u == DAY * (u / DAY);
  }

  class Materializer {
    // the catalog: the row contents only matter to the proof
    ghost var base: set<Row>
    ghost var table: Table
    ghost var pending: set<Row>
    var stored: Option<int>
    var late: set<string>
    // the process
    var dailyStateLoaded: bool
    var dailyWatermark: Option<int>
    var dailyLateSeen: set<string>
    const maxDirtySubjects: nat

    ghost function Cat(): Catalog
      reads this
    {
      Catalog(base, table, stored, late)
    }

    /** The protocol state this object is in between two calls. */
    ghost function Snapshot(): DailyProtocol.State
      reads this
    {
      DailyProtocol.State(Cat(), dailyStateLoaded, dailyWatermark, dailyLateSeen, pending, DailyProtocol.Idle)
    }

    ghost predicate Valid()
      reads this
    {
      DailyProtocol.Invariant(Snapshot())
    }

    /** A process that starts now finds a catalog the protocol can go on from. */
    ghost predicate Restartable()
      reads this
    {
      DailyProtocol.Invariant(DailyProtocol.Do(Snapshot(), DailyProtocol.Crash))
    }

    /** Every key is stored as the full recompute below `w` has it, and `w` is the watermark everywhere. */
    ghost predicate RefreshedTo(w: int)
      reads this
    {
      && dailyStateLoaded && stored == dailyWatermark == Some(w) && late == {} && dailyLateSeen == {} && pending == {}
      && IsRecompute(table, Before(base, w))
    }

    constructor (maxDirty: nat)
      ensures Valid() && Cat() == Catalog({}, map[], None, {}) && !dailyStateLoaded
    {
      base, table, pending, stored, late := {}, map[], {}, None, {};
      dailyStateLoaded, dailyWatermark, dailyLateSeen := false, None, {};
      maxDirtySubjects := maxDirty;
    }

    method LoadDailyRollupState(calm: bool) returns (ok: bool)
      modifies this
      ensures calm ==> ok
      ensures (old(Valid()) ==> Valid()) && Cat() == old(Cat()) && pending == old(pending)
      ensures ok ==> dailyStateLoaded
      ensures ok && !old(dailyStateLoaded) ==> dailyWatermark == stored && dailyLateSeen == {}
      ensures !ok || old(dailyStateLoaded) ==> Snapshot() == old(Snapshot())
    {
      if dailyStateLoaded {
        return true;
      }
      ok := *;
      ok := ok || calm;
      if ok {
        dailyStateLoaded, dailyWatermark, dailyLateSeen := true, stored, {};
      }
    }

    /** Some row of the subject is stamped before the watermark in memory. */
    ghost predicate IsLate(signals: seq<Row>, s: string)
      requires dailyWatermark.Some?
      reads this
    {
      exists j :: 0 <= j < |signals| && signals[j].key.subject == s && signals[j].ts < dailyWatermark.value
    }

    /** The distinct late subjects of a batch that are not known to be recorded, in batch order. */
    method LateDailyInsert(signals: seq<Row>) returns (args: seq<string>)
      requires dailyWatermark.Some?
      ensures (set s | s in args) == LateMarks((set r | r in signals), dailyWatermark, dailyLateSeen)
      ensures forall s :: s in args <==> s !in dailyLateSeen && IsLate(signals, s)
      ensures forall i, j :: 0 <= i < j < |args| ==> args[i] != args[j]
    {
      args := [];
      for i := 0 to |signals|
        invariant forall s :: s in args <==> exists j :: 0 <= j < i && signals[j].key.subject == s &&
                                               signals[j].ts < dailyWatermark.value && s !in dailyLateSeen
        invariant forall a, b :: 0 <= a < b < |args| ==> args[a] != args[b]
      {
        var s := signals[i].key.subject;
        if signals[i].ts < dailyWatermark.value && s !in dailyLateSeen && s !in args {
          args := args + [s];
        }
      }
      var marks := LateMarks((set r | r in signals), dailyWatermark, dailyLateSeen);
      forall s ensures s in args <==> s in marks {
        if s in marks {
          var r :| r in signals && r.ts < dailyWatermark.value && s !in dailyLateSeen && r.key.subject == s;
        }
      }
    }

    /** After a commit: remember the recorded subjects, or forget them all when there are too many. */
    method MarkLateDailySeen(signals: seq<Row>)
      requires dailyWatermark.Some?
      modifies this`dailyLateSeen
      ensures
        var all := old(dailyLateSeen) + DailyProtocol.StampedBefore((set r | r in signals), dailyWatermark);
        && (forall s :: s in all <==> s in old(dailyLateSeen) || IsLate(signals, s))
        && dailyLateSeen == if |all| > maxDirtySubjects then {} else all
    {
      for i := 0 to |signals|
        invariant forall s :: s in dailyLateSeen <==> s in old(dailyLateSeen) || IsLate(signals[..i], s)
      {
        assert signals[..i + 1] == signals[..i] + [signals[i]];
        SeenNext(signals, i);
        if signals[i].ts < dailyWatermark.value {
          dailyLateSeen := dailyLateSeen + {signals[i].key.subject};
        }
      }
      assert signals[..|signals|] == signals;
      SeenIsStamped(signals, old(dailyLateSeen));
      if |dailyLateSeen| > maxDirtySubjects {
        dailyLateSeen := {};
      }
    }

    lemma SeenNext(signals: seq<Row>, i: nat)
      requires dailyWatermark.Some? && i < |signals|
      ensures forall s :: IsLate(signals[..i + 1], s) <==>
                IsLate(signals[..i], s) || (signals[i].key.subject == s && signals[i].ts < dailyWatermark.value)
    {
      var before, after := signals[..i], signals[..i + 1];
      forall s ensures IsLate(after, s) <==>
                IsLate(before, s) || (signals[i].key.subject == s && signals[i].ts < dailyWatermark.value)
      {
        if IsLate(before, s) {
          var j :| 0 <= j < i && before[j].key.subject == s && before[j].ts < dailyWatermark.value;
          assert after[j] == before[j];
        }
        assert after[i] == signals[i];
      }
    }

    lemma SeenIsStamped(signals: seq<Row>, was: set<string>)
      requires dailyWatermark.Some? && forall s :: s in dailyLateSeen <==> s in was || IsLate(signals, s)
      ensures dailyLateSeen == was + DailyProtocol.StampedBefore((set r | r in signals), dailyWatermark)
    {
      var stamped := DailyProtocol.StampedBefore((set r | r in signals), dailyWatermark);
      forall s ensures s in stamped <==> IsLate(signals, s) {
        if IsLate(signals, s) {
          var j :| 0 <= j < |signals| && signals[j].key.subject == s && signals[j].ts < dailyWatermark.value;
          assert signals[j] in signals;
        }
      }
    }

    /**
     One decoded batch: its rows and late marks land together or not at all; an error
     may hide a landed transaction.
     */
    method CommitBatch(signals: seq<Row>, calm: bool) returns (ok: bool)
      requires Valid() && dailyStateLoaded && Coherent(base + (set r | r in signals))
      modifies this
      ensures Valid() && dailyStateLoaded && stored == old(stored) && table == old(table)
      ensures
        var batch := set r | r in signals;
        || Cat() == CommitTx(old(Cat()), batch, LateMarks(batch, old(dailyWatermark), old(dailyLateSeen)))
        || (!ok && Cat() == old(Cat()))
      ensures calm ==> ok
    {
      var args := [];
      if dailyWatermark.Some? {
        args := LateDailyInsert(signals);
      }
      var landed: bool := *;
      if !landed && !calm {
        return false;
      }
      LandBatch(signals, args);
      ok := *;
      ok := ok || calm;
      if ok && dailyWatermark.Some? {
        ghost var batch := set r | r in signals;
        DailyProtocol.StepKeepsInvariant(old(Snapshot()), DailyProtocol.Commit(batch, true, false));
        DailyProtocol.StepKeepsInvariant(old(Snapshot()), DailyProtocol.Commit(batch, true, true));
        MarkLateDailySeen(signals);
      }
    }

    /** The transaction: the base rows and the late marks. */
    method LandBatch(signals: seq<Row>, args: seq<string>)
      requires Valid() && dailyStateLoaded && Coherent(base + (set r | r in signals))
      requires (set s | s in args) == LateMarks((set r | r in signals), dailyWatermark, dailyLateSeen)
      modifies this`base, this`late, this`pending
      ensures Valid() && Snapshot() ==
          DailyProtocol.Do(old(Snapshot()), DailyProtocol.Commit((set r | r in signals), false, false))
    {
      ghost var batch := set r | r in signals;
      DailyProtocol.StepKeepsInvariant(Snapshot(), DailyProtocol.Commit(batch, false, false));
      pending := PendingAfter(Cat(), pending, batch);
      base, late := base + batch, late + (set s | s in args);
    }

    /**
     Clear the table, refill it bucket by bucket, then write the watermark and clear
     the late set together. The last commit may land unseen.
     */
    method SeedDailyRollup(boundary: int, calm: bool) returns (ok: bool)
      requires Coherent(base)
      modifies this`table, this`stored, this`late, this`pending
      ensures
        || (stored == Some(boundary) && late == {} && pending == {} && IsRecompute(table, Before(base, boundary)))
        || (!ok && stored == old(stored) && late == old(late) && pending == old(pending))
      ensures calm ==> ok
    {
      ok := *;
      ok := ok || calm;
      if !ok {
        return;
      }
      table := map[];
      for b := 0 to NUM_BUCKETS
        invariant SeededTo(Cat(), boundary, b)
        invariant stored == old(stored) && late == old(late) && pending == old(pending)
      {
        ok := *;
        ok := ok || calm;
        if !ok {
          return;
        }
        SeedBucketAdvances(Cat(), boundary, b);
        table := SeedBucketTx(Cat(), b, boundary).table;
      }
      ok := FinishSeed(boundary, calm);
    }

    /** The seed's last transaction: the watermark, and no late marks. */
    method FinishSeed(boundary: int, calm: bool) returns (ok: bool)
      requires SeededTo(Cat(), boundary, NUM_BUCKETS)
      modifies this`stored, this`late, this`pending
      ensures
        || (stored == Some(boundary) && late == {} && pending == {} && IsRecompute(table, Before(base, boundary)))
        || (!ok && stored == old(stored) && late == old(late) && pending == old(pending))
      ensures calm ==> ok
    {
      var landed: bool := *;
      ok := *;
      landed, ok := landed || calm, (ok && landed) || calm;
      if landed {
        SeedFinishIsRecompute(Cat(), boundary);
        stored, late, pending := Some(boundary), {}, {};
      }
    }

    /** One chunk: delete, recompute and unmark in one transaction, which may land unseen. */
    method RecomputeDailyChunk(chunk: set<string>, boundary: int, calm: bool) returns (ok: bool)
      requires Accounted(Cat(), pending) && stored == Some(boundary)
      modifies this`table, this`late, this`pending
      ensures Accounted(Cat(), pending) && late <= old(late)
      ensures ok ==> late == old(late) - chunk
      ensures calm ==> ok
    {
      var landed: bool := *;
      ok := *;
      landed, ok := landed || calm, (ok && landed) || calm;
      if landed {
        LateChunkAccounts(Cat(), pending, chunk);
        table, pending := LateChunkTx(Cat(), chunk, boundary).table, pending - OfSubjects(pending, chunk);
        late := late - chunk;
      }
    }

    /** Recompute every late subject below the boundary, bucket by bucket and chunk by chunk in sorted order. */
    method RecomputeLateDailySubjects(boundary: int, calm: bool) returns (ok: bool)
      requires Accounted(Cat(), pending) && stored == Some(boundary)
      modifies this`table, this`stored, this`late, this`pending
      ensures stored == Some(boundary)
      ensures ok ==> Accounted(Cat(), pending) && late == {}
      ensures |old(late)| <= maxDirtySubjects ==> Accounted(Cat(), pending)
      ensures calm ==> ok
    {
      if |late| > maxDirtySubjects {
        ok := *;
        ok := ok || calm;
        if ok {
          late := {};
          ok := SeedDailyRollup(boundary, calm);
        }
        assert Before(base, boundary) - {} == Before(base, boundary);
        return;
      }
      for b := 0 to NUM_BUCKETS
        invariant Accounted(Cat(), pending) && stored == Some(boundary)
        invariant forall s :: s in late ==> b <= HashBucket(s)
      {
        var bucketSubjects := SortedSubjects(set s | s in late && HashBucket(s) == b);
        while bucketSubjects != []
          invariant Accounted(Cat(), pending) && stored == Some(boundary)
          invariant forall s :: s in late ==> s in bucketSubjects || b < HashBucket(s)
          decreases |bucketSubjects|
        {
          var chunk := bucketSubjects;
          if |chunk| > ROLLUP_SUBJECT_CHUNK {
            chunk := chunk[..ROLLUP_SUBJECT_CHUNK];
          }
          assert bucketSubjects == chunk + bucketSubjects[|chunk|..];
          bucketSubjects := bucketSubjects[|chunk|..];
          ok := RecomputeDailyChunk((set s | s in chunk), boundary, calm);
          if !ok {
            return;
          }
        }
      }
      assert forall s :: s in late ==> HashBucket(s) < NUM_BUCKETS;
      ok := true;
    }

    /**
     Fold the window between the two watermarks with the watermark advance in one
     transaction, which may land unseen, then the late set.
     */
    method FoldDailyRollup(from: int, to: int, calm: bool) returns (ok: bool)
      requires (stored == Some(from) ==> Accounted(Cat(), pending)) && from < to
      modifies this`table, this`stored, this`late, this`pending
      ensures ok ==> Accounted(Cat(), pending) && stored == Some(to) && late == {} && old(stored) == Some(from)
      ensures |old(late)| <= maxDirtySubjects && old(stored) == Some(from) ==> Accounted(Cat(), pending)
      ensures old(stored) != Some(from) ==> !ok && Cat() == old(Cat()) && pending == old(pending)
      ensures stored == Some(to) || (!ok && Cat() == old(Cat()) && pending == old(pending))
      ensures calm && old(stored) == Some(from) ==> ok
    {
      var landed: bool := *;
      if (!landed && !calm) || stored != Some(from) {
        return false;
      }
      FoldAccounts(Cat(), pending, to);
      table, stored := FoldTx(Cat(), from, to).table, Some(to);
      ok := *;
      if ok || calm {
        ok := RecomputeLateDailySubjects(to, calm);
      }
    }

    /** An earlier refresh failed after its fold had landed: memory trails the stored watermark. */
    ghost predicate Stuck()
      reads this
    {
      DailyProtocol.Stuck(Snapshot())
    }

    /**
     Seed or fold to a UTC-midnight boundary. Success leaves the table equal to the
     full recompute. After a failure that left the watermark the process goes on as
     before; after any other the catalog alone is still one the protocol can restart
     from, unless the late set had overflowed. A first boundary at or before the epoch is
     seeded all the same, but no later fold may rely on it.

     A retry in the same process, after such a failure, cannot succeed if memory has an
     older watermark, and starts over with a seed if it has none.
     */
    method RunDailyRollupRefresh(boundary: int, calm: bool) returns (ok: bool)
      requires Valid() || (dailyStateLoaded && Coherent(base) && dailyWatermark != stored)
      modifies this
      ensures base == old(base)
      ensures old(Valid()) && ok && old(stored).Some? && boundary <= old(stored).value ==>
          Cat() == old(Cat()) && Valid()
      ensures old(Valid()) && ok && (old(stored).None? || old(stored).value < boundary) ==>
                Midnight(boundary) && RefreshedTo(boundary)
      ensures old(Valid()) && ok && 0 < boundary ==> Valid()
      ensures !Midnight(boundary) ==> !ok && Cat() == old(Cat()) && (old(Valid()) ==> Valid())
      ensures old(Valid()) && |old(late)| <= maxDirtySubjects && 0 < boundary ==> Restartable()
      ensures old(Valid()) && stored == old(stored) ==> Valid()
      ensures old(Stuck()) ==> Snapshot() == old(Snapshot())
      ensures old(Stuck()) ==> (ok ==> boundary <= dailyWatermark.value)
      ensures old(Valid()) && calm && Midnight(boundary) ==> ok
      ensures old(dailyStateLoaded && dailyWatermark.None? && stored.Some?) && ok ==>
                RefreshedTo(boundary) && (0 < boundary ==> Valid())
    {
      ok := LoadDailyRollupState(calm);
      if !ok || boundary % DAY != 0 {
        return false;
      }
      if dailyWatermark.Some? && boundary <= dailyWatermark.value {
        return true;
      }
      if dailyWatermark.None? {
        ok := SeedDailyRollup(boundary, calm);
        assert Before(base, boundary) - {} == Before(base, boundary);
      } else {
        ok := FoldDailyRollup(dailyWatermark.value, boundary, calm);
      }
      if !ok {
        return;
      }
      dailyWatermark, dailyLateSeen := Some(boundary), {};
      if 0 < boundary {
        assert Accounted(Cat(), pending);
        NoMarksNothingPending(Cat(), pending);
      }
    }

    /** Called when decoding has caught up: refresh if a boundary is due, all missed days at once. */
    method MaybeDailyRollupRefresh(now: int, delay: int, calm: bool) returns (ok: bool)
      requires (Valid() || (dailyStateLoaded && Coherent(base) && dailyWatermark != stored)) && 0 < delay
      modifies this
      ensures base == old(base)
      ensures old(Valid()) && ok ==> stored.Some? && now < stored.value + DAY + delay
      ensures old(Valid()) && ok && old(stored).Some? && LatestDue(now, delay) <= old(stored).value ==>
                Cat() == old(Cat()) && Valid()
      ensures old(Valid()) && ok && (old(stored).None? || old(stored).value < LatestDue(now, delay)) ==>
                RefreshedTo(LatestDue(now, delay))
      ensures old(Valid()) && ok && 0 < LatestDue(now, delay) ==> Valid()
      ensures old(Stuck()) ==> Snapshot() == old(Snapshot())
      ensures old(Stuck()) && dailyWatermark.value < LatestDue(now, delay) ==> !ok
      ensures old(Valid()) && calm ==> ok
    {
      ok := LoadDailyRollupState(calm);
      if !ok {
        return;
      }
      var boundary := DailyRefreshBoundary(now, dailyWatermark, delay);
      MidnightShift(now, LatestDue(now, delay));
      if boundary.Some? {
        ok := RunDailyRollupRefresh(boundary.value, calm);
      }
    }
  }

  /** The subjects of a set in byte order. */
  method SortedSubjects(subjects: set<string>) returns (sorted: seq<string>)
    ensures Sorted(StringLE, sorted) && forall s :: s in sorted <==> s in subjects
  {
    var list: seq<string>, rest := [], subjects;
    while rest != {}
      invariant rest <= subjects && forall s :: s in list <==> s in subjects - rest
      decreases |rest|
    {
      var s :| s in rest;
      list, rest := list + [s], rest - {s};
    }
    sorted := Sort(StringLE, list);
    StringOrder();
    SortIsSorted(StringLE, list);
    forall s ensures s in sorted <==> s in list {
      assert s in sorted <==> s in multiset(sorted);
    }
  }
}
