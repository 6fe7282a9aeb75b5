/**
 The coverage reporter in the form the source has it: an object whose methods take the
 mutex for one section at a time. Wherever it is released or a request is in flight,
 the decode goroutine, other writers and the clock may move. Every method refines the
 coverage protocol step by step.
 */
module Reporting {
  import opened Coverage

  const MIN_BACKOFF: int := 30
  const MAX_BACKOFF: int := 600

  function NextBackoff(cur: int): (next: int)
    ensures MIN_BACKOFF <= cur ==> MIN_BACKOFF <= next
    ensures cur == 0 ==> next == MIN_BACKOFF
    ensures next <= MAX_BACKOFF
    ensures 0 < cur && 2 * cur < MAX_BACKOFF ==> next == 2 * cur
    ensures MAX_BACKOFF <= 2 * cur ==> next == MAX_BACKOFF
  {
    if cur == 0 then MIN_BACKOFF else if 2 * cur < MAX_BACKOFF then 2 * cur else MAX_BACKOFF
  }

  class CoverageReporter {
    // under the mutex
    var proven: bool
    var degraded: bool
    var adoptChecked: bool
    var settledBatches: nat
    var awaitBatch: nat
    var failSeq: nat
    var retryAfter: int
    var backoff: int
    // around it
    var now: int
    var lake: Subjects
    var bucket: Subjects
    var gap: Subjects
    var cleanGap: Subjects
    var record: Record
    var written: set<Record>
    var decode: Decode
    var at: Point

    function View(): Reporter
      reads this
    {
      Reporter(proven, degraded, adoptChecked, settledBatches, awaitBatch, failSeq)
    }

    /** The protocol state this object is in. */
    function Whole(): State
      reads this
    {
      State(now, lake, bucket, gap, cleanGap, record, written, decode, View(), at)
    }

    /** The protocol's invariant, and a back-off that is bounded and follows a failed reconcile only. */
    ghost predicate Valid()
      reads this
    {
      && Invariant(Whole())
      && 0 <= now && (backoff == 0 || MIN_BACKOFF <= backoff)
      && (retryAfter != 0 ==> adoptChecked && retryAfter <= now + MAX_BACKOFF)
    }

    /** A fresh writer has proved nothing. */
    constructor (clock: int, inLake: Subjects, inBucket: Subjects, left: Record)
      requires 0 <= clock && CleanIsTrue(left, inLake, inBucket)
      ensures Valid() && at.Resting? && !proven && gap == cleanGap == {}
    {
      proven, degraded, adoptChecked := false, false, false;
      settledBatches, awaitBatch, failSeq, retryAfter, backoff := 0, 0, 0, 0, 0;
      now, lake, bucket, gap, cleanGap := clock, inLake, inBucket, {}, {};
      record, written, decode, at := left, {left}, Free, Resting;
    }

    // ----- called from the decode goroutine

    /** A failure drops the proof and arms the barrier for the batch in flight. */
    method ObservePublish(failed: bool)
      modifies this`proven, this`degraded, this`awaitBatch, this`failSeq
      ensures View() == if failed then old(View()).Failure() else old(View())
      ensures failed ==> !proven && !View().BarrierMet()
    {
      if !failed {
        return;
      }
      proven, degraded := false, true;
      awaitBatch := settledBatches + 1;
      failSeq := failSeq + 1;
    }

    method ObserveBatchSettled()
      modifies this`settledBatches
      ensures View() == old(View()).Settled()
    {
      settledBatches := settledBatches + 1;
    }

    /** One step of everything that is not the reporter. */
    method OtherStep(step: Step)
      requires Decodes(step) && Enabled(Whole(), step)
      modifies this
      ensures Whole() == Do(old(Whole()), step)
      ensures retryAfter == old(retryAfter) && backoff == old(backoff)
    {
      match step
      case Tick(dt) => now := now + dt;
      case Fold(keys) => bucket := bucket + keys;
      case Publish(batch, ok) => decode := Published(batch, ok);
      case Observe =>
        ObservePublish(!decode.ok);
        decode := Observed(decode.batch, decode.ok);
      case Transact(committed) =>
        lake, decode := if committed then lake + decode.batch else lake, Finished(decode.batch, decode.ok);
      case Settle =>
        ObserveBatchSettled();
        decode := Free;
    }

    /** What the reporter may rely on while it waits. */
    twostate predicate Waited()
      reads this
    {
      && at == old(at) && gap == old(gap) && cleanGap == old(cleanGap)
      && record == old(record) && written == old(written)
      && adoptChecked == old(adoptChecked) && retryAfter == old(retryAfter) && backoff == old(backoff)
      && old(now) <= now && old(failSeq) <= failSeq && (proven ==> old(proven))
      && (failSeq == old(failSeq) ==> proven == old(proven))
    }

    /** Any number of steps of the others, none a failure observed inside a check-then-act block. */
    method Interfere(calm: bool)
      requires Valid()
      modifies this
      ensures Valid() && Waited()
      ensures calm ==> Whole() == old(Whole())
    {
      var n :| 0 <= n;
      for i := 0 to if calm then 0 else n
        invariant Valid() && Waited() && (calm ==> Whole() == old(Whole()))
      {
        assert Decodes(Tick(0));
        var step :| Decodes(step);
        if Enabled(Whole(), step) && Quiet(Whole(), step) {
          StepKeepsInvariant(Whole(), step);
          OtherStep(step);
        }
      }
    }

    // ----- the reporter's own goroutine

    method SettleBarrierMet() returns (met: bool)
      ensures met == View().BarrierMet()
    {
      met := awaitBatch == 0 || awaitBatch <= settledBatches;
    }

    /** Adopt a clean predecessor's record, if that is what is stored. */
    method AdoptClean(calm: bool) returns (ok: bool)
      requires Valid() && at.Adopting?
      modifies this
      ensures Valid() && adoptChecked == old(adoptChecked)
      ensures if ok then at.Ready? && proven && lake <= bucket + gap else at.AtBarrier?
      ensures !ok && proven ==> old(proven)
      ensures cleanGap == old(cleanGap) && gap == if ok then cleanGap else old(gap)
      ensures calm ==> ok == Adoptable(old(record)) && View().BarrierMet() == old(View().BarrierMet())
    {
      Interfere(calm);
      var readOk: bool := *;
      readOk := readOk || calm;
      ghost var s := Whole();
      StepKeepsInvariant(s, Adopt(readOk));
      ok := readOk && record.Record? && record.clean && !record.degraded;
      if ok {
        proven, gap := true, cleanGap;
      }
      at := if ok then Ready else AtBarrier;
      assert Whole() == Do(s, Adopt(readOk));
    }

    /** One write of the record, which may not land. */
    method PutCoverage(rec: Record, landed: bool)
      modifies this`record, this`written
      ensures Whole() == if landed then Put(old(Whole()), rec) else old(Whole())
    {
      if landed {
        record, written := rec, written + {rec};
      }
    }

    method PersistDegraded(calm: bool)
      requires Valid() && at.Flagging?
      modifies this
      ensures Valid() && at.AtBarrier? && adoptChecked == old(adoptChecked) && (proven ==> old(proven))
      ensures record == old(record) || record == DEGRADED
      ensures gap == old(gap) && cleanGap == old(cleanGap)
      ensures calm ==> record == DEGRADED && View() == old(View())
    {
      Interfere(calm);
      var landed: bool := *;
      landed := landed || calm;
      ghost var s := Whole();
      StepKeepsInvariant(s, Flag(landed));
      PutCoverage(DEGRADED, landed);
      at := AtBarrier;
      assert Whole() == Do(s, Flag(landed));
    }

    /** The source backs off after a reconcile that failed or could not be asserted. */
    method BackOff()
      requires Valid() && at.Resting? && adoptChecked
      modifies this`backoff, this`retryAfter
      ensures Valid() && MIN_BACKOFF <= backoff <= MAX_BACKOFF && retryAfter == now + backoff
      ensures backoff == if old(backoff) == 0 then 30 else if 2 * old(backoff) < 600 then 2 * old(backoff) else 600
    {
      backoff := NextBackoff(backoff);
      retryAfter := now + backoff;
    }

    /** One snapshot of the lake's subjects, of which the two queries deliver all but `missed`. */
    method ReadSnapshot(missed: Subjects)
      requires at.Sampled? && missed <= lake
      modifies this`gap, this`at
      ensures Whole() == Do(old(Whole()), ReadLake(missed))
    {
      gap := missed;
      at := Scanning(at.fails, lake - missed);
    }

    method FoldOne(x: string)
      requires at.Scanning? && x in at.todo
      modifies this`bucket, this`at
      ensures Whole() == Do(old(Whole()), ScanOne(x))
    {
      bucket, at := bucket + {x}, Scanning(at.fails, at.todo - {x});
    }

    method BeginScan(unreached: Subjects, calm: bool)
      requires Valid() && at.Sampled?
      modifies this
      ensures Valid() && adoptChecked == old(adoptChecked) && (proven ==> old(proven))
      ensures at.Scanning? && at.fails == old(at).fails
      ensures gap <= unreached && cleanGap == old(cleanGap)
      ensures calm ==> View() == old(View())
      ensures old(failSeq) <= failSeq && backoff == old(backoff)
    {
      Interfere(calm);
      var missed: Subjects :| missed <= lake && missed <= unreached;
      StepKeepsInvariant(Whole(), ReadLake(missed));
      ReadSnapshot(missed);
    }

    /** One subject of the pass; its write may fail. */
    method ScanNext(calm: bool) returns (ok: bool)
      requires Valid() && at.Scanning? && at.todo != {}
      modifies this
      ensures Valid() && adoptChecked == old(adoptChecked) && (proven ==> old(proven))
      ensures at.Scanning? && at.fails == old(at).fails
      ensures ok ==> at.todo < old(at).todo
      ensures gap == old(gap) && cleanGap == old(cleanGap)
      ensures calm ==> ok && View() == old(View())
      ensures old(failSeq) <= failSeq && backoff == old(backoff)
    {
      Interfere(calm);
      ok := *;
      ok := ok || calm;
      if ok {
        var x :| x in at.todo;
        StepKeepsInvariant(Whole(), ScanOne(x));
        FoldOne(x);
      }
    }

    /**
     The merge pass over one snapshot of the lake's subjects, of which its queries may
     miss only some of `unreached`; a failed write ends it. Unless a publish failed since
     the counter was sampled, success means that every other subject has a key.
     */
    method Scan(unreached: Subjects, calm: bool) returns (ok: bool)
      requires Valid() && at.Sampled?
      modifies this
      ensures Valid() && adoptChecked == old(adoptChecked) && (proven ==> old(proven))
      ensures at.Scanning? && at.fails == old(at).fails
      ensures gap <= unreached && cleanGap == old(cleanGap)
      ensures ok ==> at.todo == {} && (failSeq == at.fails ==> lake <= bucket + unreached)
      ensures calm ==> ok && View() == old(View())
      ensures old(failSeq) <= failSeq && backoff == old(backoff)
    {
      BeginScan(unreached, calm);
      ok := true;
      while ok && at.todo != {}
        invariant Valid() && adoptChecked == old(adoptChecked) && (proven ==> old(proven))
        invariant at.Scanning? && at.fails == old(at).fails
        invariant gap <= unreached && cleanGap == old(cleanGap)
        invariant calm ==> ok && View() == old(View())
        invariant old(failSeq) <= failSeq && backoff == old(backoff)
        decreases ok, at.todo
      {
        ok := ScanNext(calm);
      }
    }

    /**
     Prove coverage by a merge pass: sample the failure counter, scan, refuse if it has
     moved, assert. True means that at this moment every subject of the lake has a key
     except some of `unreached`, the only ones the merge pass may miss.
     */
    method RunReconcile(unreached: Subjects, calm: bool) returns (ok: bool)
      requires Valid() && at.PastBarrier? && adoptChecked
      modifies this
      ensures Valid() && adoptChecked
      ensures if ok then at.Ready? && proven && lake <= bucket + gap else at.Resting?
      ensures !ok && proven ==> old(proven)
      ensures gap <= unreached && cleanGap == old(cleanGap)
      ensures ok ==> lake <= bucket + unreached
      ensures calm ==> ok
      ensures !ok && failSeq == old(failSeq) ==>
                retryAfter == now + backoff && backoff == NextBackoff(old(backoff)) && MIN_BACKOFF <= backoff
    {
      Interfere(calm);
      var failsAtStart := failSeq;
      ghost var s := Whole();
      StepKeepsInvariant(s, Sample);
      at := Sampled(failsAtStart);
      assert Whole() == Do(s, Sample);
      ok := Scan(unreached, calm);
      Interfere(calm);
      s := Whole();
      StepKeepsInvariant(s, ScanEnd(ok));
      if !ok || failSeq != failsAtStart {
        at := Resting;
        assert Whole() == Do(s, ScanEnd(ok));
        if !ok {
          BackOff();
        }
        return false;
      }
      at := Asserting(now);
      assert Whole() == Do(s, ScanEnd(ok));
      ok := Assert(calm);
      if !ok {
        BackOff();
      }
    }

    /** Write the assertion and, once it is acknowledged, take the proof. */
    method Assert(calm: bool) returns (ok: bool)
      requires Valid() && at.Asserting? && adoptChecked
      modifies this
      ensures Valid() && adoptChecked
      ensures if ok then at.Ready? && proven && lake <= bucket + gap else at.Resting?
      ensures !ok && proven ==> old(proven)
      ensures gap == old(gap) && cleanGap == old(cleanGap)
      ensures calm ==> ok
      ensures old(failSeq) <= failSeq && (!ok ==> backoff == old(backoff))
    {
      Interfere(calm);
      var landed: bool, acked: bool := *, *;
      landed, acked := landed || calm, acked || calm;
      ok := landed && acked;
      StepKeepsInvariant(Whole(), AssertEnd(landed, ok));
      TakeProof(landed, ok);
    }

    method TakeProof(landed: bool, acked: bool)
      requires at.Asserting? && (acked ==> landed)
      modifies this
      ensures Whole() == Do(old(Whole()), AssertEnd(landed, acked))
      ensures if acked then retryAfter == backoff == 0 else retryAfter == old(retryAfter) && backoff == old(backoff)
    {
      PutCoverage(Record(at.verifiedThrough, false, false), landed);
      EndAssertion(acked);
    }

    method EndAssertion(acked: bool)
      modifies this`proven, this`degraded, this`awaitBatch, this`at, this`backoff, this`retryAfter
      ensures
        var s := old(Whole());
        Whole() == s.(r := if acked then s.r.Reproved() else s.r, at := if acked then Ready else Resting)
      ensures if acked then retryAfter == backoff == 0 else retryAfter == old(retryAfter) && backoff == old(backoff)
    {
      if acked {
        proven, degraded, awaitBatch, at := true, false, 0, Ready;
        backoff, retryAfter := 0, 0;
      } else {
        at := Resting;
      }
    }

    /**
     Prove coverage by adoption or by a reconcile. True means that at this moment every
     subject of the lake has a key except what the adopted record's pass missed, or some
     of `unreached`; false leaves no proof.
     */
    method Establish(unreached: Subjects, calm: bool) returns (ok: bool)
      requires Valid() && at.Resting? && !proven
      modifies this
      ensures Valid() && adoptChecked
      ensures if ok then at.Ready? && proven && lake <= bucket + gap else at.Resting?
      ensures !ok ==> !proven
      ensures cleanGap == old(cleanGap) && (gap == old(gap) || gap == cleanGap || gap <= unreached)
      ensures ok ==> lake <= bucket + cleanGap || lake <= bucket + unreached
      ensures old(retryAfter != 0 && now < retryAfter) ==> !ok && Whole() == old(Whole())
      ensures calm && old((retryAfter == 0 || retryAfter <= now) && View().BarrierMet()) ==> ok
    {
      var sawGap, tried := degraded, adoptChecked;
      ghost var s := Whole();
      adoptChecked := true;
      if retryAfter != 0 && now < retryAfter {
        return false;
      }
      StepKeepsInvariant(s, Coverage.Establish);
      at := if !tried && !sawGap then Adopting else if sawGap then Flagging else AtBarrier;
      assert Whole() == Do(s, Coverage.Establish);
      ok := Prove(unreached, calm);
    }

    /** The rest of establish, after its first section. */
    method Prove(unreached: Subjects, calm: bool) returns (ok: bool)
      requires Valid() && (at.Adopting? || at.Flagging? || at.AtBarrier?) && adoptChecked
      modifies this
      ensures Valid() && adoptChecked
      ensures if ok then at.Ready? && proven && lake <= bucket + gap else at.Resting?
      ensures !ok && proven ==> old(proven)
      ensures cleanGap == old(cleanGap) && (gap == old(gap) || gap == cleanGap || gap <= unreached)
      ensures ok ==> lake <= bucket + cleanGap || lake <= bucket + unreached
      ensures calm && old(View().BarrierMet()) ==> ok
    {
      if at.Adopting? {
        ok := AdoptClean(calm);
        if ok {
          return;
        }
      } else if at.Flagging? {
        PersistDegraded(calm);
      }
      Interfere(calm);
      ghost var s := Whole();
      StepKeepsInvariant(s, CheckBarrier);
      var met := SettleBarrierMet();
      at := if met then PastBarrier else Resting;
      assert Whole() == Do(s, CheckBarrier);
      if !met {
        return false;
      }
      ok := RunReconcile(unreached, calm);
    }

    /** Read the record, give the proof up if it says degraded, and vouch for this moment otherwise. */
    method Heartbeat(calm: bool)
      requires Valid() && at.Ready?
      modifies this
      ensures Valid() && at.Resting?
      ensures
        || record == old(record)
        || (record.Record? && !record.clean && !record.degraded && record.verifiedThrough <= now)
      ensures old(record).Record? && old(record).degraded ==> record == old(record)
      ensures gap == old(gap) && cleanGap == old(cleanGap)
      ensures calm && !(old(record).Record? && old(record).degraded) ==> record == Record(old(now), false, false)
    {
      BeginBeat(calm);
      ReadRecord(calm);
      if at.Vouching? {
        Vouch(calm);
      }
    }

    method BeginBeat(calm: bool)
      requires Valid() && at.Ready?
      modifies this
      ensures Valid() && at.Beating? && record == old(record)
      ensures gap == old(gap) && cleanGap == old(cleanGap)
      ensures calm ==> now == old(now) && at == Beating(now + WRITE_TIMEOUT)
    {
      Interfere(calm);
      ghost var s := Whole();
      StepKeepsInvariant(s, BeatStart);
      at := Beating(now + WRITE_TIMEOUT);
      assert Whole() == Do(s, BeatStart);
    }

    method ReadRecord(calm: bool)
      requires Valid() && at.Beating?
      modifies this
      ensures Valid() && record == old(record) && (at.Resting? || at == Vouching(now))
      ensures at.Vouching? ==> now <= old(at).deadline && !(record.Record? && record.degraded)
      ensures gap == old(gap) && cleanGap == old(cleanGap)
      ensures calm && now <= old(at).deadline && !(record.Record? && record.degraded) ==> at.Vouching?
      ensures calm ==> now == old(now)
    {
      Interfere(calm);
      var readOk: bool := *;
      readOk := (readOk || calm) && now <= at.deadline;
      StepKeepsInvariant(Whole(), BeatRead(readOk));
      JudgeRecord(readOk);
    }

    method JudgeRecord(readOk: bool)
      requires at.Beating? && (readOk ==> now <= at.deadline)
      modifies this`proven, this`degraded, this`at
      ensures Whole() == Do(old(Whole()), BeatRead(readOk))
    {
      if !readOk {
        at := Resting;
      } else if record.Record? && record.degraded {
        proven, degraded, at := false, true, Resting;
      } else {
        at := Vouching(now);
      }
    }

    method Vouch(calm: bool)
      requires Valid() && at.Vouching? && at.verifiedThrough <= now
      modifies this
      ensures Valid() && at.Resting? && old(now) <= now
      ensures record == old(record) || record == Record(old(at).verifiedThrough, false, false)
      ensures gap == old(gap) && cleanGap == old(cleanGap)
      ensures calm ==> record == Record(old(at).verifiedThrough, false, false)
    {
      Interfere(calm);
      var landed: bool := *;
      landed := landed || calm;
      ghost var s := Whole();
      StepKeepsInvariant(s, BeatEnd(landed));
      PutCoverage(Record(at.verifiedThrough, false, false), landed);
      at := Resting;
      assert Whole() == Do(s, BeatEnd(landed));
    }

    /**
     One tick: establish a proof if there is none, then heartbeat. Whenever a proof is
     held the bucket is complete.
     */
    method RunTick(unreached: Subjects, calm: bool)
      requires Valid() && at.Resting?
      modifies this
      ensures Valid() && at.Resting? && (proven ==> lake <= bucket + gap)
      ensures cleanGap == old(cleanGap) && (gap == old(gap) || gap == cleanGap || gap <= unreached)
      ensures calm && old(proven && !(record.Record? && record.degraded)) ==> record == Record(old(now), false, false)
    {
      var isProven := proven;
      if isProven {
        StepKeepsInvariant(Whole(), SeeProof);
        at := Ready;
      } else {
        var ok := Establish(unreached, calm);
        if !ok {
          return;
        }
      }
      Heartbeat(calm);
    }

    /** The shutdown record: true when it lands, unless a failure was observed since the proof was seen. */
    method MarkClean(calm: bool)
      requires Valid() && at.Resting?
      modifies this
      ensures Valid() && at.Resting?
      ensures
        || record == old(record)
        || (old(proven) && Adoptable(record) &&
            (failSeq == old(failSeq) ==> CleanIsTrue(record, lake, bucket + cleanGap)))
      ensures gap == old(gap) && (cleanGap == old(cleanGap) || cleanGap == gap)
      ensures calm && old(proven) ==> record == Record(old(now), true, false)
    {
      if !proven {
        return;
      }
      ghost var s := Whole();
      StepKeepsInvariant(s, Retire);
      at := Retiring(failSeq);
      assert Whole() == Do(s, Retire);
      Interfere(calm);
      var landed: bool := *;
      landed := landed || calm;
      StepKeepsInvariant(Whole(), RetireEnd(landed));
      LeaveRecord(landed);
    }

    method LeaveRecord(landed: bool)
      requires at.Retiring?
      modifies this`record, this`written, this`cleanGap, this`at
      ensures Whole() == Do(old(Whole()), RetireEnd(landed))
    {
      PutCoverage(Record(now, true, false), landed);
      if landed {
        cleanGap := gap;
      }
      at := Resting;
    }
  }
}
