/**
 The coverage contract: the writer's standing assertion that every subject of the
 lake has a key in the bucket, and what a reader may conclude from it.

 Decode (publish, observe, commit or roll back, settle) and the reporter
 (establish, scan, assert, heartbeat) are interleaved at the points where the
 source's lock is released or a request is in flight. Times are in seconds.
 */
module Coverage {

  const MAX_STALENESS: int := 90
  const WRITE_TIMEOUT: int := 5

  type Subjects = set<string>

  /** The stored record; `Absent` also stands for an undecodable one or an unknown version. */
  datatype Record = Absent | Record(verifiedThrough: int, clean: bool, degraded: bool)

  /** A degraded record is written with a zero VerifiedThrough. */
  const DEGRADED: Record := Record(0, false, true)

  predicate Trusted(c: Record, now: int) {
    c.Record? && !c.degraded && c.verifiedThrough != 0 && -MAX_STALENESS <= now - c.verifiedThrough <= MAX_STALENESS
  }

  // ----- the reporter's fields and its critical sections

  datatype Reporter = Reporter(proven: bool, degraded: bool, adoptChecked: bool, settledBatches: nat, awaitBatch: nat,
      failSeq: nat) {
    function Failure(): Reporter {
      this.(proven := false, degraded := true, awaitBatch := settledBatches + 1, failSeq := failSeq + 1)
    }

    function Settled(): Reporter { this.(settledBatches := settledBatches + 1) }

    predicate BarrierMet() { awaitBatch == 0 || awaitBatch <= settledBatches }

    function Reproved(): Reporter { this.(proven := true, degraded := false, awaitBatch := 0) }

    function Adopted(): Reporter { this.(proven := true) }

    function Overruled(): Reporter { this.(proven := false, degraded := true) }

    function Checked(): Reporter { this.(adoptChecked := true) }
  }

  const BOOTED: Reporter := Reporter(false, false, false, 0, 0, 0)

  // ----- the protocol

  /** Where the decode goroutine stands with its batch; `ok` is the publish result. */
  datatype Decode =
    | Free
    | Published(batch: Subjects, ok: bool)
    | Observed(batch: Subjects, ok: bool)
    | Finished(batch: Subjects, ok: bool)

  datatype Point =
    | Resting
    | Adopting                              // degraded read as false, GetCoverage in flight
    | Flagging                              // persisting the degraded flag
    | AtBarrier                             // about to call settleBarrierMet
    | PastBarrier                           // the barrier was met, failSeq not sampled yet
    | Sampled(fails: nat)                   // failSeq sampled, lake not read yet
    | Scanning(fails: nat, todo: Subjects)  // folding the snapshot's subjects
    | Asserting(verifiedThrough: int)       // the raced check passed, the assertion is in flight
    | Ready                                 // a proof was seen or taken, the heartbeat has not begun
    | Beating(deadline: int)                // reading the record before the heartbeat's write
    | Vouching(verifiedThrough: int)        // the heartbeat's write is in flight
    | Retiring(fails: nat)                  // shutting down with a proof, the clean record is in flight

  /**
   `gap` and `cleanGap` are history: the subjects of the lake that the merge pass behind
   the proof did not reach, and those behind the proof a clean record was left with.
   */
  datatype State = State(
    now: int, lake: Subjects, bucket: Subjects, gap: Subjects, cleanGap: Subjects,
    record: Record, written: set<Record>, decode: Decode, r: Reporter, at: Point)

  datatype Step =
    | Tick(dt: nat)
      // decode
    | Fold(keys: Subjects)                  // keys appear in the bucket
    | Publish(batch: Subjects, ok: bool)    // PublishSignals returns
    | Observe
    | Transact(committed: bool)
    | Settle
      // reporter
    | Establish
    | Adopt(readOk: bool)
    | Flag(landed: bool)                    // best effort
    | CheckBarrier
    | Sample
    | ReadLake(missed: Subjects)            // the merge pass reaches all subjects but these
    | ScanOne(s: string)
    | ScanEnd(ok: bool)
    | AssertEnd(landed: bool, acked: bool)
    | SeeProof
    | BeatStart
    | BeatRead(readOk: bool)
    | BeatEnd(landed: bool)
    | Retire
    | RetireEnd(landed: bool)
      /** The process dies, whatever it was doing, and a successor boots. */
    | Restart(landed: bool)

  predicate Enabled(s: State, step: Step) {
    match step
    case Tick(_) => true
    case Fold(_) => true
    case Publish(batch, ok) => s.decode.Free? && (ok ==> batch <= s.bucket)
    case Observe => s.decode.Published?
    case Transact(_) => s.decode.Observed?
    case Settle => s.decode.Finished?
    case Establish => s.at.Resting? && !s.r.proven
    case Adopt(_) => s.at.Adopting?
    case Flag(_) => s.at.Flagging?
    case CheckBarrier => s.at.AtBarrier?
    case Sample => s.at.PastBarrier?
    case ReadLake(missed) => s.at.Sampled? && missed <= s.lake
    case ScanOne(x) => s.at.Scanning? && x in s.at.todo
    case ScanEnd(ok) => s.at.Scanning? && (ok ==> s.at.todo == {})
    case AssertEnd(landed, acked) => s.at.Asserting? && (acked ==> landed)
    case SeeProof => s.at.Resting? && s.r.proven
    case BeatStart => s.at.Ready?
    case BeatRead(readOk) => s.at.Beating? && (readOk ==> s.now <= s.at.deadline)
    case BeatEnd(_) => s.at.Vouching?
    case Retire => s.at.Resting? && s.r.proven
    case RetireEnd(_) => s.at.Retiring?
    case Restart(landed) => CleanIsTrue(s.record, Landed(s, landed), s.bucket + s.cleanGap)
  }

  predicate Adoptable(record: Record) {
    record.Record? && record.clean && !record.degraded
  }

  /** The premise about a predecessor: a clean record is still true when the successor boots. */
  predicate CleanIsTrue(record: Record, lake: Subjects, covered: Subjects) {
    Adoptable(record) ==> lake <= covered
  }

  function Landed(s: State, committed: bool): Subjects {
    if committed && s.decode.Observed? then s.lake + s.decode.batch else s.lake
  }

  function Put(s: State, rec: Record): State {
    s.(record := rec, written := s.written + {rec})
  }

  function Do(s: State, step: Step): State
    requires Enabled(s, step)
  {
    match step
    case Tick(dt) => s.(now := s.now + dt)
    case Fold(keys) => s.(bucket := s.bucket + keys)
    case Publish(batch, ok) => s.(decode := Published(batch, ok))
    case Observe =>
      s.(decode := Observed(s.decode.batch, s.decode.ok), r := if s.decode.ok then s.r else s.r.Failure())
    case Transact(committed) => s.(lake := Landed(s, committed), decode := Finished(s.decode.batch, s.decode.ok))
    case Settle => s.(decode := Free, r := s.r.Settled())
    case Establish =>
      var adopt := !s.r.adoptChecked && !s.r.degraded;
      s.(r := s.r.Checked(), at := if adopt then Adopting else if s.r.degraded then Flagging else AtBarrier)
    case Adopt(readOk) =>
      if readOk && Adoptable(s.record) then s.(gap := s.cleanGap, r := s.r.Adopted(), at := Ready)
      else s.(at := AtBarrier)
    case Flag(landed) => (if landed then Put(s, DEGRADED) else s).(at := AtBarrier)
    case CheckBarrier => s.(at := if s.r.BarrierMet() then PastBarrier else Resting)
    case Sample => s.(at := Sampled(s.r.failSeq))
    case ReadLake(missed) => s.(gap := missed, at := Scanning(s.at.fails, s.lake - missed))
    case ScanOne(x) => s.(bucket := s.bucket + {x}, at := Scanning(s.at.fails, s.at.todo - {x}))
    case ScanEnd(ok) => s.(at := if ok && s.r.failSeq == s.at.fails then Asserting(s.now) else Resting)
    case AssertEnd(landed, acked) =>
      var s' := if landed then Put(s, Record(s.at.verifiedThrough, false, false)) else s;
      s'.(r := if acked then s.r.Reproved() else s.r, at := if acked then Ready else Resting)
    case SeeProof => s.(at := Ready)
    case BeatStart => s.(at := Beating(s.now + WRITE_TIMEOUT))
    case BeatRead(readOk) =>
      if !readOk then s.(at := Resting)
      else if s.record.Record? && s.record.degraded then s.(r := s.r.Overruled(), at := Resting)
      else s.(at := Vouching(s.now))
    case BeatEnd(landed) =>
      (if landed then Put(s, Record(s.at.verifiedThrough, false, false)) else s).(at := Resting)
    case Retire => s.(at := Retiring(s.r.failSeq))
    case RetireEnd(landed) =>
      (if landed then Put(s, Record(s.now, true, false)).(cleanGap := s.gap) else s).(at := Resting)
    case Restart(landed) => s.(lake := Landed(s, landed), decode := Free, r := BOOTED, at := Resting)
  }

  /** The reporter has released its lock inside one of its three check-then-act blocks. */
  predicate InWindow(p: Point) {
    p.Adopting? || p.PastBarrier? || p.Asserting?
  }

  /** The step is not a publish failure observed inside such a block. */
  predicate Quiet(s: State, step: Step) {
    step.Observe? && s.decode.Published? && !s.decode.ok ==> !InWindow(s.at)
  }

  // ----- safety

  /** A batch whose publish failed has been observed and has not settled. */
  predicate FailingInFlight(s: State) {
    (s.decode.Observed? || s.decode.Finished?) && !s.decode.ok
  }

  /** The bucket is complete up to the gap and nothing in flight will open a hole. */
  predicate Covered(s: State) {
    s.lake <= s.bucket + s.gap && !FailingInFlight(s)
  }

  /** The reporter is looking for a proof. */
  predicate Proving(p: Point) {
    || p.Adopting? || p.Flagging? || p.AtBarrier? || p.PastBarrier? || p.Sampled? || p.Scanning? || p.Asserting?
  }

  predicate AtPoint(s: State) {
    match s.at
    case Adopting => s.r.failSeq == 0
    case PastBarrier => !FailingInFlight(s)
    case Sampled(fails) => fails <= s.r.failSeq && (fails == s.r.failSeq ==> !FailingInFlight(s))
    case Scanning(fails, todo) =>
      fails <= s.r.failSeq && (fails == s.r.failSeq ==> !FailingInFlight(s) && s.lake <= s.bucket + s.gap + todo)
    case Asserting(_) => Covered(s)
    case Retiring(fails) => fails <= s.r.failSeq && (fails == s.r.failSeq ==> Covered(s))
    case _ => true
  }

  predicate Invariant(s: State) {
    && (!s.decode.Free? && s.decode.ok ==> s.decode.batch <= s.bucket)
    && (FailingInFlight(s) ==> s.r.awaitBatch == s.r.settledBatches + 1 && 0 < s.r.failSeq)
    && (s.r.proven ==> Covered(s) && !Proving(s.at))
    && (Adoptable(s.record) && s.r.failSeq == 0 ==> s.lake <= s.bucket + s.cleanGap)
    && (!s.r.adoptChecked ==> s.at.Resting? && !s.r.proven && (!s.r.degraded ==> s.r.failSeq == 0))
    && AtPoint(s)
  }

  lemma StepKeepsInvariant(s: State, step: Step)
    requires Invariant(s) && Enabled(s, step) && Quiet(s, step)
    ensures Invariant(Do(s, step))
  {
    match step
    case Tick(_) | Fold(_) | Publish(_, _) | Observe | Transact(_) | Settle => DecodeKeepsInvariant(s, step);
    case Establish | Adopt(_) | Flag(_) | CheckBarrier | Sample => ProofKeepsInvariant(s, step);
    case ReadLake(_) | ScanOne(_) => ProofKeepsInvariant(s, step);
    case _ => AssertionKeepsInvariant(s, step);
  }

  /** Time, the decode goroutine, and writers that add keys: what may happen while the reporter waits. */
  predicate Decodes(step: Step) {
    step.Tick? || step.Fold? || step.Publish? || step.Observe? || step.Transact? || step.Settle?
  }

  lemma DecodeKeepsInvariant(s: State, step: Step)
    requires Invariant(s) && Enabled(s, step) && Quiet(s, step)
    requires Decodes(step)
    ensures Invariant(Do(s, step))
  {
  }

  lemma ProofKeepsInvariant(s: State, step: Step)
    requires Invariant(s) && Enabled(s, step)
    requires
      || step.Establish? || step.Adopt? || step.Flag? || step.CheckBarrier? || step.Sample? || step.ReadLake?
      || step.ScanOne?
    ensures Invariant(Do(s, step))
  {
  }

  lemma AssertionKeepsInvariant(s: State, step: Step)
    requires Invariant(s) && Enabled(s, step)
    requires
      || step.ScanEnd? || step.AssertEnd? || step.SeeProof? || step.BeatStart? || step.BeatRead? || step.BeatEnd?
      || step.Retire? || step.RetireEnd? || step.Restart?
    ensures Invariant(Do(s, step))
  {
  }

  ghost predicate Legal(s: State, steps: seq<Step>)
    decreases |steps|
  {
    steps == [] || (Enabled(s, steps[0]) && Legal(Do(s, steps[0]), steps[1..]))
  }

  ghost function Exec(s: State, steps: seq<Step>): State
    requires Legal(s, steps)
    decreases |steps|
  {
    if steps == [] then s else Exec(Do(s, steps[0]), steps[1..])
  }

  ghost predicate QuietRun(s: State, steps: seq<Step>)
    requires Legal(s, steps)
    decreases |steps|
  {
    steps == [] || (Quiet(s, steps[0]) && QuietRun(Do(s, steps[0]), steps[1..]))
  }

  ghost predicate Initial(s: State) {
    && s.decode.Free? && s.r == BOOTED && s.at.Resting? && CleanIsTrue(s.record, s.lake, s.bucket + s.cleanGap)
    && (s.record.Record? ==> s.record in s.written)
    && forall c :: c in s.written && c.Record? ==> c.verifiedThrough <= s.now
  }

  /**
   Coverage safety: in every interleaving in which no publish failure is observed
   inside one of the three blocks, whenever the reporter holds a proof every subject
   of the lake has a key, except those the merge pass behind the proof did not reach:
   its own last one, or its predecessor's behind an adopted record.
   */
  lemma ProofImpliesCovered(s: State, steps: seq<Step>)
    requires Initial(s) && Legal(s, steps) && QuietRun(s, steps)
    ensures var t := Exec(s, steps); t.r.proven ==> t.lake <= t.bucket + t.gap
  {
    RunKeepsInvariant(s, steps);
  }

  /** The run begins no merge pass and adopts no record. */
  ghost predicate SameProof(steps: seq<Step>) {
    forall i :: 0 <= i < |steps| ==> !steps[i].ReadLake? && !steps[i].Adopt?
  }

  lemma {:induction false} GapStays(s: State, steps: seq<Step>)
    requires Legal(s, steps) && SameProof(steps)
    ensures Exec(s, steps).gap == s.gap
    decreases |steps|
  {
    if steps != [] {
      GapStays(Do(s, steps[0]), steps[1..]);
    }
  }

  /**
   The last merge pass decides, whatever earlier ones missed: from it on, until another
   begins or a record is adopted, a proof means that every subject of the lake has a key
   except those that this pass did not reach. If it reached all, none is missing, and no
   failed publish is certified away.
   */
  lemma LastPassDecides(s: State, missed: Subjects, steps: seq<Step>)
    requires Invariant(s) && Enabled(s, ReadLake(missed))
    requires
      var scanning := Do(s, ReadLake(missed));
      Legal(scanning, steps) && QuietRun(scanning, steps) && SameProof(steps)
    ensures
      var t := Exec(Do(s, ReadLake(missed)), steps);
      && (t.r.proven ==> t.lake <= t.bucket + missed)
      && (t.r.proven && missed == {} ==> t.lake <= t.bucket)
  {
    StepKeepsInvariant(s, ReadLake(missed));
    RunKeepsInvariant(Do(s, ReadLake(missed)), steps);
    GapStays(Do(s, ReadLake(missed)), steps);
    var t := Exec(Do(s, ReadLake(missed)), steps);
    assert t.bucket + {} == t.bucket;
  }

  lemma {:induction false} RunKeepsInvariant(s: State, steps: seq<Step>)
    requires Invariant(s) && Legal(s, steps) && QuietRun(s, steps)
    ensures Invariant(Exec(s, steps))
    decreases |steps|
  {
    if steps != [] {
      StepKeepsInvariant(s, steps[0]);
      RunKeepsInvariant(Do(s, steps[0]), steps[1..]);
    }
  }

  // ----- the condition is needed: a failure inside any of the blocks can be certified away

  /** The reporter holds a proof and the lake has a subject without a key that no merge pass is to blame for. */
  predicate FalseProof(s: State) {
    s.r.proven && !(s.lake <= s.bucket + s.gap)
  }

  /** A batch with an unpublished subject, not in the excused ones, is about to have its failure observed. */
  predicate FailurePending(s: State, excused: Subjects) {
    s.decode.Published? && !s.decode.ok && !(s.decode.batch <= s.bucket + excused)
  }

  lemma FailureDuringAdoption(s: State)
    requires s.at.Adopting? && FailurePending(s, s.cleanGap) && Adoptable(s.record)
    ensures Legal(s, [Observe, Adopt(true), Transact(true)])
    ensures FalseProof(Exec(s, [Observe, Adopt(true), Transact(true)]))
  {
    ThreeSteps(s, Observe, Adopt(true), Transact(true));
  }

  lemma FailureDuringAssertion(s: State)
    requires s.at.Asserting? && FailurePending(s, s.gap)
    ensures Legal(s, [Observe, AssertEnd(true, true), Transact(true)])
    ensures FalseProof(Exec(s, [Observe, AssertEnd(true, true), Transact(true)]))
  {
    ThreeSteps(s, Observe, AssertEnd(true, true), Transact(true));
  }

  /** Whatever the lake holds: the whole scan runs, and misses the batch that commits after its snapshot. */
  lemma FailureBeforeSample(s: State) returns (steps: seq<Step>)
    requires s.at.PastBarrier? && FailurePending(s, s.lake)
    ensures Legal(s, steps) && FalseProof(Exec(s, steps))
  {
    ThreeSteps(s, Observe, Sample, ReadLake({}));
    steps := [Observe, Sample, ReadLake({})];
    steps := ScanAll(s, steps);
    OneMoreStep(s, steps, ScanEnd(true));
    OneMoreStep(s, steps + [ScanEnd(true)], AssertEnd(true, true));
    OneMoreStep(s, steps + [ScanEnd(true)] + [AssertEnd(true, true)], Transact(true));
    steps := steps + [ScanEnd(true)] + [AssertEnd(true, true)] + [Transact(true)];
  }

  /** A scan with nothing else happening folds exactly the snapshot's subjects. */
  lemma ScanAll(s: State, before: seq<Step>) returns (steps: seq<Step>)
    requires Legal(s, before) && Exec(s, before).at.Scanning?
    ensures Legal(s, steps)
    ensures
      var t := Exec(s, before);
      Exec(s, steps) == t.(bucket := t.bucket + t.at.todo, at := Scanning(t.at.fails, {}))
  {
    steps := before;
    var t, todo := Exec(s, before), Exec(s, before).at.todo;
    while todo != {}
      invariant todo <= t.at.todo && Legal(s, steps)
      invariant Exec(s, steps) == t.(bucket := t.bucket + (t.at.todo - todo), at := Scanning(t.at.fails, todo))
      decreases |todo|
    {
      var x :| x in todo;
      OneMoreStep(s, steps, ScanOne(x));
      steps := steps + [ScanOne(x)];
      assert t.bucket + (t.at.todo - todo) + {x} == t.bucket + (t.at.todo - (todo - {x}));
      todo := todo - {x};
    }
    assert t.at.todo - {} == t.at.todo;
  }

  /** A bucket and a lake that are both empty, and what a predecessor left. */
  function Boot(record: Record): State {
    State(0, {}, {}, {}, {}, record, {record}, Free, BOOTED, Resting)
  }

  /** Each of the three blocks is entered, from boot, with such a failure pending: adoption, */
  lemma AdoptionMeetsFailure(x: string) returns (steps: seq<Step>)
    ensures Initial(Boot(Record(0, true, false))) && Legal(Boot(Record(0, true, false)), steps)
    ensures
      var s := Exec(Boot(Record(0, true, false)), steps);
      s.at.Adopting? && FailurePending(s, s.cleanGap) && Adoptable(s.record)
  {
    steps := [Publish({x}, false), Establish];
    TwoSteps(Boot(Record(0, true, false)), steps[0], steps[1]);
    assert x in {x};
  }

  /** the barrier check, */
  lemma BarrierMeetsFailure(x: string) returns (steps: seq<Step>)
    ensures Initial(Boot(Absent)) && Legal(Boot(Absent), steps)
    ensures
      var s := Exec(Boot(Absent), steps);
      s.at.PastBarrier? && FailurePending(s, s.lake) && s.lake == s.bucket == {} && s.decode.batch == {x}
  {
    steps := [Publish({x}, false), Establish, Adopt(true)];
    ThreeSteps(Boot(Absent), steps[0], steps[1], steps[2]);
    OneMoreStep(Boot(Absent), steps, CheckBarrier);
    steps := steps + [CheckBarrier];
    assert x in {x};
  }

  /** and the assertion. */
  lemma AssertionMeetsFailure(x: string) returns (steps: seq<Step>)
    ensures Initial(Boot(Absent)) && Legal(Boot(Absent), steps)
    ensures var s := Exec(Boot(Absent), steps); s.at.Asserting? && FailurePending(s, s.gap)
  {
    steps := BarrierMeetsFailure(x);
    OneMoreStep(Boot(Absent), steps, Sample);
    OneMoreStep(Boot(Absent), steps + [Sample], ReadLake({}));
    OneMoreStep(Boot(Absent), steps + [Sample] + [ReadLake({})], ScanEnd(true));
    steps := steps + [Sample] + [ReadLake({})] + [ScanEnd(true)];
  }

  /**
   The premise about a predecessor is not a consequence of the protocol. Adoption
   leaves the clean record in place until the first heartbeat replaces it; a failure
   and a crash before that leave a clean record of an incomplete bucket.
   */
  lemma AdoptedRecordOutlivesTruth(x: string)
    ensures
      var boot := Boot(Record(0, true, false));
      var steps := [] + [Establish] + [Adopt(true)] + [Publish({x}, false)] + [Observe] + [Transact(true)];
      && Initial(boot) && Legal(boot, steps) && QuietRun(boot, steps)
      && (var s := Exec(boot, steps); !CleanIsTrue(s.record, s.lake, s.bucket + s.cleanGap))
  {
    var boot := Boot(Record(0, true, false));
    OneMoreStep(boot, [], Establish);
    OneMoreStep(boot, [] + [Establish], Adopt(true));
    OneMoreStep(boot, [] + [Establish] + [Adopt(true)], Publish({x}, false));
    var before := [] + [Establish] + [Adopt(true)] + [Publish({x}, false)];
    OneMoreStep(boot, before, Observe);
    OneMoreStep(boot, before + [Observe], Transact(true));
    assert x in Exec(boot, before + [Observe] + [Transact(true)]).lake;
  }

  /** The clean record of a shutdown is true when it lands, if no failure was observed since its proof was seen. */
  lemma RetirementIsTrue(s: State)
    requires Invariant(s) && s.at.Retiring? && s.at.fails == s.r.failSeq
    ensures var t := Do(s, RetireEnd(true)); Adoptable(t.record) && CleanIsTrue(t.record, t.lake, t.bucket + t.cleanGap)
  {
  }

  /** And false if one was. */
  lemma FailureDuringRetirement(s: State)
    requires s.at.Retiring? && FailurePending(s, s.gap)
    ensures Legal(s, [Observe, RetireEnd(true), Transact(true)])
    ensures
      var t := Exec(s, [Observe, RetireEnd(true), Transact(true)]);
      !CleanIsTrue(t.record, t.lake, t.bucket + t.cleanGap)
  {
    ThreeSteps(s, Observe, RetireEnd(true), Transact(true));
  }

  /** Which a shutdown meets, from boot. */
  lemma RetirementMeetsFailure(x: string) returns (steps: seq<Step>)
    ensures Initial(Boot(Record(0, true, false))) && Legal(Boot(Record(0, true, false)), steps)
    ensures var s := Exec(Boot(Record(0, true, false)), steps); s.at.Retiring? && FailurePending(s, s.gap)
  {
    var boot := Boot(Record(0, true, false));
    steps := [Establish, Adopt(true), BeatStart];
    ThreeSteps(boot, Establish, Adopt(true), BeatStart);
    OneMoreStep(boot, steps, BeatRead(false));
    OneMoreStep(boot, steps + [BeatRead(false)], Publish({x}, false));
    OneMoreStep(boot, steps + [BeatRead(false)] + [Publish({x}, false)], Retire);
    steps := steps + [BeatRead(false)] + [Publish({x}, false)] + [Retire];
    assert x in {x};
  }

  /**
   A merge pass that does not reach a subject certifies its failed publish away, with
   no failure inside any block: publish, observe, commit and settle, then prove.
   */
  lemma MissedSubjectIsCertified(x: string) returns (steps: seq<Step>)
    ensures Initial(Boot(Absent)) && Legal(Boot(Absent), steps) && QuietRun(Boot(Absent), steps)
    ensures
      var s := Exec(Boot(Absent), steps);
      s.r.proven && s.lake == s.gap == {x} && s.bucket == {}
  {
    var boot := Boot(Absent);
    OneMoreStep(boot, [], Publish({x}, false));
    OneMoreStep(boot, [] + [Publish({x}, false)], Observe);
    steps := [] + [Publish({x}, false)] + [Observe];
    OneMoreStep(boot, steps, Transact(true));
    OneMoreStep(boot, steps + [Transact(true)], Settle);
    steps := steps + [Transact(true)] + [Settle];
    steps := EstablishMissing(boot, steps, {x});
  }

  /** Establish undisturbed after a failure, with a merge pass that misses all there is. */
  lemma EstablishMissing(boot: State, before: seq<Step>, missed: Subjects) returns (steps: seq<Step>)
    requires Legal(boot, before) && QuietRun(boot, before)
    requires
      var s := Exec(boot, before);
      s.at.Resting? && !s.r.proven && s.r.degraded && s.r.BarrierMet() && s.lake == missed
    ensures Legal(boot, steps) && QuietRun(boot, steps)
    ensures
      var s, t := Exec(boot, before), Exec(boot, steps);
      t.r.proven && t.lake == t.gap == missed && t.bucket == s.bucket
  {
    OneMoreStep(boot, before, Establish);
    OneMoreStep(boot, before + [Establish], Flag(true));
    steps := before + [Establish] + [Flag(true)];
    OneMoreStep(boot, steps, CheckBarrier);
    OneMoreStep(boot, steps + [CheckBarrier], Sample);
    steps := ProveMissing(boot, steps + [CheckBarrier] + [Sample], missed);
  }

  lemma ProveMissing(boot: State, before: seq<Step>, missed: Subjects) returns (steps: seq<Step>)
    requires Legal(boot, before) && QuietRun(boot, before)
    requires
      var s := Exec(boot, before);
      s.at == Sampled(s.r.failSeq) && s.lake == missed
    ensures Legal(boot, steps) && QuietRun(boot, steps)
    ensures
      var s, t := Exec(boot, before), Exec(boot, steps);
      t.r.proven && t.lake == t.gap == missed && t.bucket == s.bucket
  {
    OneMoreStep(boot, before, ReadLake(missed));
    OneMoreStep(boot, before + [ReadLake(missed)], ScanEnd(true));
    steps := before + [ReadLake(missed)] + [ScanEnd(true)];
    OneMoreStep(boot, steps, AssertEnd(true, true));
    steps := steps + [AssertEnd(true, true)];
  }

  lemma {:induction false} OneMoreStep(s: State, steps: seq<Step>, a: Step)
    requires Legal(s, steps) && Enabled(Exec(s, steps), a)
    ensures Legal(s, steps + [a]) && Exec(s, steps + [a]) == Do(Exec(s, steps), a)
    ensures QuietRun(s, steps) && Quiet(Exec(s, steps), a) ==> QuietRun(s, steps + [a])
    decreases |steps|
  {
    if steps == [] {
      assert [] + [a] == [a] && [a][1..] == [];
    } else {
      assert (steps + [a])[1..] == steps[1..] + [a];
      OneMoreStep(Do(s, steps[0]), steps[1..], a);
    }
  }

  lemma TwoSteps(s: State, a: Step, b: Step)
    requires Enabled(s, a) && Enabled(Do(s, a), b)
    ensures Legal(s, [a, b]) && Exec(s, [a, b]) == Do(Do(s, a), b)
  {
    OneMoreStep(s, [], a);
    assert [] + [a] == [a] && [a] + [b] == [a, b];
    OneMoreStep(s, [a], b);
  }

  lemma ThreeSteps(s: State, a: Step, b: Step, c: Step)
    requires Enabled(s, a) && Enabled(Do(s, a), b) && Enabled(Do(Do(s, a), b), c)
    ensures Legal(s, [a, b, c]) && Exec(s, [a, b, c]) == Do(Do(Do(s, a), b), c)
  {
    TwoSteps(s, a, b);
    assert [a, b] + [c] == [a, b, c];
    OneMoreStep(s, [a, b], c);
  }

  // ----- decay of trust

  /** A record with a time still to be read is to be written without looking at the proof again. */
  predicate MayVouchLater(p: Point) {
    p.Asserting? || p.Ready? || p.Retiring?
  }

  /** No record on the books, and none in flight, vouches for a time after `t`; the proof is gone. */
  ghost predicate VouchedUpTo(s: State, t: int) {
    && !s.r.proven
    && (forall c :: c in s.written && c.Record? ==> c.verifiedThrough <= t)
    && (s.at.Beating? ==> s.at.deadline <= t)
    && (s.at.Vouching? ==> s.at.verifiedThrough <= t)
    && !MayVouchLater(s.at)
  }

  ghost predicate Clocked(s: State) {
    && (forall c :: c in s.written && c.Record? ==> c.verifiedThrough <= s.now)
    && (s.at.Beating? ==> s.at.deadline <= s.now + WRITE_TIMEOUT)
    && (s.at.Asserting? || s.at.Vouching? ==> s.at.verifiedThrough <= s.now)
  }

  lemma StepKeepsClocked(s: State, step: Step)
    requires Clocked(s) && 0 <= s.now && Enabled(s, step)
    ensures Clocked(Do(s, step)) && 0 <= Do(s, step).now
  {
  }

  /** The step neither takes nor adopts a new proof. */
  ghost predicate NoNewProof(s: State, step: Step)
    requires Enabled(s, step)
  {
    !Do(s, step).r.proven && !Do(s, step).at.Asserting?
  }

  ghost predicate NoNewProofRun(s: State, steps: seq<Step>)
    requires Legal(s, steps)
    decreases |steps|
  {
    steps == [] || (NoNewProof(s, steps[0]) && NoNewProofRun(Do(s, steps[0]), steps[1..]))
  }

  lemma {:induction false} VouchingEnds(s: State, t: int, steps: seq<Step>)
    requires 0 <= t && VouchedUpTo(s, t) && Legal(s, steps) && NoNewProofRun(s, steps)
    ensures VouchedUpTo(Exec(s, steps), t)
    decreases |steps|
  {
    if steps != [] {
      var s' := Do(s, steps[0]);
      assert VouchedUpTo(s', t);
      VouchingEnds(s', t, steps[1..]);
    }
  }

  lemma {:induction false} RunKeepsClocked(s: State, steps: seq<Step>)
    requires Clocked(s) && 0 <= s.now && Legal(s, steps)
    ensures Clocked(Exec(s, steps)) && 0 <= Exec(s, steps).now
    decreases |steps|
  {
    if steps != [] {
      StepKeepsClocked(s, steps[0]);
      RunKeepsClocked(Do(s, steps[0]), steps[1..]);
    }
  }

  /**
   Trust decays: in every run, after a publish failure observed at time F that is
   not followed by a new proof, no record ever stored is trusted later than F plus
   the heartbeat timeout plus the staleness window, whatever the reader last saw. The
   failure must not fall between the last look at the proof and the start of the write.
   */
  lemma TrustDecays(start: State, before: seq<Step>, after: seq<Step>, c: Record, t: int)
    requires Initial(start) && 0 <= start.now && Legal(start, before)
    requires
      var s := Exec(start, before);
      && s.decode.Published? && !s.decode.ok && !MayVouchLater(s.at)
      && Legal(Do(s, Observe), after) && NoNewProofRun(Do(s, Observe), after)
      && c in Exec(Do(s, Observe), after).written
      && s.now + WRITE_TIMEOUT + MAX_STALENESS < t
    ensures !Trusted(c, t)
  {
    RunKeepsClocked(start, before);
    var s := Exec(start, before);
    VouchingEnds(Do(s, Observe), s.now + WRITE_TIMEOUT, after);
  }

  /**
   The heartbeat does not look at the proof again after tick has: a failure in between
   still lets it vouch, for as late a time as it begins.
   */
  lemma LateHeartbeatVouches(s: State, dt: nat) returns (after: seq<Step>)
    requires s.at.Ready? && s.decode.Published? && !s.decode.ok && !(s.record.Record? && s.record.degraded)
    ensures Legal(Do(s, Observe), after) && NoNewProofRun(Do(s, Observe), after)
    ensures Exec(Do(s, Observe), after).record == Record(s.now + dt, false, false)
  {
    var failed := Do(s, Observe);
    NoProofStep(failed, [], Tick(dt));
    after := [] + [Tick(dt)];
    NoProofStep(failed, after, BeatStart);
    after := LateBeat(failed, after + [BeatStart]);
  }

  lemma LateBeat(s: State, before: seq<Step>) returns (after: seq<Step>)
    requires Legal(s, before) && NoNewProofRun(s, before)
    requires
      var t := Exec(s, before);
      t.at.Beating? && t.now <= t.at.deadline && !(t.record.Record? && t.record.degraded) && !t.r.proven
    ensures Legal(s, after) && NoNewProofRun(s, after)
    ensures Exec(s, after).record == Record(Exec(s, before).now, false, false)
  {
    NoProofStep(s, before, BeatRead(true));
    NoProofStep(s, before + [BeatRead(true)], BeatEnd(true));
    after := before + [BeatRead(true)] + [BeatEnd(true)];
  }

  lemma {:induction false} NoProofStep(s: State, steps: seq<Step>, a: Step)
    requires Legal(s, steps) && NoNewProofRun(s, steps)
    requires Enabled(Exec(s, steps), a) && NoNewProof(Exec(s, steps), a)
    ensures Legal(s, steps + [a]) && NoNewProofRun(s, steps + [a])
    ensures Exec(s, steps + [a]) == Do(Exec(s, steps), a)
    decreases |steps|
  {
    if steps == [] {
      assert [] + [a] == [a] && [a][1..] == [];
    } else {
      assert (steps + [a])[1..] == steps[1..] + [a];
      NoProofStep(Do(s, steps[0]), steps[1..], a);
    }
  }

  /** Which happens, from boot. */
  lemma HeartbeatMeetsFailure(x: string) returns (steps: seq<Step>)
    ensures Initial(Boot(Record(0, true, false))) && Legal(Boot(Record(0, true, false)), steps)
    ensures
      var s := Exec(Boot(Record(0, true, false)), steps);
      s.at.Ready? && s.decode == Published({x}, false) && Adoptable(s.record)
  {
    steps := [Establish, Adopt(true), Publish({x}, false)];
    ThreeSteps(Boot(Record(0, true, false)), steps[0], steps[1], steps[2]);
  }

  /** The step stores no record. */
  predicate Silent(step: Step) {
    !step.Flag? && !step.AssertEnd? && !step.BeatEnd? && !step.RetireEnd?
  }

  ghost predicate SilentRun(steps: seq<Step>) {
    forall i :: 0 <= i < |steps| ==> Silent(steps[i])
  }

  lemma {:induction false} SilenceWritesNothing(s: State, steps: seq<Step>)
    requires Legal(s, steps) && SilentRun(steps)
    ensures Exec(s, steps).written == s.written && Exec(s, steps).record == s.record
    decreases |steps|
  {
    if steps != [] {
      SilenceWritesNothing(Do(s, steps[0]), steps[1..]);
    }
  }

  /** A write of the record that lands: an assertion, a heartbeat, a shutdown record or the degraded flag. */
  predicate Lands(step: Step) {
    match step
    case AssertEnd(landed, _) => landed
    case BeatEnd(landed) => landed
    case RetireEnd(landed) => landed
    case Flag(landed) => landed
    case _ => false
  }

  /** The time such a write vouches for. */
  function VouchedTime(s: State, step: Step): int
    requires Enabled(s, step)
  {
    if step.RetireEnd? then s.now else if step.AssertEnd? || step.BeatEnd? then s.at.verifiedThrough else 0
  }

  /**
   What a reader may conclude is decided by the last landed write alone: the stored
   record is trusted at exactly the times within 90 s of the one it vouches for, and a
   degraded flag, or the zero time, at none.
   */
  lemma LastWriteDecidesTrust(s: State, step: Step, steps: seq<Step>, t: int)
    requires Enabled(s, step) && Lands(step) && Legal(Do(s, step), steps) && SilentRun(steps)
    ensures
      var vouched := VouchedTime(s, step);
      Trusted(Exec(Do(s, step), steps).record, t) <==>
      !step.Flag? && vouched != 0 && t - 90 <= vouched <= t + 90
  {
    SilenceWritesNothing(Do(s, step), steps);
  }

  /** A writer that stops storing records loses all trust one staleness window after its last assertion. */
  lemma SilenceRevokesTrust(s: State, steps: seq<Step>, last: int, c: Record, t: int)
    requires Legal(s, steps) && SilentRun(steps)
    requires forall x :: x in s.written && x.Record? ==> x.verifiedThrough <= last
    requires c in Exec(s, steps).written && last + MAX_STALENESS < t
    ensures !Trusted(c, t)
  {
    SilenceWritesNothing(s, steps);
  }
}
