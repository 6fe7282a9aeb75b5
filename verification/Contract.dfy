/**
 The coverage contract over the rollup it is proved from. The reporter's merge pass reads
 lake.signals_latest and its tail, so what it reaches is what the daily rollup protocol
 has stored; here the two protocols run together, interleaved step by step, with the
 decode goroutine common to both.
 */
module Contract {
  import opened Signals
  import opened RollupCatalog
  import opened Completeness
  import Coverage
  import DailyProtocol

  /**
   `pass` and `cleanPass` are history: the catalog that the merge pass behind the proof
   read, if one of this run did, and the one behind the clean record.
   */
  datatype State = State(
    cover: Coverage.State, daily: DailyProtocol.State,
    pass: Option<DailyProtocol.State>, cleanPass: Option<DailyProtocol.State>)

  datatype Step =
      /** A step of the reporter, the publisher or the clock that reads no catalog table. */
    | Cover(cover: Coverage.Step)
      /** A step of the refresh. */
    | Refresh(daily: DailyProtocol.Step)
      /** The decode transaction of the batch in flight lands: its rows and late marks. */
    | Land(batch: set<Row>, acked: bool, overflow: bool)
      /** The merge pass reads the rollup and the tail, in one snapshot. */
    | ReadCatalog
      /** The process dies; reporter and materializer start over. */
    | Die

  /** The subjects of the lake a merge pass over this catalog does not reach. */
  ghost function Missed(d: DailyProtocol.State): set<string> {
    set s | s in Subjects(d.cat.base) && !Visited(d.cat, s)
  }

  ghost function MissedOf(pass: Option<DailyProtocol.State>): set<string> {
    if pass.None? then {} else Missed(pass.value)
  }

  ghost predicate Enabled(s: State, step: Step) {
    match step
    case Cover(c) => !c.ReadLake? && !c.Restart? && c != Coverage.Transact(true) && Coverage.Enabled(s.cover, c)
    case Refresh(d) => !d.Commit? && !d.Crash? && DailyProtocol.Enabled(s.daily, d)
    case Land(batch, acked, overflow) =>
      && s.cover.decode.Observed? && Subjects(batch) == s.cover.decode.batch
      && DailyProtocol.Enabled(s.daily, DailyProtocol.Commit(batch, acked, overflow))
    case ReadCatalog => s.cover.at.Sampled? && Missed(s.daily) <= s.cover.lake
    case Die => Coverage.Enabled(s.cover, Coverage.Restart(false))
  }

  ghost function Do(s: State, step: Step): State
    requires Enabled(s, step)
  {
    match step
    case Cover(c) =>
      s.(cover := Coverage.Do(s.cover, c),
         pass := if c == Coverage.Adopt(true) && Coverage.Adoptable(s.cover.record) then s.cleanPass else s.pass,
         cleanPass := if c == Coverage.RetireEnd(true) then s.pass else s.cleanPass)
    case Refresh(d) => s.(daily := DailyProtocol.Do(s.daily, d))
    case Land(batch, acked, overflow) =>
      s.(cover := Coverage.Do(s.cover, Coverage.Transact(true)),
         daily := DailyProtocol.Do(s.daily, DailyProtocol.Commit(batch, acked, overflow)))
    case ReadCatalog =>
      s.(cover := Coverage.Do(s.cover, Coverage.ReadLake(Missed(s.daily))), pass := Some(s.daily))
    case Die =>
      s.(cover := Coverage.Do(s.cover, Coverage.Restart(false)),
         daily := DailyProtocol.Do(s.daily, DailyProtocol.Crash))
  }

  ghost predicate Quiet(s: State, step: Step) {
    step.Cover? ==> Coverage.Quiet(s.cover, step.cover)
  }

  /** Both invariants, over the same lake. */
  ghost predicate Invariant(s: State) {
    && Coverage.Invariant(s.cover) && DailyProtocol.Invariant(s.daily)
    && s.cover.lake == Subjects(s.daily.cat.base)
    && s.cover.gap == MissedOf(s.pass) && s.cover.cleanGap == MissedOf(s.cleanPass)
    && (s.pass.Some? ==> DailyProtocol.Invariant(s.pass.value))
    && (s.cleanPass.Some? ==> DailyProtocol.Invariant(s.cleanPass.value))
  }

  lemma StepKeepsInvariant(s: State, step: Step)
    requires Invariant(s) && Enabled(s, step) && Quiet(s, step)
    ensures Invariant(Do(s, step))
  {
    match step
    case Cover(c) => CoverKeepsInvariant(s, c);
    case Refresh(d) => RefreshKeepsInvariant(s, d);
    case Land(batch, acked, overflow) => LandKeepsInvariant(s, step);
    case ReadCatalog => Coverage.StepKeepsInvariant(s.cover, Coverage.ReadLake(Missed(s.daily)));
    case Die =>
      Coverage.StepKeepsInvariant(s.cover, Coverage.Restart(false));
      DailyProtocol.StepKeepsInvariant(s.daily, DailyProtocol.Crash);
  }

  lemma CoverKeepsInvariant(s: State, c: Coverage.Step)
    requires Invariant(s) && Enabled(s, Cover(c)) && Quiet(s, Cover(c))
    ensures Invariant(Do(s, Cover(c)))
  {
    Coverage.StepKeepsInvariant(s.cover, c);
    var cover := Coverage.Do(s.cover, c);
    assert cover.lake == s.cover.lake;
    var adopts := c == Coverage.Adopt(true) && Coverage.Adoptable(s.cover.record);
    assert cover.gap == if adopts then s.cover.cleanGap else s.cover.gap;
    assert cover.cleanGap == if c == Coverage.RetireEnd(true) then s.cover.gap else s.cover.cleanGap;
  }

  lemma RefreshKeepsInvariant(s: State, d: DailyProtocol.Step)
    requires Invariant(s) && Enabled(s, Refresh(d))
    ensures Invariant(Do(s, Refresh(d)))
  {
    DailyProtocol.StepKeepsInvariant(s.daily, d);
    assert DailyProtocol.Do(s.daily, d).cat.base == s.daily.cat.base;
  }

  lemma LandKeepsInvariant(s: State, step: Step)
    requires Invariant(s) && step.Land? && Enabled(s, step)
    ensures Invariant(Do(s, step))
  {
    var batch, commit := step.batch, DailyProtocol.Commit(step.batch, step.acked, step.overflow);
    Coverage.StepKeepsInvariant(s.cover, Coverage.Transact(true));
    DailyProtocol.StepKeepsInvariant(s.daily, commit);
    assert Subjects(s.daily.cat.base + batch) == Subjects(s.daily.cat.base) + Subjects(batch);
  }

  ghost predicate Legal(s: State, steps: seq<Step>)
    decreases |steps|
  {
    steps == [] || (Enabled(s, steps[0]) && Quiet(s, steps[0]) && Legal(Do(s, steps[0]), steps[1..]))
  }

  ghost function Exec(s: State, steps: seq<Step>): State
    requires Legal(s, steps)
    decreases |steps|
  {
    if steps == [] then s else Exec(Do(s, steps[0]), steps[1..])
  }

  ghost predicate Initial(s: State) {
    && Coverage.Initial(s.cover) && s.cover.gap == s.cover.cleanGap == {} && s.pass.None? && s.cleanPass.None?
    && DailyProtocol.Invariant(s.daily) && s.cover.lake == Subjects(s.daily.cat.base)
  }

  lemma {:induction false} RunKeepsInvariant(s: State, steps: seq<Step>)
    requires Invariant(s) && Legal(s, steps)
    ensures Invariant(Exec(s, steps))
    decreases |steps|
  {
    if steps != [] {
      StepKeepsInvariant(s, steps[0]);
      RunKeepsInvariant(Do(s, steps[0]), steps[1..]);
    }
  }

  /**
   In every run of both protocols together in which no publish failure is observed
   inside one of the reporter's blocks: whenever it holds a proof, every subject of the
   lake has a key except those that the one merge pass behind the proof did not reach.
   */
  lemma ProofImpliesCovered(s: State, steps: seq<Step>)
    requires Initial(s) && Legal(s, steps)
    ensures
      var t := Exec(s, steps);
      t.cover.r.proven ==> Subjects(t.daily.cat.base) <= t.cover.bucket + MissedOf(t.pass)
  {
    RunKeepsInvariant(s, steps);
  }

  /** The run begins no merge pass and adopts no record. */
  ghost predicate SameProof(steps: seq<Step>) {
    forall i :: 0 <= i < |steps| ==> !steps[i].ReadCatalog? && !(steps[i].Cover? && steps[i].cover.Adopt?)
  }

  lemma {:induction false} PassStays(s: State, steps: seq<Step>)
    requires Legal(s, steps) && SameProof(steps)
    ensures Exec(s, steps).pass == s.pass
    decreases |steps|
  {
    if steps != [] {
      assert steps[0] in steps;
      PassStays(Do(s, steps[0]), steps[1..]);
    }
  }

  /** That pass is the last one: what it read is all that counts, whatever earlier ones missed. */
  lemma LastPassDecides(s: State, before: seq<Step>, steps: seq<Step>)
    requires Initial(s) && Legal(s, before) && Enabled(Exec(s, before), ReadCatalog)
    requires Legal(Do(Exec(s, before), ReadCatalog), steps) && SameProof(steps)
    ensures
      var at := Exec(s, before);
      var t := Exec(Do(at, ReadCatalog), steps);
      t.cover.r.proven ==> Subjects(t.daily.cat.base) <= t.cover.bucket + Missed(at.daily)
  {
    RunKeepsInvariant(s, before);
    var at := Exec(s, before);
    StepKeepsInvariant(at, ReadCatalog);
    RunKeepsInvariant(Do(at, ReadCatalog), steps);
    PassStays(Do(at, ReadCatalog), steps);
  }

  /** Which those are: once a watermark exists, the subjects all of whose rows are late and not recomputed yet. */
  lemma MissedArePending(d: DailyProtocol.State, s: string)
    requires DailyProtocol.Invariant(d) && d.cat.mark.Some?
    ensures
      s in Missed(d) <==>
      s in Subjects(d.cat.base) && forall r :: r in d.cat.base && r.key.subject == s ==> r in d.pending
    ensures s in Missed(d) ==> s in d.cat.late
  {
    MissedIff(d.cat, d.pending, s);
    if s in Missed(d) {
      var r :| r in d.cat.base && r.key.subject == s;
      assert s in Subjects(d.pending);
    }
  }

  /**
   So a proof means a complete bucket whenever the pass behind it read a catalog in which
   a watermark is stored and no late mark is pending.
   */
  lemma SettledProofIsComplete(s: State, steps: seq<Step>)
    requires Initial(s) && Legal(s, steps)
    ensures
      var t := Exec(s, steps);
      && (t.pass.Some? ==> DailyProtocol.Invariant(t.pass.value))
      && (t.cover.r.proven && t.pass.Some? && t.pass.value.cat.mark.Some? && t.pass.value.cat.late == {} ==>
            Subjects(t.daily.cat.base) <= t.cover.bucket)
  {
    RunKeepsInvariant(s, steps);
    var t := Exec(s, steps);
    if t.pass.Some? && t.pass.value.cat.mark.Some? && t.pass.value.cat.late == {} {
      forall x ensures x !in Missed(t.pass.value) {
        MissedArePending(t.pass.value, x);
      }
      assert t.cover.bucket + MissedOf(t.pass) == t.cover.bucket;
    }
  }

  // ----- and not otherwise

  lemma {:induction false} OneMoreStep(s: State, steps: seq<Step>, step: Step)
    requires Legal(s, steps) && Enabled(Exec(s, steps), step) && Quiet(Exec(s, steps), step)
    ensures Legal(s, steps + [step]) && Exec(s, steps + [step]) == Do(Exec(s, steps), step)
    decreases |steps|
  {
    if steps == [] {
      assert [] + [step] == [step] && [step][1..] == [];
    } else {
      assert (steps + [step])[1..] == steps[1..] + [step];
      OneMoreStep(Do(s, steps[0]), steps[1..], step);
    }
  }

  /** A fresh reporter over a seeded, empty lake. */
  lemma SeededStart(w: int) returns (start: State)
    requires 0 < w && w % DAY == 0
    ensures Initial(start) && start.cover == Coverage.Boot(Coverage.Absent)
    ensures start.daily.loaded && start.daily.phase.Idle? && start.daily.mark == start.daily.cat.mark == Some(w)
    ensures start.daily.cat.base == {} && start.daily.pending == {}
  {
    var d, run := DailyProtocol.EmptySeedRun(w);
    DailyProtocol.RunKeepsInvariant(d, run);
    start := State(Coverage.Boot(Coverage.Absent), DailyProtocol.Exec(d, run), None, None);
    assert Before(start.daily.cat.base, w) == {};
  }

  /**
   A late row of a new subject whose publish fails is certified away, though its failure
   is observed, its batch settles before the proof, and no failure falls into a block.
   */
  lemma LateSubjectIsCertifiedAway(w: int, row: Row) returns (start: State, steps: seq<Step>)
    requires 0 < w && w % DAY == 0 && row.ts < w
    ensures Initial(start) && Legal(start, steps)
    ensures
      var t, x := Exec(start, steps), row.key.subject;
      t.cover.r.proven && x in Subjects(t.daily.cat.base) && x !in t.cover.bucket
  {
    start := SeededStart(w);
    steps := FailedPublish(start, w, row);
    steps := ProveOver(start, steps, row.key.subject);
  }

  lemma FailedPublish(start: State, w: int, row: Row) returns (steps: seq<Step>)
    requires Initial(start) && start.cover == Coverage.Boot(Coverage.Absent)
    requires start.daily.loaded && start.daily.phase.Idle? && start.daily.mark == start.daily.cat.mark == Some(w)
    requires start.daily.cat.base == {} && start.daily.pending == {} && row.ts < w
    ensures Legal(start, steps)
    ensures
      var t, x := Exec(start, steps), row.key.subject;
      && t.cover.at.Resting? && !t.cover.r.proven && t.cover.r.degraded && t.cover.r.BarrierMet()
      && t.cover.lake == {x} == Missed(t.daily) && t.cover.bucket == {} && t.daily.cat.base == {row}
  {
    var x := row.key.subject;
    OneMoreStep(start, [], Cover(Coverage.Publish({x}, false)));
    steps := [] + [Cover(Coverage.Publish({x}, false))];
    OneMoreStep(start, steps, Cover(Coverage.Observe));
    steps := LandUnpublished(start, steps + [Cover(Coverage.Observe)], w, row);
  }

  /** The batch of one late row lands and settles after its failure was observed. */
  lemma LandUnpublished(start: State, before: seq<Step>, w: int, row: Row) returns (steps: seq<Step>)
    requires Legal(start, before) && row.ts < w
    requires
      var s := Exec(start, before);
      && s.cover.decode == Coverage.Observed({row.key.subject}, false)
      && s.cover.at.Resting? && s.cover.r == Coverage.BOOTED.Failure() && s.cover.lake == s.cover.bucket == {}
      && DailyProtocol.Invariant(s.daily) && s.daily.loaded && s.daily.phase.Idle?
      && s.daily.mark == s.daily.cat.mark == Some(w) && s.daily.cat.base == {}
    ensures Legal(start, steps)
    ensures
      var t, x := Exec(start, steps), row.key.subject;
      && t.cover.at.Resting? && !t.cover.r.proven && t.cover.r.degraded && t.cover.r.BarrierMet()
      && t.cover.lake == {x} == Missed(t.daily) && t.cover.bucket == {} && t.daily.cat.base == {row}
  {
    var land := Land({row}, true, false);
    CommitOfNewSubject(Exec(start, before).daily, w, row);
    OneMoreStep(start, before, land);
    OneMoreStep(start, before + [land], Cover(Coverage.Settle));
    steps := before + [land] + [Cover(Coverage.Settle)];
  }

  lemma CommitOfNewSubject(d: DailyProtocol.State, w: int, row: Row)
    requires DailyProtocol.Invariant(d) && d.loaded && d.phase.Idle? && d.mark == d.cat.mark == Some(w)
    requires d.cat.base == {} && row.ts < w
    ensures DailyProtocol.Enabled(d, DailyProtocol.Commit({row}, true, false)) && Subjects({row}) == {row.key.subject}
    ensures
      var t := DailyProtocol.Do(d, DailyProtocol.Commit({row}, true, false));
      t.cat.base == {row} && Missed(t) == {row.key.subject}
  {
    assert Coherent({} + {row}) && {} + {row} == {row};
    assert Subjects({row}) == {row.key.subject};
    NewLateSubjectIsMissed(d, row);
  }

  /** The reporter proves coverage undisturbed, with a merge pass that misses all there is. */
  lemma ProveOver(start: State, before: seq<Step>, x: string) returns (steps: seq<Step>)
    requires Legal(start, before)
    requires
      var s := Exec(start, before);
      && s.cover.at.Resting? && !s.cover.r.proven && s.cover.r.degraded && s.cover.r.BarrierMet()
      && s.cover.lake == {x} == Missed(s.daily) && s.cover.bucket == {}
    ensures Legal(start, steps)
    ensures
      var s, t := Exec(start, before), Exec(start, steps);
      t.cover.r.proven && t.cover.bucket == {} && t.daily == s.daily
  {
    steps := before;
    OneMoreStep(start, steps, Cover(Coverage.Establish));
    steps := steps + [Cover(Coverage.Establish)];
    OneMoreStep(start, steps, Cover(Coverage.Flag(true)));
    steps := steps + [Cover(Coverage.Flag(true))];
    OneMoreStep(start, steps, Cover(Coverage.CheckBarrier));
    steps := steps + [Cover(Coverage.CheckBarrier)];
    OneMoreStep(start, steps, Cover(Coverage.Sample));
    steps := AssertOver(start, steps + [Cover(Coverage.Sample)], x);
  }

  lemma AssertOver(start: State, before: seq<Step>, x: string) returns (steps: seq<Step>)
    requires Legal(start, before)
    requires
      var s := Exec(start, before);
      s.cover.at == Coverage.Sampled(s.cover.r.failSeq) && s.cover.lake == {x} == Missed(s.daily) && s.cover.bucket ==
          {}
    ensures Legal(start, steps)
    ensures
      var s, t := Exec(start, before), Exec(start, steps);
      t.cover.r.proven && t.cover.bucket == {} && t.daily == s.daily
  {
    steps := before;
    OneMoreStep(start, steps, ReadCatalog);
    steps := steps + [ReadCatalog];
    OneMoreStep(start, steps, Cover(Coverage.ScanEnd(true)));
    steps := steps + [Cover(Coverage.ScanEnd(true))];
    OneMoreStep(start, steps, Cover(Coverage.AssertEnd(true, true)));
    steps := steps + [Cover(Coverage.AssertEnd(true, true))];
  }
}
