/**
 What a reconcile pass reaches: which subjects of the lake it leaves with a key, and
 which reading it serves, given the account the rollup protocol keeps of every key.
 */
module Completeness {
  import opened Signals
  import opened Rollup
  import opened Buckets
  import opened RollupCatalog
  import opened LatestEntry
  import opened CacheAgreement
  import opened Reconcile
  import DailyProtocol

  ghost predicate Visited(c: Catalog, s: string) {
    Stored(c, s) || InTail(c, s)
  }

  lemma StoredByRow(c: Catalog, rows: set<Row>, r: Row)
    requires IsRecompute(c.table, rows) && r in rows
    ensures Stored(c, r.key.subject)
  {
    assert r in Group(rows, r.key);
    SelectKeys(rows, r.key);
    assert RowsAt(c.table, r.key) == Recomputed(rows, r.key) != [];
  }

  lemma RowOfStored(c: Catalog, rows: set<Row>, s: string)
    requires IsRecompute(c.table, rows) && Stored(c, s)
    ensures exists r :: r in rows && r.key.subject == s
  {
    var k :| k in c.table && RowsAt(c.table, k) != [] && k.subject == s;
    SelectKeys(rows, k);
    assert RowsAt(c.table, k) == Recomputed(rows, k);
    var r :| r in Group(rows, k);
    assert r in rows && r.key.subject == s;
  }

  /** The rollup scan visits a subject exactly when one of its rows before the watermark is not pending. */
  lemma StoredIff(c: Catalog, pending: set<Row>, s: string)
    requires Accounted(c, pending) && c.mark.Some?
    ensures Stored(c, s) <==> exists r :: r in Before(c.base, c.mark.value) - pending && r.key.subject == s
  {
    var rows := Before(c.base, c.mark.value) - pending;
    if Stored(c, s) {
      RowOfStored(c, rows, s);
    }
    if r :| r in rows && r.key.subject == s {
      StoredByRow(c, rows, r);
    }
  }

  /**
   Completeness of one consistent pass once a watermark exists: a subject is missed if
   and only if all its rows arrived below the watermark since its last recompute.
   */
  lemma MissedIff(c: Catalog, pending: set<Row>, s: string)
    requires Accounted(c, pending) && c.mark.Some?
    ensures !Visited(c, s) <==> forall r :: r in c.base && r.key.subject == s ==> r in pending
  {
    StoredIff(c, pending, s);
    if !Visited(c, s) {
      forall r | r in c.base && r.key.subject == s ensures r in pending {
        assert r.ts < c.mark.value;
        assert r in Before(c.base, c.mark.value);
      }
    }
  }

  /** In every run of the rollup protocol such a subject carries a late mark. */
  lemma MissedOnlyWhileMarked(start: DailyProtocol.State, steps: seq<DailyProtocol.Step>, s: string)
    requires DailyProtocol.Initial(start) && DailyProtocol.Legal(start, steps)
    ensures
      var t := DailyProtocol.Exec(start, steps);
      t.cat.mark.Some? && s in Subjects(t.cat.base) && !Visited(t.cat, s) ==>
        s in t.cat.late && forall r :: r in t.cat.base && r.key.subject == s ==> r in t.pending
  {
    DailyProtocol.RunKeepsInvariant(start, steps);
    var t := DailyProtocol.Exec(start, steps);
    if t.cat.mark.Some? && s in Subjects(t.cat.base) && !Visited(t.cat, s) {
      MissedIff(t.cat, t.pending, s);
      var r :| r in t.cat.base && r.key.subject == s;
      assert s in Subjects(t.pending);
    }
  }

  /** A late batch that brings a new subject leaves it unvisited until its recompute. */
  lemma NewLateSubjectIsMissed(s: DailyProtocol.State, row: Row)
    requires DailyProtocol.Invariant(s) && s.cat.mark.Some? && row.ts < s.cat.mark.value
    requires DailyProtocol.Enabled(s, DailyProtocol.Commit({row}, true, false))
    requires row.key.subject !in Subjects(s.cat.base)
    ensures
      var c := DailyProtocol.Do(s, DailyProtocol.Commit({row}, true, false)).cat;
      row.key.subject in Subjects(c.base) && !Visited(c, row.key.subject)
  {
    var step := DailyProtocol.Commit({row}, true, false);
    var t := DailyProtocol.Do(s, step);
    DailyProtocol.StepKeepsInvariant(s, step);
    assert row in t.cat.base;
    assert forall r :: r in s.cat.base ==> r.key.subject in Subjects(s.cat.base);
    assert row in Before({row}, s.cat.mark.value) - s.cat.base;
    MissedIff(t.cat, t.pending, row.key.subject);
  }

  /** And a run gets there from an empty catalog: seed, then one late row. */
  lemma MissedSubjectIsReached(w: int, row: Row)
    returns (start: DailyProtocol.State, steps: seq<DailyProtocol.Step>)
    requires 0 < w && w % DAY == 0 && row.ts < w
    ensures DailyProtocol.Initial(start) && DailyProtocol.Legal(start, steps)
    ensures
      var c := DailyProtocol.Exec(start, steps).cat;
      c.mark == Some(w) && row.key.subject in Subjects(c.base) && !Visited(c, row.key.subject)
  {
    start, steps := DailyProtocol.EmptySeedRun(w);
    var s := DailyProtocol.Exec(start, steps);
    DailyProtocol.RunKeepsInvariant(start, steps);
    var commit := DailyProtocol.Commit({row}, true, false);
    NewLateSubjectIsMissed(s, row);
    DailyProtocol.OneMoreStep(start, steps, commit);
    steps := steps + [commit];
  }

  /**
   While the first seed is under way there is no watermark and so no tail: a subject
   is visited if and only if its bucket has been seeded and it has a row below the
   boundary.
   */
  lemma SeedVisitsIff(c: Catalog, w: int, next: nat, s: string)
    requires c.mark.None? && SeededTo(c, w, next)
    ensures Visited(c, s) <==> HashBucket(s) < next && exists r :: r in Before(c.base, w) && r.key.subject == s
  {
    var rows := Before(c.base, w);
    if Stored(c, s) {
      var k :| k in c.table && RowsAt(c.table, k) != [] && k.subject == s;
      assert RowsAt(c.table, k) == if HashBucket(k.subject) < next then Recomputed(rows, k) else [];
      SelectKeys(rows, k);
      var r :| r in Group(rows, k);
      assert r in rows && r.key.subject == s;
    }
    if HashBucket(s) < next {
      if r :| r in rows && r.key.subject == s {
        assert r in Group(rows, r.key);
        SelectKeys(rows, r.key);
        assert RowsAt(c.table, r.key) == Recomputed(rows, r.key) != [];
      }
    }
  }

  /**
   The source reads the rollup and the watermark in separate queries. When a fold
   commits in between, the pass visits a subject if and only if it has a row before
   the old watermark that is not pending, or one at or after the new.
   */
  lemma SplitSnapshotVisitsIff(c: Catalog, pending: set<Row>, to: int, s: string)
    requires Accounted(c, pending) && c.mark.Some? && c.mark.value < to
    ensures
      Stored(c, s) || InTail(FoldTx(c, c.mark.value, to), s) <==>
      || (exists r :: r in Before(c.base, c.mark.value) - pending && r.key.subject == s)
      || (exists r :: r in c.base && r.key.subject == s && to <= r.ts)
  {
    StoredIff(c, pending, s);
    var folded := FoldTx(c, c.mark.value, to);
    assert folded.mark == Some(to) && folded.base == c.base;
  }

  // ----- what the pass serves

  lemma WinnerOfTail(a: set<Row>, b: set<Row>, w: int, k: Key)
    requires Separates(w, a, b) && b != {} && Coherent(b) && forall r :: r in b ==> r.key == k
    ensures Winner(a + b) == Winner(b)
  {
    var q := Winner(b);
    assert q in a + b;
    var x := Winner(a + b);
    assert x in b;
    assert x.key == q.key && x.ts == q.ts && x.ceid == q.ceid;
  }

  /** A key's rows the pass can see, before the watermark and from it on. */
  ghost predicate Parts(c: Catalog, pending: set<Row>, k: Key, a: set<Row>, b: set<Row>) {
    && c.mark.Some? && Coherent(c.base)
    && a == Group(Before(c.base, c.mark.value) - pending, k)
    && b == Group(c.base - Before(c.base, c.mark.value), k)
  }

  lemma PartsAreAll(c: Catalog, pending: set<Row>, k: Key, a: set<Row>, b: set<Row>)
    requires Parts(c, pending, k, a, b) && pending <= Before(c.base, c.mark.value)
    ensures a + b == Group(c.base - pending, k) && Separates(c.mark.value, a, b)
    ensures forall r :: r in a + b ==> r.key == k
  {
  }

  /** The stored row is the winner of the older part. */
  lemma StoredIsWinner(c: Catalog, pending: set<Row>, k: Key)
    requires Accounted(c, pending) && c.mark.Some?
    ensures
      var a, v := Group(Before(c.base, c.mark.value) - pending, k), StoredReading(c, k);
      && (v.None? <==> a == {})
      && (v.Some? ==> v.value.ts == Winner(a).ts && v.value.value == Winner(a).value && v.value.ceid == 0)
  {
    var rows := Before(c.base, c.mark.value) - pending;
    assert RowsAt(c.table, k) == Recomputed(rows, k);
    SelectKeys(rows, k);
    if Group(rows, k) != {} {
      ValueAgreesWithRollup(rows, k);
    }
  }

  /** The cloud_event_id a reading is served with: the tail delivers it, the rollup has none. */
  function ServedId(c: Catalog, r: Row): nat
    requires c.mark.Some?
  {
    if c.mark.value <= r.ts then r.ceid else 0
  }

  lemma ServesWinner(c: Catalog, pending: set<Row>, k: Key, a: set<Row>, b: set<Row>)
    requires Parts(c, pending, k, a, b) && pending <= Before(c.base, c.mark.value) && a + b != {}
    requires StoredReading(c, k).None? <==> a == {}
    requires a != {} ==>
               var s := StoredReading(c, k).value; s.ts == Winner(a).ts && s.value == Winner(a).value && s.ceid == 0
    ensures
      var v, w := Reconciled(c, None, k), Winner(a + b);
      && v.Some? && v.value.ts == w.ts && v.value.value == w.value
      && v.value.ceid == ServedId(c, w)
  {
    PartsAreAll(c, pending, k, a, b);
    if b != {} {
      WinnerOfTail(a, b, c.mark.value, k);
      if a != {} {
        assert Winner(a).ts < c.mark.value <= Winner(b).ts;
      }
    } else {
      assert a + b == a;
    }
  }

  /**
   For every key the rollup scan plus the tail serve the newest reading of the whole
   lake but the pending rows, by the recency order.
   */
  lemma ReconcileServesNewest(c: Catalog, pending: set<Row>, k: Key)
    requires Accounted(c, pending) && c.mark.Some? && Group(c.base - pending, k) != {}
    ensures
      var v, w := Reconciled(c, None, k), Winner(Group(c.base - pending, k));
      v.Some? && v.value.ts == w.ts && v.value.value == w.value && v.value.ceid == ServedId(c, w)
  {
    var a := Group(Before(c.base, c.mark.value) - pending, k);
    var b := Group(c.base - Before(c.base, c.mark.value), k);
    StoredIsWinner(c, pending, k);
    PartsAreAll(c, pending, k, a, b);
    ServesWinner(c, pending, k, a, b);
  }

  lemma PickOptAssociative(x: Option<SignalValue>, y: Option<SignalValue>, z: Option<SignalValue>)
    ensures PickOpt(PickOpt(x, y), z) == PickOpt(x, PickOpt(PickOpt(None, y), z))
  {
    if x.Some? && y.Some? && z.Some? {
      PickAssociative(x.value, y.value, z.value);
    }
  }

  /**
   Over what was already cached the pass serves whichever wins, that or the lake's
   newest reading. On equal timestamps the lake's reading is served exactly when the
   cached one has the larger cloud_event_id, the rollup's readings counting as empty: so
   a reading that came from the rollup never yields to a tied one.
   */
  lemma ReconcileIsFresh(c: Catalog, pending: set<Row>, was: SignalValue, k: Key)
    requires Accounted(c, pending) && c.mark.Some? && Group(c.base - pending, k) != {}
    ensures Reconciled(c, Some(was), k) == PickOpt(Some(was), Reconciled(c, None, k))
    ensures
      var v, w := Reconciled(c, Some(was), k), Winner(Group(c.base - pending, k));
      var lakeWins := was.ts < w.ts || (was.ts == w.ts && ServedId(c, w) < was.ceid);
      v.Some? && v.value.ts == (if lakeWins then w.ts else was.ts) && v.value.value ==
          (if lakeWins then w.value else was.value)
  {
    ReconcileServesNewest(c, pending, k);
    PickOptAssociative(Some(was), StoredReading(c, k), TailReading(c, k));
  }

  // ----- which fix it serves

  /** The pass serves exactly this row's fix. */
  predicate ServesFix(v: Option<SignalValue>, r: Row) {
    v.Some? && v.value.loc.Some? && v.value.loc.value.ts == r.ts && v.value.loc.value.fix == r.fix
  }

  /** A (0,0) row with a smaller cloud_event_id shares the row's timestamp. */
  ghost predicate Shadowed(rows: set<Row>, r: Row) {
    exists q :: q in rows && q.key == r.key && q.ts == r.ts && !q.fix.Nonzero() && q.ceid < r.ceid
  }

  /** A fix at or after the watermark is served by the tail. */
  lemma TailServesFix(c: Catalog, pending: set<Row>, k: Key, a: set<Row>, b: set<Row>)
    requires Parts(c, pending, k, a, b) && pending <= Before(c.base, c.mark.value) && Fixes(b) != {}
    requires StoredReading(c, k).Some? && StoredReading(c, k).value.loc.Some? ==>
               StoredReading(c, k).value.loc.value.ts < c.mark.value
    ensures Winner(Fixes(a + b)) == Winner(Fixes(b)) && c.mark.value <= Winner(Fixes(b)).ts
    ensures ServesFix(Reconciled(c, None, k), Winner(Fixes(b)))
  {
    PartsAreAll(c, pending, k, a, b);
    assert Fixes(a + b) == Fixes(a) + Fixes(b);
    WinnerOfTail(Fixes(a), Fixes(b), c.mark.value, k);
  }

  /** What the rollup says of a fix: it is an earlier row's, and the newest exactly when that is not shadowed. */
  lemma StoredFix(c: Catalog, pending: set<Row>, k: Key)
    requires Accounted(c, pending) && c.mark.Some?
    ensures
      var rows, v := Before(c.base, c.mark.value) - pending, StoredReading(c, k);
      && (v.Some? && v.value.loc.Some? ==> v.value.loc.value.ts < c.mark.value)
      && (Fixes(Group(rows, k)) == {} ==> v.None? || v.value.loc.None?)
      && (Fixes(Group(rows, k)) != {} ==>
            var f := Winner(Fixes(Group(rows, k))); ServesFix(v, f) <==> !Shadowed(rows, f))
  {
    var rows := Before(c.base, c.mark.value) - pending;
    assert RowsAt(c.table, k) == Recomputed(rows, k);
    if k in RollupSelect(rows) {
      var kept := Fixes(Group(Dedup(rows), k));
      assert kept <= Fixes(Group(rows, k));
      assert kept != {} ==> Newest(kept) in rows;
    }
    if Fixes(Group(rows, k)) != {} {
      LocationAgreesWithRollupIff(rows, k);
      var f := Winner(Fixes(Group(rows, k)));
      assert f in Group(rows, k);
    }
  }

  /**
   The pass serves the newest real fix of the rows it can see if and only if that fix
   is at or after the watermark, or not shadowed in the rollup's deduplication; with no
   real fix to see it serves none.
   */
  lemma ReconcileServesFixIff(c: Catalog, pending: set<Row>, k: Key)
    requires Accounted(c, pending) && c.mark.Some?
    ensures
      var fixes, v := Fixes(Group(c.base - pending, k)), Reconciled(c, None, k);
      && (fixes == {} ==> v.None? || v.value.loc.None?)
      && (fixes != {} ==>
            var f := Winner(fixes);
            ServesFix(v, f) <==> c.mark.value <= f.ts || !Shadowed(c.base - pending, f))
  {
    var a := Group(Before(c.base, c.mark.value) - pending, k);
    var b := Group(c.base - Before(c.base, c.mark.value), k);
    PartsAreAll(c, pending, k, a, b);
    if Fixes(b) != {} {
      StoredFix(c, pending, k);
      TailServesFix(c, pending, k, a, b);
    } else {
      assert Fixes(a + b) == Fixes(a) + Fixes(b) == Fixes(a);
      StoredServesFix(c, pending, k);
    }
  }

  /** Without a fix in the tail the rollup's is served. */
  lemma StoredServesFix(c: Catalog, pending: set<Row>, k: Key)
    requires Accounted(c, pending) && c.mark.Some?
    requires Fixes(Group(c.base - Before(c.base, c.mark.value), k)) == {}
    ensures
      var fixes, v := Fixes(Group(Before(c.base, c.mark.value) - pending, k)), Reconciled(c, None, k);
      && (fixes == {} ==> v.None? || v.value.loc.None?)
      && (fixes != {} ==>
            var f := Winner(fixes);
            f.ts < c.mark.value && (ServesFix(v, f) <==> !Shadowed(c.base - pending, f)))
  {
    StoredFix(c, pending, k);
    TailWithoutFix(c, k);
    var fixes := Fixes(Group(Before(c.base, c.mark.value) - pending, k));
    if fixes != {} {
      EarlierShadow(c, pending, Winner(fixes));
    }
  }

  /** A tail without a fix leaves the stored one. */
  lemma TailWithoutFix(c: Catalog, k: Key)
    requires c.mark.Some? && Fixes(Group(c.base - Before(c.base, c.mark.value), k)) == {}
    ensures
      var v, s := Reconciled(c, None, k), StoredReading(c, k);
      && (s.Some? ==> v.Some? && v.value.loc == s.value.loc)
      && (s.None? ==> v.None? || v.value.loc.None?)
  {
  }

  /** Rows that shadow a row before the watermark lie before it too. */
  lemma EarlierShadow(c: Catalog, pending: set<Row>, f: Row)
    requires c.mark.Some? && f.ts < c.mark.value
    ensures Shadowed(Before(c.base, c.mark.value) - pending, f) <==> Shadowed(c.base - pending, f)
  {
    if Shadowed(c.base - pending, f) {
      var q :| q in c.base - pending && q.key == f.key && q.ts == f.ts && !q.fix.Nonzero() && q.ceid < f.ceid;
      assert q in Before(c.base, c.mark.value) - pending;
    }
  }
}
