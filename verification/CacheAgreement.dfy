/**
 The cache agrees with the lake: whatever the order, batching or replay of the
 live readings of a subject, its entry is the one determined by their set, and
 that entry is the rollup's answer.
 */
module CacheAgreement {
  import opened Signals
  import opened Rollup
  import opened LatestEntry
  import opened Sorting

  /**
   One (subject, name) of the reconcile's tail query: the value part is the winner
   of all rows, the location part the winner of the rows with a nonzero fix.
   */
  ghost function TailSelect(g: set<Row>): SignalValue
    requires g != {}
  {
    var w, f := Winner(g), Fixes(g);
    SignalValue(w.ts, w.ceid, w.value,
                if f == {} then None else Some(LocValue(Winner(f).ts, Winner(f).ceid, Winner(f).fix)))
  }

  ghost predicate OfSubject(rows: set<Row>, s: string) {
    forall r :: r in rows ==> r.key.subject == s
  }

  /** `e` holds the tail query's answer for every name of subject `s`, and nothing else. */
  ghost predicate Mirrors(e: SignalMap, rows: set<Row>, s: string) {
    forall n :: Lookup(e, n) == var g := Group(rows, Key(s, n)); if g == {} then None else Some(TailSelect(g))
  }

  lemma WinnerOfExtended(g: set<Row>, r: Row)
    requires g != {} && Coherent(g + {r}) && (forall q :: q in g ==> q.key == r.key)
    ensures
      var w := Winner(g);
      Winner(g + {r}) == if NewerThan(r.ts, r.ceid, w.ts, w.ceid) then r else w
  {
    var w, x := Winner(g), Winner(g + {r});
    var y := if NewerThan(r.ts, r.ceid, w.ts, w.ceid) then r else w;
    assert IsWinner(g + {r}, y);
    assert x.ts == y.ts && x.ceid == y.ceid && x.key == y.key;
  }

  lemma LiveIsTail(r: Row)
    ensures TailSelect({r}) == Live(r)
  {
    assert Winner({r}) == r;
    if r.fix.Nonzero() {
      assert Fixes({r}) == {r};
    }
  }

  /** One more reading: the fold's pick is the tail query over one more row. */
  lemma TailOfExtended(g: set<Row>, r: Row)
    requires g != {} && Coherent(g + {r}) && (forall q :: q in g ==> q.key == r.key)
    ensures TailSelect(g + {r}) == Pick(TailSelect(g), Live(r))
  {
    WinnerOfExtended(g, r);
    if r.fix.Nonzero() {
      assert Fixes(g + {r}) == Fixes(g) + {r};
      if Fixes(g) != {} {
        WinnerOfExtended(Fixes(g), r);
      } else {
        assert Fixes(g + {r}) == {r};
        assert Winner({r}) == r;
      }
    } else {
      assert Fixes(g + {r}) == Fixes(g);
    }
  }

  lemma FoldKeepsMirror(e: SignalMap, rows: set<Row>, r: Row)
    requires Mirrors(e, rows, r.key.subject) && Coherent(rows + {r})
    ensures Mirrors(FoldInto(e, r.key.name, Live(r)), rows + {r}, r.key.subject)
  {
    var s, e' := r.key.subject, FoldInto(e, r.key.name, Live(r));
    forall n
      ensures Lookup(e', n) == var g := Group(rows + {r}, Key(s, n)); if g == {} then None else Some(TailSelect(g))
    {
      var g := Group(rows, Key(s, n));
      assert Lookup(e, n) == if g == {} then None else Some(TailSelect(g));
      if n != r.key.name {
        assert Group(rows + {r}, Key(s, n)) == g;
      } else {
        assert Group(rows + {r}, Key(s, n)) == g + {r};
        if g == {} {
          assert g + {r} == {r};
          LiveIsTail(r);
        } else {
          TailOfExtended(g, r);
        }
      }
    }
  }

  /** Folding the readings of a subject in any order gives the entry their set determines. */
  lemma {:induction false} FoldMirrorsRows(rows: seq<Row>, s: string)
    requires Coherent(AsSet(rows)) && OfSubject(AsSet(rows), s)
    ensures Mirrors(FoldRows(map[], rows), AsSet(rows), s)
  {
    if rows == [] {
      assert forall n :: Group({}, Key(s, n)) == {};
    } else {
      var r, front := rows[|rows| - 1], rows[..|rows| - 1];
      assert AsSet(rows) == AsSet(front) + {r};
      FoldMirrorsRows(front, s);
      FoldKeepsMirror(FoldRows(map[], front), AsSet(front), r);
    }
  }

  /** Order, batching and replay do not matter: sequences with the same readings fold to the same entry. */
  lemma FoldIsOrderFree(a: seq<Row>, b: seq<Row>, s: string)
    requires AsSet(a) == AsSet(b) && Coherent(AsSet(a)) && OfSubject(AsSet(a), s)
    ensures FoldRows(map[], a) == FoldRows(map[], b)
  {
    FoldMirrorsRows(a, s);
    FoldMirrorsRows(b, s);
    SameLookups(FoldRows(map[], a), FoldRows(map[], b));
  }

  /** A batch that replays readings the entry already holds changes nothing. */
  lemma ReplayIsNoOp(a: seq<Row>, b: seq<Row>, s: string)
    requires AsSet(b) <= AsSet(a) && Coherent(AsSet(a)) && OfSubject(AsSet(a), s)
    ensures FoldRows(FoldRows(map[], a), b) == FoldRows(map[], a)
  {
    FoldRowsAppend(map[], a, b);
    assert AsSet(a + b) == AsSet(a);
    FoldIsOrderFree(a + b, a, s);
  }

  lemma {:induction false} FoldRowsAppend(e: SignalMap, a: seq<Row>, b: seq<Row>)
    ensures FoldRows(FoldRows(e, a), b) == FoldRows(e, a + b)
  {
    if b == [] {
      assert a + b == a;
    } else {
      assert (a + b)[..|a + b| - 1] == a + b[..|b| - 1];
      FoldRowsAppend(e, a, b[..|b| - 1]);
    }
  }

  // ----- against the rollup

  /** The rollup keeps the same reading as the recency order: deduplicating first does not change the winner. */
  lemma ValueAgreesWithRollup(rows: set<Row>, k: Key)
    requires Coherent(rows) && Group(rows, k) != {}
    ensures k in RollupSelect(rows)
    ensures RollupSelect(rows)[k].ts == TailSelect(Group(rows, k)).ts == RollupSelect(rows)[k].lastSeen
    ensures RollupSelect(rows)[k].value == TailSelect(Group(rows, k)).value
  {
    SelectKeys(rows, k);
    NewestOfDedupIsWinner(rows, k);
  }

  lemma NewestOfDedupIsWinner(rows: set<Row>, k: Key)
    requires Coherent(rows) && Group(rows, k) != {}
    ensures Group(Dedup(rows), k) != {} && Newest(Group(Dedup(rows), k)) == Winner(Group(rows, k))
  {
    var g, d := Group(rows, k), Group(Dedup(rows), k);
    WinnerSurvivesDedup(rows, g, k);
    assert OnePerTimestamp(Dedup(rows)) by { DedupKeeps(rows); }
    assert IsNewest(d, Winner(g)) by {
      assert forall q :: q in d ==> q in g;
    }
  }

  lemma WinnerSurvivesDedup(rows: set<Row>, g: set<Row>, k: Key)
    requires g == Group(rows, k) != {}
    ensures Winner(g) in Group(Dedup(rows), k)
  {
    var w := Winner(g);
    forall q | q in rows && q.key == w.key && q.ts == w.ts ensures w.ceid <= q.ceid {
      assert q in g;
    }
  }

  /**
   The rollup deduplicates before it filters on the fix; the cache filters first.
   They serve the same fix if and only if no (0,0) row with a smaller
   cloud_event_id shares the timestamp of the newest real fix.
   */
  lemma LocationAgreesWithRollupIff(rows: set<Row>, k: Key)
    requires Coherent(rows) && Fixes(Group(rows, k)) != {}
    ensures k in RollupSelect(rows)
    ensures
      var w := Winner(Fixes(Group(rows, k)));
      (RollupSelect(rows)[k].fix == w.fix && RollupSelect(rows)[k].fixTs == w.ts) <==>
      !exists q :: q in rows && q.key == k && q.ts == w.ts && !q.fix.Nonzero() && q.ceid < w.ceid
  {
    SelectKeys(rows, k);
    DedupKeeps(rows);
    var w := Winner(Fixes(Group(rows, k)));
    var kept := Fixes(Group(Dedup(rows), k));
    if q :| q in rows && q.key == k && q.ts == w.ts && !q.fix.Nonzero() && q.ceid < w.ceid {
      NewestFixShadowed(rows, k, q);
    } else {
      forall q | q in rows && q.key == w.key && q.ts == w.ts ensures w.ceid <= q.ceid {
        assert q.fix.Nonzero() ==> q in Fixes(Group(rows, k));
      }
      assert w in kept;
      assert forall q :: q in kept ==> q in Fixes(Group(rows, k));
      assert IsNewest(kept, w);
    }
  }

  /** A shadowed newest fix: no row the rollup keeps at that timestamp has a fix. */
  lemma NewestFixShadowed(rows: set<Row>, k: Key, q: Row)
    requires Coherent(rows) && Fixes(Group(rows, k)) != {}
    requires q in rows && q.key == k && q.ts == Winner(Fixes(Group(rows, k))).ts
    requires !q.fix.Nonzero() && q.ceid < Winner(Fixes(Group(rows, k))).ceid
    ensures forall r :: r in Fixes(Group(Dedup(rows), k)) ==> r.ts != q.ts
  {
    forall r | r in Fixes(Group(Dedup(rows), k)) ensures r.ts != q.ts {
      assert r in Fixes(Group(rows, k));
    }
  }
}
