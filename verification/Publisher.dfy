/** `PublishSignals`: one decoded batch folded into the bucket, subject by subject. */
module Publisher {
  import opened Signals
  import opened Rollup
  import opened LatestEntry
  import opened Reconcile
  import opened CacheAgreement
  import opened Sorting

  /** The batch's rows of one subject, in order. */
  function RowsOf(rows: seq<Row>, s: string): seq<Row> {
    if rows == [] then []
    else RowsOf(rows[..|rows| - 1], s) + if rows[|rows| - 1].key.subject == s then [rows[|rows| - 1]] else []
  }

  /** That is: every row of the subject, once for each time it is in the batch, in batch order, and no other. */
  lemma {:induction false} RowsOfSelects(rows: seq<Row>, s: string) returns (idx: seq<nat>)
    ensures Selects(rows, idx, RowsOf(rows, s))
    ensures forall i: nat :: i in idx <==> i < |rows| && rows[i].key.subject == s
  {
    idx := [];
    if rows != [] {
      var n := |rows| - 1;
      idx := RowsOfSelects(rows[..n], s);
      SelectsNext(rows, n, idx, RowsOf(rows[..n], s));
      assert rows[..n + 1] == rows;
      if rows[n].key.subject == s {
        idx := idx + [n];
      }
    }
  }

  ghost function BatchSubjects(rows: seq<Row>): set<string> {
    set i | 0 <= i < |rows| :: rows[i].key.subject
  }

  /** `part` holds exactly the subject's rows of the batch, in batch order. */
  ghost predicate IsPartOf(rows: seq<Row>, s: string, part: seq<Row>) {
    exists idx :: Selects(rows, idx, part) && forall i: nat :: i in idx <==> i < |rows| && rows[i].key.subject == s
  }

  /** bySubject: the batch grouped by subject. */
  method GroupBySubject(rows: seq<Row>) returns (g: map<string, seq<Row>>)
    ensures g.Keys == BatchSubjects(rows) && forall s :: s in g ==> g[s] == RowsOf(rows, s)
    ensures forall s :: s in g ==> IsPartOf(rows, s, g[s])
  {
    g := CollectRows(rows);
    forall s | s in g ensures IsPartOf(rows, s, g[s]) {
      RowsOfIsPart(rows, s);
    }
  }

  lemma RowsOfIsPart(rows: seq<Row>, s: string)
    ensures IsPartOf(rows, s, RowsOf(rows, s))
  {
    var idx := RowsOfSelects(rows, s);
  }

  function GroupAt(g: map<string, seq<Row>>, s: string): seq<Row> {
    if s in g then g[s] else []
  }

  ghost predicate Collected(g: map<string, seq<Row>>, rows: seq<Row>) {
    g.Keys == BatchSubjects(rows) && forall s {:trigger GroupAt(g, s)} :: GroupAt(g, s) == RowsOf(rows, s)
  }

  lemma CollectNext(g: map<string, seq<Row>>, rows: seq<Row>, i: nat)
    requires i < |rows| && Collected(g, rows[..i])
    ensures
      var s := rows[i].key.subject;
      Collected(g[s := GroupAt(g, s) + [rows[i]]], rows[..i + 1])
  {
    var s := rows[i].key.subject;
    var next := g[s := GroupAt(g, s) + [rows[i]]];
    assert rows[..i + 1] == rows[..i] + [rows[i]] && rows[..i + 1][..i] == rows[..i];
    assert BatchSubjects(rows[..i + 1]) == BatchSubjects(rows[..i]) + {s};
    forall q ensures GroupAt(next, q) == RowsOf(rows[..i + 1], q) {
      assert GroupAt(g, q) == RowsOf(rows[..i], q);
    }
  }

  method CollectRows(rows: seq<Row>) returns (g: map<string, seq<Row>>)
    ensures g.Keys == BatchSubjects(rows) && forall s :: s in g ==> g[s] == RowsOf(rows, s)
  {
    g := map[];
    for i := 0 to |rows|
      invariant Collected(g, rows[..i])
    {
      var s := rows[i].key.subject;
      CollectNext(g, rows, i);
      g := g[s := (if s in g then g[s] else []) + [rows[i]]];
    }
    assert rows[..|rows|] == rows;
    forall s | s in g ensures g[s] == RowsOf(rows, s) {
      assert GroupAt(g, s) == RowsOf(rows, s);
    }
  }

  /** The entry of a subject after its part of the batch. */
  function Published(bucket: Bucket, rows: seq<Row>, s: string): SignalMap {
    FoldRows(EntryAt(bucket, s), RowsOf(rows, s))
  }

  predicate OutcomeOf(bucket: Bucket, out: Bucket, rows: seq<Row>, done: set<string>, ok: bool, s: string) {
    || (s in done && Lookup(out, s) == Some(Published(bucket, rows, s)))
    || (!(s in done && ok) && Lookup(out, s) == Lookup(bucket, s))
  }

  /** Every subject keeps its entry or has its part of the batch folded in; in `done`, the latter unless `!ok`. */
  ghost predicate Outcome(bucket: Bucket, out: Bucket, rows: seq<Row>, done: set<string>, ok: bool) {
    forall s :: OutcomeOf(bucket, out, rows, done, ok, s)
  }

  lemma OutcomeAdvances(bucket: Bucket, out: Bucket, rows: seq<Row>, done: set<string>, ok: bool, s: string)
    requires Outcome(bucket, out, rows, done, ok) && s in bucket
    ensures s in out && Below(bucket[s], out[s])
  {
    assert OutcomeOf(bucket, out, rows, done, ok, s);
    FoldRowsIsJoin(bucket[s], RowsOf(rows, s));
    JoinIsUpperBound(bucket[s], FoldRows(map[], RowsOf(rows, s)));
    JoinIsUpperBound(bucket[s], map[]);
  }

  lemma OutcomeStep(bucket: Bucket, out: Bucket, rows: seq<Row>, done: set<string>, ok: bool, s: string)
    requires Outcome(bucket, out, rows, done, ok) && s !in done
    ensures Outcome(bucket, out[s := FoldRows(EntryAt(out, s), RowsOf(rows, s))], rows, done + {s}, ok)
    ensures Outcome(bucket, out, rows, done + {s}, false)
  {
    assert OutcomeOf(bucket, out, rows, done, ok, s);
    var next := out[s := FoldRows(EntryAt(out, s), RowsOf(rows, s))];
    forall q ensures OutcomeOf(bucket, next, rows, done + {s}, ok, q) &&
        OutcomeOf(bucket, out, rows, done + {s}, false, q) {
      assert OutcomeOf(bucket, out, rows, done, ok, q);
      assert q != s ==> Lookup(next, q) == Lookup(out, q);
    }
  }

  // ----- what the bucket then holds

  /** The bucket holds, for every subject and name, the recency winners of `rows`, and nothing else. */
  ghost predicate BucketMirrors(bucket: Bucket, rows: set<Row>) {
    forall s {:trigger EntryAt(bucket, s)} :: Mirrors(EntryAt(bucket, s), rows, s)
  }

  /** Folding a part into an entry that mirrors `earlier` makes it mirror both. */
  lemma {:induction false} FoldExtendsMirror(e: SignalMap, earlier: set<Row>, part: seq<Row>, s: string)
    requires Mirrors(e, earlier, s) && Coherent(earlier + AsSet(part)) && OfSubject(AsSet(part), s)
    ensures Mirrors(FoldRows(e, part), earlier + AsSet(part), s)
  {
    if part == [] {
      assert earlier + AsSet(part) == earlier;
    } else {
      var r, front := part[|part| - 1], part[..|part| - 1];
      assert AsSet(part) == AsSet(front) + {r};
      FoldExtendsMirror(e, earlier, front, s);
      assert earlier + AsSet(part) == earlier + AsSet(front) + {r};
      FoldKeepsMirror(FoldRows(e, front), earlier + AsSet(front), r);
    }
  }

  /** Rows of other subjects do not show in an entry. */
  lemma MirrorsOwnRows(e: SignalMap, a: set<Row>, b: set<Row>, s: string)
    requires Mirrors(e, a, s) && forall r: Row :: r.key.subject == s ==> (r in a <==> r in b)
    ensures Mirrors(e, b, s)
  {
    forall n ensures Group(a, Key(s, n)) == Group(b, Key(s, n)) {
    }
  }

  lemma PublishedMirrors(bucket: Bucket, earlier: set<Row>, rows: seq<Row>, s: string)
    requires Mirrors(EntryAt(bucket, s), earlier, s) && Coherent(earlier + AsSet(rows))
    ensures Mirrors(Published(bucket, rows, s), earlier + AsSet(rows), s)
  {
    var part := RowsOf(rows, s);
    ghost var idx := RowsOfSelects(rows, s);
    forall r ensures r in part <==> r in rows && r.key.subject == s {
      PartMembers(rows, s, idx, r);
    }
    FoldExtendsMirror(EntryAt(bucket, s), earlier, part, s);
    MirrorsOwnRows(Published(bucket, rows, s), earlier + AsSet(part), earlier + AsSet(rows), s);
  }

  lemma PartMembers(rows: seq<Row>, s: string, idx: seq<nat>, r: Row)
    requires Selects(rows, idx, RowsOf(rows, s))
    requires forall i: nat :: i in idx <==> i < |rows| && rows[i].key.subject == s
    ensures r in RowsOf(rows, s) <==> r in rows && r.key.subject == s
  {
    if r in RowsOf(rows, s) {
      var k :| 0 <= k < |idx| && RowsOf(rows, s)[k] == r;
      assert idx[k] in idx;
    }
    if r in rows && r.key.subject == s {
      var i: nat :| i < |rows| && rows[i] == r;
      assert i in idx;
      var k :| 0 <= k < |idx| && idx[k] == i;
      assert RowsOf(rows, s)[k] == r;
    }
  }

  /** A batch published in full, over a bucket that mirrors earlier readings, leaves one that mirrors all of them. */
  lemma FullOutcomeMirrors(bucket: Bucket, out: Bucket, earlier: set<Row>, rows: seq<Row>)
    requires Outcome(bucket, out, rows, BatchSubjects(rows), true)
    requires BucketMirrors(bucket, earlier) && Coherent(earlier + AsSet(rows))
    ensures BucketMirrors(out, earlier + AsSet(rows))
  {
    forall s ensures Mirrors(EntryAt(out, s), earlier + AsSet(rows), s) {
      assert OutcomeOf(bucket, out, rows, BatchSubjects(rows), true, s);
      assert Mirrors(EntryAt(bucket, s), earlier, s);
      if s in BatchSubjects(rows) {
        PublishedMirrors(bucket, earlier, rows, s);
      } else {
        assert forall r :: r in rows ==> r.key.subject in BatchSubjects(rows);
        MirrorsOwnRows(EntryAt(bucket, s), earlier, earlier + AsSet(rows), s);
      }
    }
  }

  /**
   Each subject's update lands or fails, and a failure may cancel the subjects not yet
   written. A nil result, which calm guarantees, means every subject of the batch was
   folded: over a bucket that holds the winners of `earlier`, it now holds those of the
   batch too, each reading of it included.
   */
  method PublishSignals(rows: seq<Row>, bucket: Bucket, calm: bool, ghost earlier: set<Row>)
      returns (ok: bool, out: Bucket)
    ensures Outcome(bucket, out, rows, BatchSubjects(rows), ok)
    ensures forall s :: s in bucket ==> s in out && Below(bucket[s], out[s])
    ensures calm ==> ok
    ensures ok && BucketMirrors(bucket, earlier) && Coherent(earlier + AsSet(rows)) ==>
              BucketMirrors(out, earlier + AsSet(rows))
  {
    var g := GroupBySubject(rows);
    ok, out := PublishGroups(rows, g, bucket, calm);
    forall s | s in bucket ensures s in out && Below(bucket[s], out[s]) {
      OutcomeAdvances(bucket, out, rows, BatchSubjects(rows), ok, s);
    }
    if ok && BucketMirrors(bucket, earlier) && Coherent(earlier + AsSet(rows)) {
      FullOutcomeMirrors(bucket, out, earlier, rows);
    }
  }

  method PublishGroups(ghost rows: seq<Row>, g: map<string, seq<Row>>, bucket: Bucket, calm: bool)
    returns (ok: bool, out: Bucket)
    requires forall s :: s in g ==> g[s] == RowsOf(rows, s)
    ensures Outcome(bucket, out, rows, g.Keys, ok) && (calm ==> ok)
  {
    ok, out := true, bucket;
    var todo := g.Keys;
    ghost var done := {};
    while todo != {}
      invariant done !! todo && done + todo == g.Keys && Outcome(bucket, out, rows, done, ok) && (calm ==> ok)
      decreases |todo|
    {
      var s :| s in todo;
      OutcomeStep(bucket, out, rows, done, ok, s);
      todo, done := todo - {s}, done + {s};
      var landed: bool := *;
      if landed || calm {
        out := out[s := FoldRows(EntryAt(out, s), g[s])];
      } else {
        ok := false;
      }
    }
  }
}
