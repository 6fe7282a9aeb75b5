/**
 `rollupSelectSQL` and the daily fold's merge.

 The recompute keeps, per (subject, name, timestamp), the row with the least
 cloud_event_id and aggregates what is left per (subject, name). The fold merges
 such an aggregate of the rows on one side of a boundary with one of the rows on
 the other side.
 */
module Rollup {
  import opened Signals

  /** One row of lake.signals_latest, without its key. */
  datatype Agg = Agg(ts: int, value: Value, fix: Fix, fixTs: int, count: nat, firstSeen: int, lastSeen: int)

  /** QUALIFY ROW_NUMBER() OVER (PARTITION BY subject, name, timestamp ORDER BY cloud_event_id) = 1. */
  ghost function Dedup(rows: set<Row>): set<Row> {
    set r | r in rows && forall q :: q in rows && q.key == r.key && q.ts == r.ts ==> r.ceid <= q.ceid
  }

  ghost function Fixes(g: set<Row>): set<Row> {
    set r | r in g && r.fix.Nonzero()
  }

  /** The aggregate columns over one deduplicated group. */
  ghost function Aggregate(g: set<Row>): Agg
    requires g != {}
  {
    var w, f := Newest(g), Fixes(g);
    Agg(w.ts, w.value,
        if f == {} then NO_FIX else Newest(f).fix,
        if f == {} then 0 else Newest(f).ts,
        |g|, Oldest(g).ts, w.ts)
  }

  ghost function KeySet(rows: set<Row>): (ks: set<Key>)
    ensures forall k :: k in ks <==> Group(rows, k) != {}
  {
    KeySetIsGroups(rows);
    set r | r in rows :: r.key
  }

  lemma KeySetIsGroups(rows: set<Row>)
    ensures forall k :: k in (set r | r in rows :: r.key) <==> Group(rows, k) != {}
  {
    forall k ensures k in (set r | r in rows :: r.key) <==> Group(rows, k) != {} {
      if r :| r in rows && r.key == k {
        assert r in Group(rows, k);
      }
    }
  }

  /** The recompute of a set of base rows: one aggregate per key. */
  ghost function RollupSelect(rows: set<Row>): map<Key, Agg> {
    map k | k in KeySet(Dedup(rows)) :: Aggregate(Group(Dedup(rows), k))
  }

  /** The daily fold's merge of a tail aggregate onto the stored row, if there is one. */
  function MergeAgg(p: Option<Agg>, t: Agg): Agg {
    var moved := t.fixTs > 0;
    Agg(t.ts, t.value,
        if moved then t.fix else if p.Some? then p.value.fix else NO_FIX,
        if moved then t.fixTs else if p.Some? then p.value.fixTs else 0,
        (if p.Some? then p.value.count else 0) + t.count,
        if p.Some? && p.value.firstSeen < t.firstSeen then p.value.firstSeen else t.firstSeen,
        t.lastSeen)
  }

  function Lookup<K, V>(m: map<K, V>, k: K): Option<V> {
    if k in m then Some(m[k]) else None
  }

  lemma SameLookups<K, V>(m: map<K, V>, n: map<K, V>)
    requires forall k :: Lookup(m, k) == Lookup(n, k)
    ensures m == n
  {
    forall k ensures k in m <==> k in n {
      assert Lookup(m, k) == Lookup(n, k);
    }
    forall k | k in m ensures m[k] == n[k] {
      assert Lookup(m, k) == Lookup(n, k);
    }
  }

  function Merge(stored: map<Key, Agg>, tail: map<Key, Agg>): map<Key, Agg> {
    map k | k in stored.Keys + tail.Keys ::
      if k in tail then MergeAgg(Lookup(stored, k), tail[k]) else stored[k]
  }

  // ----- what the recompute is made of

  /** Some row of `rows` has this key and timestamp. */
  ghost predicate Stamped(rows: set<Row>, k: Key, ts: int) {
    exists r :: r in rows && r.key == k && r.ts == ts
  }

  ghost predicate OnePerTimestamp(rows: set<Row>) {
    forall r, q :: r in rows && q in rows && r.key == q.key && r.ts == q.ts ==> r == q
  }

  lemma DedupKeepsRow(rows: set<Row>, r: Row)
    requires r in rows
    ensures Stamped(Dedup(rows), r.key, r.ts)
    decreases r.ceid
  {
    if q :| q in rows && q.key == r.key && q.ts == r.ts && q.ceid < r.ceid {
      DedupKeepsRow(rows, q);
    } else {
      assert r in Dedup(rows);
    }
  }

  /** Deduplication keeps exactly one row per key and timestamp. */
  lemma DedupKeeps(rows: set<Row>)
    requires Coherent(rows)
    ensures OnePerTimestamp(Dedup(rows))
    ensures forall k, ts :: Stamped(rows, k, ts) <==> Stamped(Dedup(rows), k, ts)
  {
    forall k, ts ensures Stamped(rows, k, ts) <==> Stamped(Dedup(rows), k, ts) {
      if Stamped(rows, k, ts) {
        var r :| r in rows && r.key == k && r.ts == ts;
        DedupKeepsRow(rows, r);
      }
    }
  }

  lemma DedupIsLocal(a: set<Row>, b: set<Row>, k: Key)
    requires Group(a, k) == Group(b, k)
    ensures Group(Dedup(a), k) <= Group(Dedup(b), k)
  {
    forall r | r in Group(Dedup(a), k) ensures r in Dedup(b) {
      assert r in Group(b, k);
      forall q | q in b && q.key == r.key && q.ts == r.ts ensures r.ceid <= q.ceid {
        assert q in Group(a, k);
      }
    }
  }

  /** The recompute of one key reads that key's rows and no others. */
  lemma SelectIsLocal(a: set<Row>, b: set<Row>, k: Key)
    requires Group(a, k) == Group(b, k)
    ensures Lookup(RollupSelect(a), k) == Lookup(RollupSelect(b), k)
  {
    DedupIsLocal(a, b, k);
    DedupIsLocal(b, a, k);
    assert Group(Dedup(a), k) == Group(Dedup(b), k);
  }

  /** The recompute has a row for a key exactly when the base does. */
  lemma SelectKeys(rows: set<Row>, k: Key)
    ensures k in RollupSelect(rows) <==> Group(rows, k) != {}
  {
    if r :| r in Group(rows, k) {
      DedupKeepsRow(rows, r);
      var m :| m in Dedup(rows) && m.key == r.key && m.ts == r.ts;
      assert m in Group(Dedup(rows), k);
    }
    if r :| r in Group(Dedup(rows), k) {
      assert r in Group(rows, k);
    }
  }

  // ----- what a stored row says about the base rows

  /** Of the rows with its key and timestamp, the row has the least cloud_event_id. */
  ghost predicate Leads(rows: set<Row>, r: Row) {
    r in rows && forall q :: q in rows && q.key == r.key && q.ts == r.ts ==> r.ceid <= q.ceid
  }

  /** Time and value are those of the newest leading row. */
  ghost predicate SaysNewest(a: Agg, rows: set<Row>, k: Key) {
    && (exists r :: Leads(rows, r) && r.key == k && a.ts == a.lastSeen == r.ts && a.value == r.value)
    && forall q :: q in rows && q.key == k ==> q.ts <= a.ts
  }

  /** First seen is the least timestamp, and the count is the number of distinct timestamps. */
  ghost predicate SaysSpan(a: Agg, rows: set<Row>, k: Key) {
    && (exists r :: r in rows && r.key == k && r.ts == a.firstSeen)
    && (forall q :: q in rows && q.key == k ==> a.firstSeen <= q.ts)
    && a.count == |set r | r in rows && r.key == k :: r.ts|
  }

  /** The fix is that of the newest leading row that has one, or none. */
  ghost predicate SaysFix(a: Agg, rows: set<Row>, k: Key) {
    if exists r :: Leads(rows, r) && r.key == k && r.fix.Nonzero() then
      && (exists r :: Leads(rows, r) && r.key == k && r.fix.Nonzero() && a.fix == r.fix && a.fixTs == r.ts)
      && forall q :: Leads(rows, q) && q.key == k && q.fix.Nonzero() ==> q.ts <= a.fixTs
    else
      a.fix == NO_FIX && a.fixTs == 0
  }

  /** The row is a summary of the key's base rows, in every column. */
  ghost predicate Summarizes(a: Agg, rows: set<Row>, k: Key) {
    SaysNewest(a, rows, k) && SaysSpan(a, rows, k) && SaysFix(a, rows, k)
  }

  lemma LeadsIsDedup(rows: set<Row>, r: Row)
    ensures Leads(rows, r) <==> r in Dedup(rows)
  {
  }

  lemma SelectSaysNewest(rows: set<Row>, k: Key)
    requires k in RollupSelect(rows)
    ensures SaysNewest(RollupSelect(rows)[k], rows, k)
  {
    var g := Group(Dedup(rows), k);
    LeadsIsDedup(rows, Newest(g));
    forall q | q in rows && q.key == k ensures q.ts <= Newest(g).ts {
      DedupKeepsRow(rows, q);
      var m :| m in Dedup(rows) && m.key == k && m.ts == q.ts;
      assert m in g;
    }
  }

  lemma {:induction false} CountTimestamps(g: set<Row>)
    requires forall r, q :: r in g && q in g && r.ts == q.ts ==> r == q
    ensures |set r | r in g :: r.ts| == |g|
    decreases |g|
  {
    if r :| r in g {
      CountTimestamps(g - {r});
      assert (set q | q in g :: q.ts) == (set q | q in g - {r} :: q.ts) + {r.ts};
    } else {
      assert g == {};
    }
  }

  lemma SameTimestamps(rows: set<Row>, k: Key)
    ensures (set r | r in rows && r.key == k :: r.ts) == (set r | r in Group(Dedup(rows), k) :: r.ts)
  {
    forall q | q in rows && q.key == k ensures q.ts in (set r | r in Group(Dedup(rows), k) :: r.ts) {
      DedupKeepsRow(rows, q);
      var m :| m in Dedup(rows) && m.key == k && m.ts == q.ts;
      assert m in Group(Dedup(rows), k);
    }
  }

  lemma SelectSaysSpan(rows: set<Row>, k: Key)
    requires Coherent(rows) && k in RollupSelect(rows)
    ensures SaysSpan(RollupSelect(rows)[k], rows, k)
  {
    var g, a := Group(Dedup(rows), k), RollupSelect(rows)[k];
    SameTimestamps(rows, k);
    assert a.count == |set r | r in rows && r.key == k :: r.ts| by {
      DedupKeeps(rows);
      CountTimestamps(g);
    }
    OldestOfAll(rows, k);
  }

  lemma OldestOfAll(rows: set<Row>, k: Key)
    requires Group(Dedup(rows), k) != {}
    ensures
      var first := Oldest(Group(Dedup(rows), k));
      first in rows && first.key == k && forall q :: q in rows && q.key == k ==> first.ts <= q.ts
  {
    var g := Group(Dedup(rows), k);
    forall q | q in rows && q.key == k ensures Oldest(g).ts <= q.ts {
      DedupKeepsRow(rows, q);
      var m :| m in Dedup(rows) && m.key == k && m.ts == q.ts;
      assert m in g;
    }
  }

  lemma SelectSaysFix(rows: set<Row>, k: Key)
    requires k in RollupSelect(rows)
    ensures SaysFix(RollupSelect(rows)[k], rows, k)
  {
    var f := Fixes(Group(Dedup(rows), k));
    forall r ensures r in f <==> Leads(rows, r) && r.key == k && r.fix.Nonzero() {
      LeadsIsDedup(rows, r);
    }
    if f != {} {
      assert Newest(f) in f;
    }
  }

  /** The recompute of a key summarizes its base rows. */
  lemma SelectSummarizes(rows: set<Row>, k: Key)
    requires Coherent(rows) && k in RollupSelect(rows)
    ensures Summarizes(RollupSelect(rows)[k], rows, k)
  {
    SelectSaysNewest(rows, k);
    SelectSaysSpan(rows, k);
    SelectSaysFix(rows, k);
  }

  /** And nothing else does: the summary of coherent rows is unique. */
  lemma SummaryIsUnique(a: Agg, b: Agg, rows: set<Row>, k: Key)
    requires Coherent(rows) && Summarizes(a, rows, k) && Summarizes(b, rows, k)
    ensures a == b
  {
    var r :| Leads(rows, r) && r.key == k && a.ts == r.ts && a.value == r.value;
    var q :| Leads(rows, q) && q.key == k && b.ts == q.ts && b.value == q.value;
    assert r.ts == q.ts;
    if exists x :: Leads(rows, x) && x.key == k && x.fix.Nonzero() {
      var x :| Leads(rows, x) && x.key == k && x.fix.Nonzero() && a.fix == x.fix && a.fixTs == x.ts;
      var y :| Leads(rows, y) && y.key == k && y.fix.Nonzero() && b.fix == y.fix && b.fixTs == y.ts;
      assert x.ts == y.ts;
    }
  }

  // ----- the fold is a homomorphism

  /** `w` separates the rows of `a` from those of `b`. */
  ghost predicate Separates(w: int, a: set<Row>, b: set<Row>) {
    && (forall r :: r in a ==> r.ts < w)
    && (forall r :: r in b ==> w <= r.ts)
  }

  lemma DedupSplits(a: set<Row>, b: set<Row>, w: int)
    requires Separates(w, a, b)
    ensures Dedup(a + b) == Dedup(a) + Dedup(b)
  {
  }

  lemma NewestSplits(a: set<Row>, b: set<Row>, w: int)
    requires Separates(w, a, b) && b != {}
    requires forall r, q :: r in b && q in b && r.ts == q.ts ==> r == q
    ensures Newest(a + b) == Newest(b)
  {
    assert IsNewest(b, Newest(a + b));
  }

  /** The fold's test `loc_ts > epoch` recognises the newest fix of a tail group, if there is one. */
  ghost predicate SeesFix(g: set<Row>) {
    Fixes(g) != {} ==> 0 < Newest(Fixes(g)).ts
  }

  /** Every column but the fix merges, whatever the boundary. */
  lemma ColumnsSplit(a: set<Row>, b: set<Row>, w: int)
    requires b != {} && Separates(w, a, b)
    requires forall r, q :: r in a + b && q in a + b && r.ts == q.ts ==> r == q
    ensures
      var all, merged := Aggregate(a + b), MergeAgg(AggregateOf(a), Aggregate(b));
      all.(fix := merged.fix, fixTs := merged.fixTs) == merged
  {
    NewestSplits(a, b, w);
    if a != {} {
      SpanSplits(a, b, w);
    } else {
      assert a + b == b;
    }
  }

  /** Merging two aggregates of one key is aggregating all its rows exactly when the tail's fix is seen. */
  lemma AggregateSplitsIff(a: set<Row>, b: set<Row>, w: int)
    requires b != {} && Separates(w, a, b)
    requires forall r, q :: r in a + b && q in a + b && r.ts == q.ts ==> r == q
    ensures Aggregate(a + b) == MergeAgg(AggregateOf(a), Aggregate(b)) <==> SeesFix(b)
  {
    ColumnsSplit(a, b, w);
    FixSplits(a, b, w);
    assert Fixes(a) != {} ==> Newest(Fixes(a)).ts < w;
    assert a == {} ==> Fixes(a) == {};
  }

  lemma SpanSplits(a: set<Row>, b: set<Row>, w: int)
    requires a != {} && Separates(w, a, b)
    ensures Oldest(a + b).ts == Oldest(a).ts && |a + b| == |a| + |b|
    ensures b != {} ==> Oldest(a).ts < Oldest(b).ts
  {
    assert IsOldest(a, Oldest(a + b));
    assert a !! b;
  }

  lemma FixSplits(a: set<Row>, b: set<Row>, w: int)
    requires Separates(w, a, b)
    requires forall r, q :: r in a + b && q in a + b && r.ts == q.ts ==> r == q
    ensures Fixes(b) != {} ==>
        Fixes(a + b) != {} && Newest(Fixes(a + b)) == Newest(Fixes(b)) && w <= Newest(Fixes(b)).ts
    ensures Fixes(b) == {} ==> Fixes(a + b) == Fixes(a)
  {
    assert Fixes(a + b) == Fixes(a) + Fixes(b);
    if Fixes(b) != {} {
      NewestSplits(Fixes(a), Fixes(b), w);
    } else {
      assert Fixes(a + b) == Fixes(a);
    }
  }

  /** The recompute of one key in terms of its deduplicated group. */
  ghost function AggregateOf(g: set<Row>): Option<Agg> {
    if g == {} then None else Some(Aggregate(g))
  }

  lemma SelectAt(rows: set<Row>, k: Key)
    ensures Lookup(RollupSelect(rows), k) == AggregateOf(Group(Dedup(rows), k))
  {
  }

  function MergeAt(p: Option<Agg>, t: Option<Agg>): Option<Agg> {
    if t.Some? then Some(MergeAgg(p, t.value)) else p
  }

  lemma MergeLookup(stored: map<Key, Agg>, tail: map<Key, Agg>, k: Key)
    ensures Lookup(Merge(stored, tail), k) == MergeAt(Lookup(stored, k), Lookup(tail, k))
  {
  }

  lemma GroupSplits(a: set<Row>, b: set<Row>, w: int, k: Key)
    requires Coherent(a + b) && Separates(w, a, b)
    ensures Group(Dedup(a + b), k) == Group(Dedup(a), k) + Group(Dedup(b), k)
    ensures Separates(w, Group(Dedup(a), k), Group(Dedup(b), k))
    ensures var g := Group(Dedup(a + b), k); forall r, q :: r in g && q in g && r.ts == q.ts ==> r == q
  {
    DedupSplits(a, b, w);
    DedupKeeps(a + b);
  }

  /**
   For every boundary: folding a tail onto the stored rollup equals recomputing
   everything, in every column of a key, if and only if the newest fix the tail keeps
   for that key lies after the epoch, or it keeps none.
   */
  lemma FoldIsRecomputeIff(a: set<Row>, b: set<Row>, w: int, k: Key)
    requires Coherent(a + b) && Separates(w, a, b)
    ensures
      Lookup(RollupSelect(a + b), k) == Lookup(Merge(RollupSelect(a), RollupSelect(b)), k) <==>
      SeesFix(Group(Dedup(b), k))
  {
    var ga, gb := Group(Dedup(a), k), Group(Dedup(b), k);
    assert AggregateOf(ga + gb) == MergeAt(AggregateOf(ga), AggregateOf(gb)) <==> SeesFix(gb) by {
      GroupSplits(a, b, w, k);
      if gb != {} {
        AggregateSplitsIff(ga, gb, w);
      } else {
        assert ga + gb == ga;
      }
    }
    assert Group(Dedup(a + b), k) == ga + gb by { GroupSplits(a, b, w, k); }
    SelectAt(a, k);
    SelectAt(b, k);
    SelectAt(a + b, k);
    MergeLookup(RollupSelect(a), RollupSelect(b), k);
  }

  lemma FoldHomomorphismAt(a: set<Row>, b: set<Row>, w: int, k: Key)
    requires Coherent(a + b) && 0 < w && Separates(w, a, b)
    ensures Lookup(RollupSelect(a + b), k) == Lookup(Merge(RollupSelect(a), RollupSelect(b)), k)
  {
    var fixes := Fixes(Group(Dedup(b), k));
    assert fixes != {} ==> Newest(fixes) in b;
    FoldIsRecomputeIff(a, b, w, k);
  }

  /** Hence a boundary after the epoch is enough for all keys and all rows. */
  lemma FoldHomomorphism(a: set<Row>, b: set<Row>, w: int)
    requires Coherent(a + b) && 0 < w && Separates(w, a, b)
    ensures RollupSelect(a + b) == Merge(RollupSelect(a), RollupSelect(b))
  {
    forall k ensures Lookup(RollupSelect(a + b), k) == Lookup(Merge(RollupSelect(a), RollupSelect(b)), k) {
      FoldHomomorphismAt(a, b, w, k);
    }
    SameLookups(RollupSelect(a + b), Merge(RollupSelect(a), RollupSelect(b)));
  }

  /** And no other boundary is: one fix stamped at a boundary at or before the epoch is lost. */
  lemma EarlyBoundaryLosesFix(w: int, k: Key, fix: Fix)
    requires w <= 0 && fix.Nonzero()
    ensures
      var b := {Row(k, w, 1, Value(0.0, ""), fix)};
      && Coherent({} + b) && Separates(w, {}, b)
      && RollupSelect({} + b) != Merge(RollupSelect({}), RollupSelect(b))
  {
    var r := Row(k, w, 1, Value(0.0, ""), fix);
    assert Dedup({r}) == {r} && Group({r}, k) == {r} && Fixes({r}) == {r};
    FoldIsRecomputeIff({}, {r}, w, k);
  }
}
