/**
 `mergeFromRollup`: fold every rollup row and the tail since the watermark into
 the bucket.
 */
module Reconcile {
  import opened Signals
  import opened Rollup
  import opened RollupCatalog
  import opened LatestEntry
  import opened CacheAgreement

  /** One scanned row, in the shape both queries deliver it. */
  datatype Reading = Reading(subject: string, name: string, sv: SignalValue)

  type Bucket = map<string, SignalMap>

  function EntryAt(b: Bucket, s: string): SignalMap {
    if s in b then b[s] else map[]
  }

  /** The `pending` map of one subject after a scan: the last reading of each name. */
  function PendingOf(rows: seq<Reading>, s: string): SignalMap {
    if rows == [] then map[]
    else
      var m, r := PendingOf(rows[..|rows| - 1], s), rows[|rows| - 1];
      if r.subject == s then m[r.name := r.sv] else m
  }

  predicate Scanned(rows: seq<Reading>, s: string) {
    exists i :: 0 <= i < |rows| && rows[i].subject == s
  }

  /** ORDER BY subject: the rows of a subject are consecutive. */
  predicate Grouped(rows: seq<Reading>) {
    forall i, j, k :: 0 <= i < j < k < |rows| && rows[i].subject == rows[k].subject ==>
        rows[j].subject == rows[i].subject
  }

  function MergedEntry(was: Bucket, rows: seq<Reading>, s: string): Option<SignalMap> {
    if Scanned(rows, s) then Some(Join(EntryAt(was, s), PendingOf(rows, s))) else Lookup(was, s)
  }

  /** Every scanned subject has its readings joined in; every other entry is as before. */
  ghost predicate Merged(was: Bucket, now: Bucket, rows: seq<Reading>) {
    forall s :: Lookup(now, s) == MergedEntry(was, rows, s)
  }

  lemma {:induction false} PendingIsEmptyIff(rows: seq<Reading>, s: string)
    ensures PendingOf(rows, s) == map[] <==> !Scanned(rows, s)
  {
    if rows != [] {
      var front := rows[..|rows| - 1];
      PendingIsEmptyIff(front, s);
      if rows[|rows| - 1].subject == s {
        assert rows[|rows| - 1].name in PendingOf(rows, s);
        assert Scanned(rows, s);
      } else if Scanned(rows, s) {
        var i :| 0 <= i < |rows| && rows[i].subject == s;
        assert front[i].subject == s;
      }
    }
  }

  lemma ScannedStep(rows: seq<Reading>, i: nat, s: string)
    requires i < |rows|
    ensures Scanned(rows[..i + 1], s) <==> Scanned(rows[..i], s) || rows[i].subject == s
    ensures PendingOf(rows[..i + 1], s) ==
            var m := PendingOf(rows[..i], s); if rows[i].subject == s then m[rows[i].name := rows[i].sv] else m
  {
    assert rows[..i + 1][..i] == rows[..i];
    if Scanned(rows[..i], s) {
      var j :| 0 <= j < i && rows[..i][j].subject == s;
      assert rows[..i + 1][j].subject == s;
    }
    if rows[i].subject == s {
      assert rows[..i + 1][i].subject == s;
    }
  }

  ghost function SubjectsOf(rows: seq<Reading>): set<string> {
    set i | 0 <= i < |rows| :: rows[i].subject
  }

  lemma CountStep(rows: seq<Reading>, i: nat)
    requires i < |rows|
    ensures |SubjectsOf(rows[..i + 1])| - |SubjectsOf(rows[..i])| == if Scanned(rows[..i], rows[i].subject) then 0
        else 1
  {
    var s := rows[i].subject;
    assert rows[..i + 1] == rows[..i] + [rows[i]];
    assert SubjectsOf(rows[..i + 1]) == SubjectsOf(rows[..i]) + {s};
    assert s in SubjectsOf(rows[..i]) <==> Scanned(rows[..i], s);
  }

  /** Everything but the subject in hand has been merged. */
  ghost predicate MergedExcept(was: Bucket, now: Bucket, rows: seq<Reading>, cur: string) {
    forall s :: Lookup(now, s) ==
      if Scanned(rows, s) && s != cur then Some(Join(EntryAt(was, s), PendingOf(rows, s))) else Lookup(was, s)
  }

  /** Write the subject in hand, unless nothing is pending for it. */
  method Flush(now: Bucket, cur: string, pending: SignalMap, calm: bool, ghost was: Bucket, ghost rows: seq<Reading>,
      ghost i: nat)
    returns (ok: bool, out: Bucket)
    requires i <= |rows| && pending == PendingOf(rows[..i], cur) && MergedExcept(was, now, rows[..i], cur)
    ensures ok ==> Merged(was, out, rows[..i])
    ensures !ok ==> out == now
    ensures calm ==> ok
  {
    ok, out := true, now;
    if pending != map[] {
      ok := *;
      ok := ok || calm;
      if !ok {
        return;
      }
      out := now[cur := Join(EntryAt(now, cur), pending)];
      assert Lookup(now, cur) == Lookup(was, cur);
    }
    FlushMerges(was, out, rows, i, cur);
  }

  /**
   One scan with its `pending` map: flush when the subject changes and at the end.
   A failed write ends the pass; what was merged before stays.
   */
  method MergeScan(rows: seq<Reading>, bucket: Bucket, calm: bool) returns (ok: bool, out: Bucket, subjects: nat)
    requires Grouped(rows)
    ensures ok ==> Merged(bucket, out, rows) && subjects == |SubjectsOf(rows)|
    ensures exists n :: 0 <= n <= |rows| && Merged(bucket, out, rows[..n])
    ensures calm ==> ok
  {
    out, subjects := bucket, 0;
    var curSubject, pending: SignalMap := "", map[];
    ghost var flushed := 0;
    for i := 0 to |rows|
      invariant pending == PendingOf(rows[..i], curSubject)
      invariant 0 < i ==> curSubject == rows[i - 1].subject
      invariant MergedExcept(bucket, out, rows[..i], curSubject)
      invariant 0 <= flushed <= i && Merged(bucket, out, rows[..flushed])
      invariant |SubjectsOf(rows[..i])| == subjects + if pending == map[] then 0 else 1
    {
      if rows[i].subject != curSubject {
        ok, out := Flush(out, curSubject, pending, calm, bucket, rows, i);
        if !ok {
          return;
        }
        flushed := i;
        subjects := subjects + if pending == map[] then 0 else 1;
        NotSeenBefore(rows, i);
        PendingIsEmptyIff(rows[..i], rows[i].subject);
        curSubject, pending := rows[i].subject, map[];
      }
      MergeStep(bucket, out, rows, i);
      CountStep(rows, i);
      PendingIsEmptyIff(rows[..i], rows[i].subject);
      pending := pending[rows[i].name := rows[i].sv];
      assert rows[i].name in pending;
    }
    assert rows[..|rows|] == rows;
    ok, out := Flush(out, curSubject, pending, calm, bucket, rows, |rows|);
    subjects := subjects + if pending == map[] then 0 else 1;
  }

  /** After the flush of `cur` nothing is outstanding. */
  lemma FlushMerges(was: Bucket, now: Bucket, rows: seq<Reading>, i: nat, cur: string)
    requires i <= |rows|
    requires
      var pending := PendingOf(rows[..i], cur);
      forall s :: Lookup(now, s) ==
        if s == cur && pending != map[] then Some(Join(EntryAt(was, s), pending))
        else if s != cur then MergedEntry(was, rows[..i], s) else Lookup(was, s)
    ensures Merged(was, now, rows[..i])
  {
    PendingIsEmptyIff(rows[..i], cur);
  }

  lemma NotSeenBefore(rows: seq<Reading>, i: nat)
    requires Grouped(rows) && i < |rows| && (0 < i ==> rows[i - 1].subject != rows[i].subject)
    ensures !Scanned(rows[..i], rows[i].subject)
  {
    forall j | 0 <= j < i ensures rows[..i][j].subject != rows[i].subject {
    }
  }

  /** Scanning one more row of the subject in hand leaves the bucket's account unchanged. */
  lemma MergeStep(was: Bucket, now: Bucket, rows: seq<Reading>, i: nat)
    requires i < |rows| && MergedExcept(was, now, rows[..i], rows[i].subject)
    ensures MergedExcept(was, now, rows[..i + 1], rows[i].subject)
    ensures PendingOf(rows[..i + 1], rows[i].subject) ==
        PendingOf(rows[..i], rows[i].subject)[rows[i].name := rows[i].sv]
  {
    ScannedStep(rows, i, rows[i].subject);
    forall s ensures Lookup(now, s) == if Scanned(rows[..i + 1], s) && s != rows[i].subject
                                       then Some(Join(EntryAt(was, s), PendingOf(rows[..i + 1], s))) else Lookup(was, s)
    {
      ScannedStep(rows, i, s);
    }
  }

  // ----- which subjects of the lake the pass visits

  /** The rollup scan visits the subject. */
  ghost predicate Stored(c: Catalog, s: string) {
    exists k :: k in c.table && RowsAt(c.table, k) != [] && k.subject == s
  }

  /** The tail query visits the subject; without a watermark there is no tail. */
  ghost predicate InTail(c: Catalog, s: string) {
    c.mark.Some? && exists r :: r in c.base && r.key.subject == s && c.mark.value <= r.ts
  }

  /** A rollup row as the scan shapes it; it carries no cloud_event_id. */
  function RollupReading(a: Agg): SignalValue {
    SignalValue(a.ts, 0, a.value, if a.fix.Nonzero() then Some(LocValue(a.fixTs, 0, a.fix)) else None)
  }

  /** What the rollup holds for a key. */
  function StoredReading(c: Catalog, k: Key): Option<SignalValue> {
    if RowsAt(c.table, k) == [] then None else Some(RollupReading(RowsAt(c.table, k)[0]))
  }

  /** The tail query's answer for a key: the winners of its rows at or after the watermark. */
  ghost function TailReading(c: Catalog, k: Key): Option<SignalValue> {
    if c.mark.None? then None
    else
      var g := Group(c.base - Before(c.base, c.mark.value), k);
      if g == {} then None else Some(TailSelect(g))
  }

  predicate At(r: Reading, k: Key) {
    r.subject == k.subject && r.name == k.name
  }

  predicate KeyScanned(rows: seq<Reading>, k: Key) {
    exists i :: 0 <= i < |rows| && At(rows[i], k)
  }

  /** `rows` is a result of `SELECT ... FROM lake.signals_latest ORDER BY subject`. */
  ghost predicate IsRollupScan(rows: seq<Reading>, c: Catalog) {
    && Grouped(rows)
    && (forall k :: KeyScanned(rows, k) <==> RowsAt(c.table, k) != [])
    && forall i, k :: 0 <= i < |rows| && At(rows[i], k) ==>
        exists a :: a in RowsAt(c.table, k) && rows[i].sv == RollupReading(a)
  }

  /** `rows` is a result of the tail query. */
  ghost predicate IsTailScan(rows: seq<Reading>, c: Catalog) {
    && Grouped(rows)
    && (forall k :: KeyScanned(rows, k) <==> TailReading(c, k).Some?)
    && forall i, k :: 0 <= i < |rows| && At(rows[i], k) ==> Some(rows[i].sv) == TailReading(c, k)
  }

  /** What ends up pending for a key is one of its scanned readings. */
  lemma {:induction false} PendingAt(rows: seq<Reading>, k: Key)
    ensures k.name in PendingOf(rows, k.subject) <==> KeyScanned(rows, k)
    ensures k.name in PendingOf(rows, k.subject) ==>
              exists i :: 0 <= i < |rows| && At(rows[i], k) && rows[i].sv == PendingOf(rows, k.subject)[k.name]
  {
    if rows != [] {
      var n := |rows| - 1;
      var front := rows[..n];
      PendingAt(front, k);
      if At(rows[n], k) {
        assert PendingOf(rows, k.subject)[k.name] == rows[n].sv;
      } else if KeyScanned(rows, k) {
        var i :| 0 <= i < |rows| && At(rows[i], k);
        assert At(front[i], k);
        var j :| 0 <= j < |front| && At(front[j], k) && front[j].sv == PendingOf(front, k.subject)[k.name];
        assert At(rows[j], k) && rows[j].sv == PendingOf(rows, k.subject)[k.name];
      }
    }
  }

  lemma RollupPending(rows: seq<Reading>, c: Catalog, k: Key)
    requires IsRollupScan(rows, c) && OneRowPerKey(c.table)
    ensures Lookup(PendingOf(rows, k.subject), k.name) == StoredReading(c, k)
  {
    PendingAt(rows, k);
    assert |RowsAt(c.table, k)| <= 1;
    if KeyScanned(rows, k) {
      var i :| 0 <= i < |rows| && At(rows[i], k) && rows[i].sv == PendingOf(rows, k.subject)[k.name];
      var a :| a in RowsAt(c.table, k) && rows[i].sv == RollupReading(a);
    }
  }

  lemma TailPending(rows: seq<Reading>, c: Catalog, k: Key)
    requires IsTailScan(rows, c)
    ensures Lookup(PendingOf(rows, k.subject), k.name) == TailReading(c, k)
  {
    PendingAt(rows, k);
  }

  lemma KeyOfScanned(rows: seq<Reading>, s: string)
    ensures Scanned(rows, s) <==> exists k: Key :: k.subject == s && KeyScanned(rows, k)
  {
    if Scanned(rows, s) {
      var i :| 0 <= i < |rows| && rows[i].subject == s;
      assert At(rows[i], Key(s, rows[i].name));
      assert KeyScanned(rows, Key(s, rows[i].name));
    }
    if k: Key :| k.subject == s && KeyScanned(rows, k) {
      var i :| 0 <= i < |rows| && At(rows[i], k);
      assert rows[i].subject == s;
    }
  }

  lemma RollupScans(rows: seq<Reading>, c: Catalog, s: string)
    requires IsRollupScan(rows, c)
    ensures Scanned(rows, s) <==> Stored(c, s)
  {
    KeyOfScanned(rows, s);
    if k: Key :| k.subject == s && KeyScanned(rows, k) {
      assert RowsAt(c.table, k) != [] && k in c.table;
    }
  }

  lemma TailScans(rows: seq<Reading>, c: Catalog, s: string)
    requires IsTailScan(rows, c)
    ensures Scanned(rows, s) <==> InTail(c, s)
  {
    KeyOfScanned(rows, s);
    if k: Key :| k.subject == s && KeyScanned(rows, k) {
      assert TailReading(c, k).Some?;
      var r :| r in Group(c.base - Before(c.base, c.mark.value), k);
      assert r in c.base && r.key.subject == s && c.mark.value <= r.ts;
    }
    if InTail(c, s) {
      var r :| r in c.base && r.key.subject == s && c.mark.value <= r.ts;
      assert r in Group(c.base - Before(c.base, c.mark.value), r.key);
      assert TailReading(c, r.key).Some?;
    }
  }

  /** What the bucket serves for a key. */
  function Cached(b: Bucket, k: Key): Option<SignalValue> {
    Lookup(EntryAt(b, k.subject), k.name)
  }

  function PickOpt(cur: Option<SignalValue>, inc: Option<SignalValue>): Option<SignalValue> {
    if inc.None? then cur else if cur.None? then inc else Some(Pick(cur.value, inc.value))
  }

  lemma MergedReading(was: Bucket, now: Bucket, rows: seq<Reading>, k: Key)
    requires Merged(was, now, rows)
    ensures Cached(now, k) == PickOpt(Cached(was, k), Lookup(PendingOf(rows, k.subject), k.name))
  {
    assert Lookup(now, k.subject) == MergedEntry(was, rows, k.subject);
    PendingIsEmptyIff(rows, k.subject);
  }

  /** A pass leaves for a key the fold of what was cached, what the rollup holds and what the tail adds. */
  ghost function Reconciled(c: Catalog, was: Option<SignalValue>, k: Key): Option<SignalValue> {
    PickOpt(PickOpt(was, StoredReading(c, k)), TailReading(c, k))
  }

  lemma PassReading(c: Catalog, stored: seq<Reading>, tail: seq<Reading>, was: Bucket, mid: Bucket, now: Bucket, k: Key)
    requires IsRollupScan(stored, c) && IsTailScan(tail, c) && OneRowPerKey(c.table)
    requires Merged(was, mid, stored) && Merged(mid, now, tail)
    ensures Cached(now, k) == Reconciled(c, Cached(was, k), k)
  {
    MergedReading(was, mid, stored, k);
    MergedReading(mid, now, tail, k);
    RollupPending(stored, c, k);
    TailPending(tail, c, k);
  }

  lemma PassVisits(c: Catalog, stored: seq<Reading>, tail: seq<Reading>, was: Bucket, mid: Bucket, now: Bucket,
      s: string)
    requires IsRollupScan(stored, c) && IsTailScan(tail, c)
    requires Merged(was, mid, stored) && Merged(mid, now, tail)
    ensures s in now <==> s in was || Stored(c, s) || InTail(c, s)
  {
    RollupScans(stored, c, s);
    TailScans(tail, c, s);
    assert Lookup(mid, s) == MergedEntry(was, stored, s);
    assert Lookup(now, s) == MergedEntry(mid, tail, s);
  }

  /** The whole pass: rollup scan, then the tail, both of the same catalog. */
  method MergeFromRollup(ghost c: Catalog, stored: seq<Reading>, tail: seq<Reading>, bucket: Bucket, calm: bool)
    returns (ok: bool, out: Bucket, visited: nat)
    requires IsRollupScan(stored, c) && IsTailScan(tail, c)
    ensures forall s :: s in bucket ==> s in out && Below(bucket[s], out[s])
    ensures ok ==> forall s :: s in out <==> s in bucket || Stored(c, s) || InTail(c, s)
    ensures calm ==> ok
    ensures ok ==> visited == |SubjectsOf(stored)| + |SubjectsOf(tail)|
    ensures ok && OneRowPerKey(c.table) ==> forall k :: Cached(out, k) == Reconciled(c, Cached(bucket, k), k)
  {
    var n;
    ok, out, n := MergeScan(stored, bucket, calm);
    ScanAdvances(bucket, out, stored);
    visited := n;
    if ok {
      var mid := out;
      ok, out, n := MergeScan(tail, mid, calm);
      ScanAdvances(mid, out, tail);
      visited := visited + n;
      forall s | s in bucket ensures s in out && Below(bucket[s], out[s]) {
        BelowTransitive(bucket[s], mid[s], out[s]);
      }
      if ok {
        forall s ensures s in out <==> s in bucket || Stored(c, s) || InTail(c, s) {
          PassVisits(c, stored, tail, bucket, mid, out, s);
        }
        forall k | OneRowPerKey(c.table) ensures Cached(out, k) == Reconciled(c, Cached(bucket, k), k) {
          PassReading(c, stored, tail, bucket, mid, out, k);
        }
      }
    }
  }

  lemma ScanAdvances(was: Bucket, now: Bucket, rows: seq<Reading>)
    requires exists n :: 0 <= n <= |rows| && Merged(was, now, rows[..n])
    ensures forall s :: s in was ==> s in now && Below(was[s], now[s])
  {
    var n :| 0 <= n <= |rows| && Merged(was, now, rows[..n]);
    forall s | s in was ensures s in now && Below(was[s], now[s]) {
      assert Lookup(now, s) == MergedEntry(was, rows[..n], s);
      JoinIsUpperBound(was[s], PendingOf(rows[..n], s));
    }
  }
}
