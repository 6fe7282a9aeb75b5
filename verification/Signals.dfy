/**
 The decoded signal rows every other module works on, and the recency order
 shared by the rollup and the latest-value cache.

 Timestamps are integer microseconds with 0 the Unix epoch. A `cloud_event_id`
 is represented by its rank in byte order, 0 standing for the empty identifier.
 */
module Signals {

  datatype Option<+T> = None | Some(value: T)

  function Min(a: int, b: int): int { if a < b then a else b }

  function Max(a: int, b: int): int { if a < b then b else a }

  /** Go's zero time.Time, in microseconds. */
  const ZERO_TIME: int := -62_135_596_800_000_000

  datatype Value = Value(num: real, str: string)

  datatype Fix = Fix(lat: real, lon: real, hdop: real, heading: real) {
    predicate Nonzero() { lat != 0.0 || lon != 0.0 }
  }

  const NO_FIX: Fix := Fix(0.0, 0.0, 0.0, 0.0)

  /** Readings are grouped per subject and signal name. */
  datatype Key = Key(subject: string, name: string)

  datatype Row = Row(key: Key, ts: int, ceid: nat, value: Value, fix: Fix)

  /** ORDER BY timestamp DESC, cloud_event_id ASC: does the first tag come strictly before the second? */
  predicate NewerThan(ts: int, ceid: nat, oldTs: int, oldCeid: nat) {
    ts > oldTs || (ts == oldTs && ceid < oldCeid)
  }

  /** Rows with the same key, timestamp and cloud_event_id carry the same reading. */
  ghost predicate Coherent(rows: set<Row>) {
    forall r, q :: r in rows && q in rows && r.key == q.key && r.ts == q.ts && r.ceid == q.ceid ==> r == q
  }

  ghost function Group(rows: set<Row>, k: Key): set<Row> {
    set r | r in rows && r.key == k
  }

  ghost function Before(rows: set<Row>, w: int): set<Row> {
    set r | r in rows && r.ts < w
  }

  ghost function Subjects(rows: set<Row>): set<string> {
    set r | r in rows :: r.key.subject
  }

  /** `r` is a newest, an oldest or a winning row of `s`. */
  ghost predicate IsNewest(s: set<Row>, r: Row) {
    r in s && forall q :: q in s ==> q.ts <= r.ts
  }

  ghost predicate IsOldest(s: set<Row>, r: Row) {
    r in s && forall q :: q in s ==> r.ts <= q.ts
  }

  ghost predicate IsWinner(s: set<Row>, r: Row) {
    r in s && forall q :: q in s ==> !NewerThan(q.ts, q.ceid, r.ts, r.ceid)
  }

  lemma NewestExists(s: set<Row>)
    requires s != {}
    ensures exists r :: IsNewest(s, r)
  {
    var r :| r in s;
    if q :| q in s && r.ts < q.ts {
      assert q in s - {r};
      NewestExists(s - {r});
      var y :| IsNewest(s - {r}, y);
      assert IsNewest(s, y);
    } else {
      assert IsNewest(s, r);
    }
  }

  lemma OldestExists(s: set<Row>)
    requires s != {}
    ensures exists r :: IsOldest(s, r)
  {
    var r :| r in s;
    if q :| q in s && q.ts < r.ts {
      assert q in s - {r};
      OldestExists(s - {r});
      var y :| IsOldest(s - {r}, y);
      assert IsOldest(s, y);
    } else {
      assert IsOldest(s, r);
    }
  }

  lemma WinnerExists(s: set<Row>)
    requires s != {}
    ensures exists r :: IsWinner(s, r)
  {
    var r :| r in s;
    if q :| q in s && NewerThan(q.ts, q.ceid, r.ts, r.ceid) {
      assert q in s - {r};
      WinnerExists(s - {r});
      var y :| IsWinner(s - {r}, y);
      assert IsWinner(s, y);
    } else {
      assert IsWinner(s, r);
    }
  }

  ghost function Newest(s: set<Row>): (r: Row)
    requires s != {}
    ensures IsNewest(s, r)
  {
    NewestExists(s);
    var r :| IsNewest(s, r);
    r
  }

  ghost function Oldest(s: set<Row>): (r: Row)
    requires s != {}
    ensures IsOldest(s, r)
  {
    OldestExists(s);
    var r :| IsOldest(s, r);
    r
  }

  /** The row that comes first in the recency order. */
  ghost function Winner(s: set<Row>): (r: Row)
    requires s != {}
    ensures IsWinner(s, r)
  {
    WinnerExists(s);
    var r :| IsWinner(s, r);
    r
  }
}
