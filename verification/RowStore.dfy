/**
 The idempotent insert of decoded rows: an anti-join on the row's identity whose
 probe reaches back no further than a floor.
 */
module RowStore {
  import opened Signals

  /** (subject_bucket, cloud_event_id, name, timestamp). */
  datatype Identity = Identity(bucket: nat, ceid: nat, name: string, ts: int)

  /** The decoded table at rest, by identity, with duplicates if there are any. */
  type Rows = multiset<Identity>

  function MinTs(batch: seq<Identity>): int
    requires batch != []
  {
    if |batch| == 1 then batch[0].ts
    else var m := MinTs(batch[1..]); if batch[0].ts < m then batch[0].ts else m
  }

  function MaxTs(batch: seq<Identity>): int
    requires batch != []
  {
    if |batch| == 1 then batch[0].ts
    else var m := MaxTs(batch[1..]); if m < batch[0].ts then batch[0].ts else m
  }

  /** clampProbeFloor: the probe window of a batch; `floor` is thirty days before now. */
  function ProbeWindow(batch: seq<Identity>, floor: int): (w: (int, int))
    requires batch != []
  {
    var lo, hi := MinTs(batch), MaxTs(batch);
    if lo == ZERO_TIME then (lo, hi)
    else
      var lo' := if lo < floor then floor else lo;
      (lo', if hi < lo' then lo' else hi)
  }

  /** The rows of a batch without a twin at rest inside the probe window. */
  function Unmatched(rows: Rows, batch: seq<Identity>, lo: int, hi: int): seq<Identity> {
    if batch == [] then []
    else
      var r := batch[|batch| - 1];
      Unmatched(rows, batch[..|batch| - 1], lo, hi) + if r in rows && lo <= r.ts <= hi then [] else [r]
  }

  /** INSERT ... WHERE NOT EXISTS; an empty batch inserts nothing. */
  function AntiJoinInsert(rows: Rows, batch: seq<Identity>, floor: int): Rows {
    if batch == [] then rows
    else
      var w := ProbeWindow(batch, floor);
      rows + multiset(Unmatched(rows, batch, w.0, w.1))
  }

  predicate Distinct<T(==)>(s: seq<T>) {
    forall i, j :: 0 <= i < j < |s| ==> s[i] != s[j]
  }

  ghost predicate NoDuplicates(rows: Rows) {
    forall r :: rows[r] <= 1
  }

  lemma {:induction false} MinMaxBound(batch: seq<Identity>, r: Identity)
    requires r in batch
    ensures MinTs(batch) <= r.ts <= MaxTs(batch)
  {
    if r in batch[1..] {
      MinMaxBound(batch[1..], r);
    }
  }

  /** Every possible twin of a batch row lies in the probe window unless it lies below the floor. */
  lemma ProbeReaches(batch: seq<Identity>, floor: int, r: Identity)
    requires r in batch && MinTs(batch) != ZERO_TIME
    ensures var w := ProbeWindow(batch, floor); w.0 <= r.ts <= w.1 <==> floor <= r.ts
  {
    MinMaxBound(batch, r);
  }

  /** How often the insert stores a row of the batch. */
  function Copies(batch: seq<Identity>, r: Identity): nat {
    multiset(batch)[r]
  }

  lemma {:induction false} UnmatchedCopies(rows: Rows, batch: seq<Identity>, lo: int, hi: int, r: Identity)
    ensures multiset(Unmatched(rows, batch, lo, hi))[r] == if r in rows && lo <= r.ts <= hi then 0 else Copies(batch, r)
  {
    if batch != [] {
      assert batch == batch[..|batch| - 1] + [batch[|batch| - 1]];
      UnmatchedCopies(rows, batch[..|batch| - 1], lo, hi, r);
    }
  }

  ghost predicate Timed(batch: seq<Identity>) {
    forall r :: r in batch ==> r.ts != ZERO_TIME
  }

  lemma {:induction false} MinIsMember(batch: seq<Identity>)
    requires batch != []
    ensures exists r :: r in batch && r.ts == MinTs(batch)
  {
    if |batch| == 1 {
      assert batch[0] in batch;
    } else {
      MinIsMember(batch[1..]);
      assert batch[0] in batch;
    }
  }

  /** The effect of the insert, identity by identity: a row at rest at or above the floor is never stored again. */
  lemma InsertEffect(rows: Rows, batch: seq<Identity>, floor: int, r: Identity)
    requires Timed(batch)
    ensures
      AntiJoinInsert(rows, batch, floor)[r] == rows[r] + if r in rows && floor <= r.ts then 0 else Copies(batch, r)
  {
    if batch != [] {
      var w := ProbeWindow(batch, floor);
      UnmatchedCopies(rows, batch, w.0, w.1, r);
      MinIsMember(batch);
      if r in batch {
        ProbeReaches(batch, floor, r);
      } else {
        assert r !in multiset(batch);
      }
    }
  }

  /** No row at rest at or above the floor gains a copy, whatever is inserted. */
  lemma InsertGainsNothing(rows: Rows, batch: seq<Identity>, floor: int, r: Identity)
    requires r in rows && floor <= r.ts
    ensures AntiJoinInsert(rows, batch, floor)[r] == rows[r]
  {
    if batch != [] {
      var w := ProbeWindow(batch, floor);
      UnmatchedCopies(rows, batch, w.0, w.1, r);
      if r in batch {
        MinMaxBound(batch, r);
      } else {
        assert r !in multiset(batch);
      }
    }
  }

  lemma DistinctCopies(batch: seq<Identity>, r: Identity)
    requires Distinct(batch)
    ensures Copies(batch, r) == if r in batch then 1 else 0
    decreases |batch|
  {
    if batch != [] {
      var front, last := batch[..|batch| - 1], batch[|batch| - 1];
      assert batch == front + [last];
      DistinctCopies(front, r);
    }
  }

  /** Nothing is lost and nothing else appears, whatever the probe missed. */
  lemma InsertMembers(rows: Rows, batch: seq<Identity>, floor: int, r: Identity)
    ensures r in AntiJoinInsert(rows, batch, floor) <==> r in rows || r in batch
  {
    if batch != [] {
      var w := ProbeWindow(batch, floor);
      UnmatchedCopies(rows, batch, w.0, w.1, r);
      assert r in multiset(batch) <==> r in batch;
    }
  }

  /** Duplicates cannot appear while the batch is duplicate-free and inside the probe's reach. */
  lemma InsertKeepsNoDuplicates(rows: Rows, batch: seq<Identity>, floor: int)
    requires NoDuplicates(rows) && Distinct(batch) && Timed(batch)
    requires forall r :: r in batch ==> floor <= r.ts
    ensures NoDuplicates(AntiJoinInsert(rows, batch, floor))
  {
    forall r ensures AntiJoinInsert(rows, batch, floor)[r] <= 1 {
      InsertEffect(rows, batch, floor, r);
      DistinctCopies(batch, r);
    }
  }

  /** A replay below the floor stores a second copy: the bound on the probe is what the guarantee rests on. */
  lemma ReplayDuplicatesIff(rows: Rows, batch: seq<Identity>, floor: int)
    requires NoDuplicates(rows) && Distinct(batch) && Timed(batch) && forall r :: r in batch ==> r in rows
    ensures NoDuplicates(AntiJoinInsert(rows, batch, floor)) <==> forall r :: r in batch ==> floor <= r.ts
  {
    if forall r :: r in batch ==> floor <= r.ts {
      InsertKeepsNoDuplicates(rows, batch, floor);
    } else {
      var r :| r in batch && r.ts < floor;
      InsertEffect(rows, batch, floor, r);
      DistinctCopies(batch, r);
      assert AntiJoinInsert(rows, batch, floor)[r] == 2;
    }
  }

  // ----- cutting a batch into windows

  function Flatten(windows: seq<seq<Identity>>): seq<Identity> {
    if windows == [] then [] else Flatten(windows[..|windows| - 1]) + windows[|windows| - 1]
  }

  /** The windows written one transaction after the other, each with the probe floor of its own time. */
  function WriteAll(rows: Rows, windows: seq<seq<Identity>>, floors: seq<int>): Rows
    requires |floors| == |windows|
  {
    if windows == [] then rows
    else
      var n := |windows| - 1;
      AntiJoinInsert(WriteAll(rows, windows[..n], floors[..n]), windows[n], floors[n])
  }

  /** The rows of a batch that are already at rest lie on the same side of both floors. */
  ghost predicate SameSide(rows: Rows, batch: seq<Identity>, f: int, g: int) {
    forall r :: r in batch && r in rows ==> (f <= r.ts <==> g <= r.ts)
  }

  lemma TwoInserts(rows: Rows, a: seq<Identity>, b: seq<Identity>, f: int, g: int, h: int)
    requires Distinct(a + b) && Timed(a + b) && SameSide(rows, a, f, h) && SameSide(rows, b, g, h)
    ensures AntiJoinInsert(AntiJoinInsert(rows, a, f), b, g) == AntiJoinInsert(rows, a + b, h)
  {
    var mid := AntiJoinInsert(rows, a, f);
    assert Timed(a) && Timed(b) by {
      assert forall x :: x in a ==> x in a + b;
      assert forall x :: x in b ==> x in a + b;
    }
    forall r ensures AntiJoinInsert(mid, b, g)[r] == AntiJoinInsert(rows, a + b, h)[r] {
      InsertEffect(rows, a, f, r);
      InsertEffect(mid, b, g, r);
      InsertEffect(rows, a + b, h, r);
      InsertMembers(rows, a, f, r);
      assert Copies(a + b, r) == Copies(a, r) + Copies(b, r);
      SplitDistinct(a, b, r);
      assert (r !in a ==> r !in multiset(a)) && (r !in b ==> r !in multiset(b));
    }
  }

  lemma SplitDistinct(a: seq<Identity>, b: seq<Identity>, r: Identity)
    requires Distinct(a + b)
    ensures r in a ==> Copies(b, r) == 0
    ensures r in b ==> Copies(a, r) == 0
  {
    DistinctCopies(a + b, r);
    assert multiset(a + b) == multiset(a) + multiset(b);
    assert r in a <==> r in multiset(a);
    assert r in b <==> r in multiset(b);
  }

  /** No row already at rest crosses the floor between its window's transaction and the time of `floor`. */
  ghost predicate NoneCrosses(rows: Rows, windows: seq<seq<Identity>>, floors: seq<int>, floor: int)
    requires |floors| == |windows|
  {
    forall i :: 0 <= i < |windows| ==> SameSide(rows, windows[i], floors[i], floor)
  }

  /**
   However a span is cut into windows, and whenever each is written, the rows at rest
   equal those of one transaction at the time of `floor`.
   */
  lemma {:induction false} CutDoesNotMatter(rows: Rows, windows: seq<seq<Identity>>, floors: seq<int>, floor: int)
    requires |floors| == |windows| && Distinct(Flatten(windows)) && Timed(Flatten(windows))
    requires NoneCrosses(rows, windows, floors, floor)
    ensures WriteAll(rows, windows, floors) == AntiJoinInsert(rows, Flatten(windows), floor)
    decreases |windows|
  {
    if windows != [] {
      var n := |windows| - 1;
      var front, last, all := windows[..n], windows[n], Flatten(windows);
      assert all == Flatten(front) + last;
      assert Flatten(front) == all[..|Flatten(front)|];
      assert forall r :: r in Flatten(front) ==> r in all;
      CutDoesNotMatter(rows, front, floors[..n], floor);
      TwoInserts(rows, Flatten(front), last, floor, floors[n], floor);
    }
  }

  /**
   A crash after some windows and a later retry of the whole span store what one
   transaction at the time of the retry would have, while the rows that landed are
   still within the retry's reach.
   */
  lemma RetryCollapses(rows: Rows, a: seq<Identity>, b: seq<Identity>, f: int, g: int)
    requires Distinct(a + b) && Timed(a + b) && f <= g && forall r :: r in a ==> g <= r.ts
    ensures AntiJoinInsert(AntiJoinInsert(rows, a, f), a + b, g) == AntiJoinInsert(rows, a + b, g)
  {
    var mid := AntiJoinInsert(rows, a, f);
    assert forall x :: x in a ==> x in a + b;
    forall r ensures AntiJoinInsert(mid, a + b, g)[r] == AntiJoinInsert(rows, a + b, g)[r] {
      InsertEffect(rows, a, f, r);
      InsertEffect(mid, a + b, g, r);
      InsertEffect(rows, a + b, g, r);
      InsertMembers(rows, a, f, r);
      assert Copies(a + b, r) == Copies(a, r) + Copies(b, r);
      SplitDistinct(a, b, r);
      assert r !in a ==> r !in multiset(a);
    }
  }
}
