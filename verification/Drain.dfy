/**
 The decode loop over the change feed in the form the source has it: windows read
 lazily, the previous one written once the next proves it was not the last, and
 every request able to fail. Each call keeps the ingest protocol's invariant.
 */
module Drain {
  import opened Signals
  import opened Sorting
  import opened Feed
  import opened RowStore
  import Ingest

  /** (subject, time, id) identifies a row of a span's feed. */
  ghost predicate KeysDistinct(src: Ingest.Source) {
    forall from: nat, to: nat :: DistinctKeys(src.Span(from, to))
  }

  ghost predicate DistinctKeys(rows: seq<RawEvent>) {
    forall i, j :: 0 <= i < j < |rows| ==> rows[i].key != rows[j].key
  }

  predicate KeyOrder(a: RawEvent, b: RawEvent) {
    !Less(b.key, a.key)
  }

  /** The feed of a span, as the change-feed query orders it. */
  function FeedOf(src: Ingest.Source, from: nat, to: nat): seq<RawEvent> {
    Sort(KeyOrder, src.Span(from, to))
  }

  lemma DistinctAfterPermutation(a: seq<RawEvent>, b: seq<RawEvent>)
    requires multiset(a) == multiset(b) && DistinctKeys(a)
    ensures DistinctKeys(b)
  {
    forall i, j | 0 <= i < j < |b| ensures b[i].key != b[j].key {
      if b[i] == b[j] {
        TwoCopies(b, i, j);
        OneCopy(a, b[i]);
      } else {
        assert b[i] in multiset(b) && b[j] in multiset(b);
        assert b[i] in a && b[j] in a;
      }
    }
  }

  lemma TwoCopies(b: seq<RawEvent>, i: nat, j: nat)
    requires i < j < |b| && b[i] == b[j]
    ensures 2 <= multiset(b)[b[i]]
  {
    assert b == b[..i] + [b[i]] + b[i + 1..j] + [b[j]] + b[j + 1..];
  }

  lemma {:induction false} OneCopy(a: seq<RawEvent>, e: RawEvent)
    requires DistinctKeys(a)
    ensures multiset(a)[e] <= 1
  {
    if a != [] {
      var front, last := a[..|a| - 1], a[|a| - 1];
      assert a == front + [last];
      OneCopy(front, e);
      if e == last {
        assert e !in front;
        assert e !in multiset(front);
      }
    }
  }

  lemma FeedIsOrdered(src: Ingest.Source, from: nat, to: nat)
    requires KeysDistinct(src)
    ensures InKeyOrder(FeedOf(src, from, to))
    ensures multiset(FeedOf(src, from, to)) == multiset(src.Span(from, to))
  {
    var span, feed := src.Span(from, to), FeedOf(src, from, to);
    SortIsSorted(KeyOrder, span);
    DistinctAfterPermutation(span, feed);
    forall i, j | 0 <= i < j < |feed| ensures Less(feed[i].key, feed[j].key) {
      assert KeyOrder(feed[i], feed[j]);
    }
  }

  lemma {:induction false} FlatAppend(ws: seq<seq<RawEvent>>, w: seq<RawEvent>)
    ensures Ingest.FlatRows(ws + [w]) == Ingest.FlatRows(ws) + w
  {
    if ws == [] {
      assert Ingest.FlatRows([w]) == w + Ingest.FlatRows([]);
    } else {
      assert (ws + [w])[1..] == ws[1..] + [w];
      FlatAppend(ws[1..], w);
    }
  }

  /** What a landed window must keep: everything up to the cursor at rest, everything at rest explained. */
  ghost predicate Sound(src: Ingest.Source, rows: Rows, cursor: nat, skipped: set<nat>, taken: set<nat>) {
    && (forall n: nat, e :: 0 < n <= cursor && n !in skipped && e in src.inserts(n) ==> Ingest.AtRest(src, rows, e))
    && (forall r :: r in rows ==> Ingest.Explained(src, r, taken))
  }

  lemma LandKeepsSound(src: Ingest.Source, rows: Rows, cursor: nat, skipped: set<nat>, taken: set<nat>,
      win: seq<RawEvent>, to: nat, floor: int)
    requires Sound(src, rows, cursor, skipped, taken) && Ingest.SpanOf(cursor, to) <= taken
    requires forall e :: e in win ==> e in src.Span(cursor, to)
    ensures Sound(src, AntiJoinInsert(rows, src.DecodedAll(win), floor), cursor, skipped, taken)
    ensures forall e :: Ingest.AtRest(src, rows, e) || e in win ==>
        Ingest.AtRest(src, AntiJoinInsert(rows, src.DecodedAll(win), floor), e)
  {
    var rows' := AntiJoinInsert(rows, src.DecodedAll(win), floor);
    Ingest.LandEffect(src, rows, win, floor);
    forall r | r in rows' ensures Ingest.Explained(src, r, taken) {
      if r !in rows {
        var e :| e in win && r in src.Decoded(e);
        Ingest.SpanMembers(src, cursor, to, e);
      }
    }
  }

  /** Once a whole span is at rest the cursor may pass it. */
  lemma SpanAtRest(src: Ingest.Source, rows: Rows, cursor: nat, skipped: set<nat>, taken: set<nat>, to: nat)
    requires Sound(src, rows, cursor, skipped, taken)
    requires forall e :: e in src.Span(cursor, to) ==> Ingest.AtRest(src, rows, e)
    ensures Sound(src, rows, to, skipped, taken)
  {
    forall n: nat, e | 0 < n <= to && n !in skipped && e in src.inserts(n) ensures Ingest.AtRest(src, rows, e) {
      if cursor < n {
        Ingest.SpanMembers(src, cursor, to, e);
      }
    }
  }

  /** With its last window the whole span is at rest, so the cursor may move with it. */
  lemma LastWindowLands(src: Ingest.Source, rows: Rows, cursor: nat, skipped: set<nat>, taken: set<nat>,
                        feed: seq<RawEvent>, pending: seq<RawEvent>, to: nat, floor: int)
    requires Sound(src, rows, cursor, skipped, taken) && Ingest.SpanOf(cursor, to) <= taken
    requires forall e :: e in feed <==> e in src.Span(cursor, to)
    requires |pending| <= |feed| && pending == feed[|feed| - |pending|..]
    requires forall e :: e in feed[..|feed| - |pending|] ==> Ingest.AtRest(src, rows, e)
    ensures Sound(src, AntiJoinInsert(rows, src.DecodedAll(pending), floor), to, skipped, taken)
  {
    var rows' := AntiJoinInsert(rows, src.DecodedAll(pending), floor);
    assert feed == feed[..|feed| - |pending|] + pending;
    LandKeepsSound(src, rows, cursor, skipped, taken, pending, to, floor);
    forall e | e in src.Span(cursor, to) ensures Ingest.AtRest(src, rows', e) {
      assert e in feed;
    }
    SpanAtRest(src, rows', cursor, skipped, taken, to);
  }

  // ----- how often rows are stored

  /**
   From `was` to `now`, by inserts of pieces of `feed` whose probes reach back to `reach`
   or further: no row at rest at or after `reach` gained a copy, and nothing was stored
   twice if the feed decodes without repetition within the reach.
   */
  ghost predicate Grown(src: Ingest.Source, was: Rows, now: Rows, feed: seq<RawEvent>, reach: int) {
    && (forall r :: r in was && reach <= r.ts ==> now[r] == was[r])
    && (NoDuplicates(was) && Ingest.WithinProbe(src, feed, reach) ==> NoDuplicates(now))
  }

  lemma GrownTwice(src: Ingest.Source, a: Rows, b: Rows, c: Rows, feed: seq<RawEvent>, reach: int)
    requires Grown(src, a, b, feed, reach) && Grown(src, b, c, feed, reach)
    ensures Grown(src, a, c, feed, reach)
  {
    forall r | r in a && reach <= r.ts ensures c[r] == a[r] {
      assert b[r] == a[r] && r in b;
    }
  }

  lemma LandGrows(src: Ingest.Source, was: Rows, win: seq<RawEvent>, floor: int, reach: int)
    requires floor <= reach
    ensures Grown(src, was, AntiJoinInsert(was, src.DecodedAll(win), floor), win, reach)
  {
    var batch := src.DecodedAll(win);
    forall r | r in was && reach <= r.ts ensures AntiJoinInsert(was, batch, floor)[r] == was[r] {
      InsertGainsNothing(was, batch, floor, r);
    }
    if NoDuplicates(was) && Ingest.WithinProbe(src, win, reach) {
      InsertKeepsNoDuplicates(was, batch, floor);
    }
  }

  lemma GrownByPiece(src: Ingest.Source, was: Rows, now: Rows, feed: seq<RawEvent>, a: nat, b: nat, reach: int)
    requires a <= b <= |feed| && Grown(src, was, now, feed[a..b], reach)
    ensures Grown(src, was, now, feed, reach)
  {
    if Ingest.WithinProbe(src, feed, reach) {
      Ingest.PieceWithinProbe(src, feed, a, b, reach);
    }
  }

  /** Every span behind the head decodes without repetition, within the reach. */
  ghost predicate SpansWithinProbe(src: Ingest.Source, from: nat, head: nat, reach: int) {
    forall a: nat, b: nat :: from <= a <= b <= head ==> Ingest.WithinProbe(src, FeedOf(src, a, b), reach)
  }

  /**
   How a request ended: nil, a conflicting commit (errSnapshotMoved), or another error
   that may hide a landed transaction.
   */
  datatype Outcome = Nil | Moved | Failed

  class DuckLakeMaterializer {
    const src: Ingest.Source
    const maxSnapshotSpan: int
    const maxRowsPerWindow: int
    const windowByteBudget: int
    // the catalog
    var cursor: nat
    var head: nat
    var oldest: nat
    var reported: nat
    ghost var rows: Rows
    ghost var skipped: set<nat>
    ghost var taken: set<nat>
    // the process
    var lastReportedSnapshot: nat

    ghost function Snapshot(): Ingest.State
      reads this
    {
      Ingest.State(cursor, head, oldest, reported, rows, skipped, taken, Ingest.Idle)
    }

    ghost predicate Valid()
      reads this
    {
      KeysDistinct(src) && Ingest.Invariant(src, Snapshot())
    }

    /** Hand the floor to the producer; a write may fail, and an unchanged one may be throttled. */
    method ReportProgressNow(snapshot: nat, calm: bool)
      requires Valid() && (snapshot == cursor || snapshot < oldest)
      modifies this`reported, this`lastReportedSnapshot
      ensures Valid() && (reported == old(reported) || reported == snapshot)
      ensures lastReportedSnapshot == old(lastReportedSnapshot) || (lastReportedSnapshot == snapshot == reported)
      ensures calm && snapshot != old(lastReportedSnapshot) ==> reported == lastReportedSnapshot == snapshot
    {
      var due: bool, landed: bool, acked: bool := *, *, *;
      if snapshot == lastReportedSnapshot && !due {
        return;
      }
      if landed || calm {
        reported := snapshot;
        if acked || calm {
          lastReportedSnapshot := snapshot;
        }
      }
    }

    /**
     One transaction with a window's rows, in which the probe reaches back to `reach` at
     least; a window without decoded rows is a no-op.
     */
    method WriteWindow(win: seq<RawEvent>, ghost to: nat, calm: bool, ghost reach: int) returns (out: Outcome)
      requires Valid() && Ingest.SpanOf(cursor, to) <= taken && forall e :: e in win ==> e in src.Span(cursor, to)
      modifies this`rows
      ensures Valid() && Grown(src, old(rows), rows, win, reach)
      ensures forall e :: Ingest.AtRest(src, old(rows), e) || (out.Nil? && e in win) ==> Ingest.AtRest(src, rows, e)
      ensures out.Moved? ==> rows == old(rows)
      ensures calm ==> out.Nil?
    {
      ghost var floor: int :| floor <= reach;
      LandKeepsSound(src, rows, cursor, skipped, taken, win, to, floor);
      LandGrows(src, rows, win, floor, reach);
      if src.DecodedAll(win) == [] {
        return Nil;
      }
      var landed: bool, acked: bool, conflict: bool := *, *, *;
      if !landed && !calm {
        return if conflict then Moved else Failed;
      }
      rows := AntiJoinInsert(rows, src.DecodedAll(win), floor);
      return if acked || calm then Nil else Failed;
    }

    /** The first `pos` feed rows have been read as `windows`; all but the `pending` last one are at rest. */
    ghost predicate Progress(feed: seq<RawEvent>, pos: nat, after: Option<RowKey>, pending: seq<RawEvent>,
        windows: seq<seq<RawEvent>>)
      reads this
    {
      && Consumed(feed, after, pos)
      && |pending| <= pos && pending == feed[pos - |pending|..pos] && (pending == [] ==> pos == 0)
      && (forall e :: e in feed[..pos - |pending|] ==> Ingest.AtRest(src, rows, e))
      && Ingest.FlatRows(windows) == feed[..pos]
      && forall w :: w in windows ==> WithinBounds(w, maxRowsPerWindow, windowByteBudget)
    }

    /** Write a window that turned out not to be the last, without touching the cursor. */
    method WritePending(feed: seq<RawEvent>, pos: nat, pending: seq<RawEvent>, ghost to: nat, calm: bool,
        ghost reach: int)
      returns (out: Outcome)
      requires Valid() && Ingest.SpanOf(cursor, to) <= taken && forall e :: e in feed ==> e in src.Span(cursor, to)
      requires pos <= |feed| && |pending| <= pos && pending == feed[pos - |pending|..pos]
      requires forall e :: e in feed[..pos - |pending|] ==> Ingest.AtRest(src, rows, e)
      modifies this`rows
      ensures Valid() && Grown(src, old(rows), rows, feed, reach)
      ensures out.Nil? ==> forall e :: e in feed[..pos] ==> Ingest.AtRest(src, rows, e)
      ensures calm ==> out.Nil?
    {
      if pending == [] {
        return Nil;
      }
      out := WriteWindow(pending, to, calm, reach);
      GrownByPiece(src, old(rows), rows, feed, pos - |pending|, pos, reach);
      PrefixGrows(feed, pos - |pending|, pos);
    }

    /** Read the next window and, if there is one, write the one before it. */
    method NextAndWrite(feed: seq<RawEvent>, pos: nat, after: Option<RowKey>, pending: seq<RawEvent>, ghost to: nat,
                        calm: bool, ghost reach: int, ghost windows: seq<seq<RawEvent>>)
      returns (out: Outcome, win: seq<RawEvent>, last: Option<RowKey>)
      requires Valid() && Ingest.SpanOf(cursor, to) <= taken && InKeyOrder(feed)
      requires forall e :: e in feed ==> e in src.Span(cursor, to)
      requires Progress(feed, pos, after, pending, windows)
      modifies this`rows
      ensures Valid() && Grown(src, old(rows), rows, feed, reach)
      ensures calm ==> out.Nil?
      ensures out.Nil? && win == [] ==> pos == |feed| && Progress(feed, pos, after, pending, windows)
      ensures out.Nil? && win != [] ==> pos + |win| <= |feed| && Progress(feed, pos + |win|, last, win, windows + [win])
    {
      ghost var lastPage;
      var ok;
      ok, win, last, lastPage := NextWindow(feed, after, maxRowsPerWindow, windowByteBudget, calm, pos);
      out := if ok then Nil else Failed;
      if ok && win != [] {
        BoundedAlone(feed, pos, win, lastPage, maxRowsPerWindow, windowByteBudget);
        out := WritePending(feed, pos, pending, to, calm, reach);
        FlatAppend(windows, win);
        PrefixGrows(feed, pos, pos + |win|);
      }
    }

    /** Read the whole feed in windows and write all of them but the last. */
    method WriteAllButLast(feed: seq<RawEvent>, ghost to: nat, calm: bool, ghost reach: int)
      returns (out: Outcome, pending: seq<RawEvent>, after: Option<RowKey>, ghost windows: seq<seq<RawEvent>>)
      requires Valid() && Ingest.SpanOf(cursor, to) <= taken && InKeyOrder(feed)
      requires forall e :: e in feed ==> e in src.Span(cursor, to)
      modifies this`rows
      ensures Valid() && Grown(src, old(rows), rows, feed, reach)
      ensures calm ==> out.Nil?
      ensures out.Nil? ==> Progress(feed, |feed|, after, pending, windows)
    {
      windows, after, pending := [], None, [];
      var pos := 0;
      while true
        invariant Valid() && pos <= |feed| && Progress(feed, pos, after, pending, windows)
        invariant Grown(src, old(rows), rows, feed, reach)
        decreases |feed| - pos
      {
        var win, last;
        ghost var before := rows;
        out, win, last := NextAndWrite(feed, pos, after, pending, to, calm, reach, windows);
        GrownTwice(src, old(rows), before, rows, feed, reach);
        if !out.Nil? || win == [] {
          return;
        }
        windows, pending, after, pos := windows + [win], win, last, pos + |win|;
      }
    }

    /**
     Decode and write the span behind the cursor. Only success with rows moves the
     cursor, and then the whole span is at rest; the windows are consecutive pieces
     of the feed, none empty, each within the row cap and the byte budget.
     */
    method DecodeAndWriteSpan(to: nat, calm: bool, ghost reach: int)
      returns (out: Outcome, rawRows: nat, ghost windows: seq<seq<RawEvent>>)
      requires Valid() && cursor < to <= head
      modifies this`rows, this`cursor, this`taken
      ensures Valid() && old(cursor) <= cursor <= to
      ensures
        var feed := FeedOf(src, old(cursor), to);
        out.Nil? ==> rawRows == |feed| && Ingest.FlatRows(windows) == feed
      ensures out.Nil? ==> cursor == if rawRows == 0 then old(cursor) else to
      ensures out.Nil? ==> forall w :: w in windows ==> WithinBounds(w, maxRowsPerWindow, windowByteBudget)
      ensures taken == old(taken) + Ingest.SpanOf(old(cursor), to)
      ensures Grown(src, old(rows), rows, FeedOf(src, old(cursor), to), reach)
      ensures calm ==> out.Nil?
      ensures out.Moved? ==> cursor == old(cursor)
    {
      var feed := FeedOf(src, cursor, to);
      FeedIsOrdered(src, cursor, to);
      SameMembers(feed, src.Span(cursor, to));
      WidenReach(src, rows, taken, taken + Ingest.SpanOf(cursor, to));
      taken := taken + Ingest.SpanOf(cursor, to);
      var pending, after;
      rawRows := |feed|;
      out, pending, after, windows := WriteAllButLast(feed, to, calm, reach);
      if out.Nil? {
        assert feed[..|feed|] == feed;
        if pending != [] {
          out := CommitLast(pending, to, feed, calm, reach, old(rows));
        }
      }
    }

    /** The commit as the last of the span's writes. */
    method CommitLast(pending: seq<RawEvent>, to: nat, ghost feed: seq<RawEvent>, calm: bool, ghost reach: int,
        ghost was: Rows)
      returns (out: Outcome)
      requires Valid() && cursor < to <= head && Ingest.SpanOf(cursor, to) <= taken
      requires forall e :: e in feed <==> e in src.Span(cursor, to)
      requires |pending| <= |feed| && pending == feed[|feed| - |pending|..|feed|]
      requires forall e :: e in feed[..|feed| - |pending|] ==> Ingest.AtRest(src, rows, e)
      requires Grown(src, was, rows, feed, reach)
      modifies this`rows, this`cursor
      ensures Valid() && (cursor == to || cursor == old(cursor)) && Grown(src, was, rows, feed, reach)
      ensures out.Nil? ==> cursor == to
      ensures out.Moved? ==> cursor == old(cursor)
      ensures calm ==> out.Nil?
    {
      out := Commit(pending, to, feed, calm, reach);
      GrownByPiece(src, old(rows), rows, feed, |feed| - |pending|, |feed|, reach);
      GrownTwice(src, was, old(rows), rows, feed, reach);
    }

    /** The last window and the cursor land together; a lost acknowledgement is recognised by the moved cursor. */
    method Commit(pending: seq<RawEvent>, to: nat, ghost feed: seq<RawEvent>, calm: bool, ghost reach: int)
      returns (out: Outcome)
      requires Valid() && cursor < to <= head && Ingest.SpanOf(cursor, to) <= taken
      requires forall e :: e in feed <==> e in src.Span(cursor, to)
      requires |pending| <= |feed| && pending == feed[|feed| - |pending|..]
      requires forall e :: e in feed[..|feed| - |pending|] ==> Ingest.AtRest(src, rows, e)
      modifies this`rows, this`cursor
      ensures Valid() && (cursor == to || cursor == old(cursor))
      ensures out.Nil? ==> cursor == to
      ensures out.Moved? ==> cursor == old(cursor)
      ensures Grown(src, old(rows), rows, pending, reach)
      ensures calm ==> out.Nil?
    {
      var landed: bool, conflict: bool, acked: bool, cursorRead: bool := *, *, *, *;
      ghost var floor: int :| floor <= reach;
      LandGrows(src, rows, pending, floor, reach);
      if !landed && !calm {
        return if conflict then Moved else Failed;
      }
      LastWindowLands(src, rows, cursor, skipped, taken, feed, pending, to, floor);
      rows, cursor := AntiJoinInsert(rows, src.DecodedAll(pending), floor), to;
      return if acked || cursorRead || calm then Nil else Failed;
    }

    /**
     Decide on retention whether a feed error means expiry: skip exactly the
     unretained prefix, or nothing.
     */
    method MaybeRecoverExpired(cur: nat) returns (handled: bool, ok: bool)
      requires Valid() && cur <= cursor && oldest <= head + 1
      modifies this`cursor, this`skipped, this`reported, this`lastReportedSnapshot
      ensures Valid() && old(cursor) <= cursor
      ensures cursor != old(cursor) ==> handled && ok && old(cursor) == cur && cursor == oldest - 1
      ensures handled && ok ==> cur < cursor
      ensures oldest <= cur + 1 ==> !handled
    {
      var readable: bool, reset: bool := *, *;
      if !readable || oldest <= cur + 1 {
        return false, true;
      }
      if !reset {
        return true, false;
      }
      if cursor == cur {
        Ingest.StepKeepsInvariant(src, Snapshot(), Ingest.Recover);
        skipped, cursor := skipped + Ingest.Between(cursor, oldest), oldest - 1;
      }
      ReportProgressNow(oldest - 1, false);
      return true, true;
    }

    /**
     One chunk of the backlog; not done means an empty sub-span was passed. A chunk
     that ends without error either moved the cursor, found no raw insert up to the
     target, or lost a commit conflict, which the caller cannot tell from the second.
     */
    method ProcessChunk(cur: nat, target: nat, calm: bool, ghost reach: int)
      returns (ok: bool, processed: nat, newCur: nat, done: bool, ghost conflict: bool, ghost upTo: nat)
      requires Valid() && cur == cursor && cur < target <= head && oldest <= head + 1
      modifies this`rows, this`cursor, this`taken, this`skipped, this`reported, this`lastReportedSnapshot
      ensures Valid() && old(cursor) <= cursor && oldest <= head + 1
      ensures !done ==> cur < newCur < target && newCur == cursor && src.Span(cur, newCur) == []
      ensures done && ok && 0 < processed ==> cur < cursor
      ensures done && ok && processed == 0 ==> cursor == cur && (conflict || src.Span(cur, target) == [])
      ensures cur < upTo <= target && (0 < maxSnapshotSpan ==> upTo <= cur + maxSnapshotSpan)
      ensures taken == old(taken) + Ingest.SpanOf(cur, upTo)
      ensures Grown(src, old(rows), rows, FeedOf(src, cur, upTo), reach)
      ensures calm ==> ok && !conflict && (done && 0 < processed ==> processed == |FeedOf(src, cur, cursor)|)
    {
      var to := target;
      if 0 < maxSnapshotSpan && maxSnapshotSpan < to - cur {
        to := cur + maxSnapshotSpan;
      }
      upTo := to;
      ghost var windows;
      var out, rawRows;
      out, rawRows, windows := DecodeAndWriteSpan(to, calm, reach);
      if out.Moved? {
        return true, 0, cur, true, true, upTo;
      }
      if out.Failed? {
        var handled, reset := MaybeRecoverExpired(cur);
        return handled && reset, if handled && reset then 1 else 0, cur, true, false, upTo;
      }
      if 0 < rawRows {
        ReportProgressNow(to, calm);
        return true, rawRows, to, true, false, upTo;
      }
      ok, done, conflict := PassEmptySpan(cur, target, to, calm);
      return ok, 0, if done then cur else to, done, conflict, upTo;
    }

    /** The span held no raw insert: report if it reached the target, move the cursor past it otherwise. */
    method PassEmptySpan(cur: nat, target: nat, to: nat, calm: bool)
        returns (ok: bool, done: bool, ghost conflict: bool)
      requires Valid() && cur == cursor && cur < to <= target <= head && FeedOf(src, cur, to) == []
      modifies this`cursor, this`reported, this`lastReportedSnapshot
      ensures Valid() && old(cursor) <= cursor && (calm ==> ok && !conflict)
      ensures !done ==> cursor == to < target && src.Span(cur, to) == []
      ensures done && ok ==> cursor == cur && (conflict || src.Span(cur, target) == [])
    {
      SortIsSorted(KeyOrder, src.Span(cur, to));
      if target <= to {
        ReportProgressNow(cur, calm);
        return true, true, false;
      }
      var landed: bool, raced: bool, acked: bool := *, *, *;
      if !landed && !calm {
        return raced, true, raced;
      }
      assert forall e :: e !in src.Span(cursor, to);
      SpanAtRest(src, rows, cursor, skipped, taken, to);
      cursor := to;
      return acked || calm, !(acked || calm), false;
    }

    /**
     Drain toward the head seen at the start; ends because each empty chunk shortens
     the distance to it. A positive count means the cursor moved. Zero without error
     means caught up, unless a commit conflict was lost.
     */
    method RunOnce(calm: bool, ghost reach: int) returns (ok: bool, processed: nat, ghost conflict: bool)
      requires Valid() && oldest <= head + 1
      modifies this`rows, this`cursor, this`taken, this`skipped, this`reported, this`lastReportedSnapshot
      ensures Valid() && old(cursor) <= cursor
      ensures ok && 0 < processed ==> old(cursor) < cursor
      ensures ok && processed == 0 && !conflict ==> src.Span(cursor, head) == []
      ensures calm ==> ok && !conflict
      ensures forall r :: r in old(rows) && reach <= r.ts ==> rows[r] == old(rows)[r]
      ensures NoDuplicates(old(rows)) && SpansWithinProbe(src, old(cursor), head, reach) ==> NoDuplicates(rows)
    {
      var cur, target := cursor, head;
      if target <= cur {
        ReportProgressNow(cur, calm);
        return true, 0, false;
      }
      var done := false;
      ok, processed, conflict := true, 0, false;
      while !done
        invariant Valid() && old(cursor) <= cursor && oldest <= head + 1 && head == target
        invariant !done ==> cur == cursor && cur < target
        invariant done && ok && 0 < processed ==> old(cursor) < cursor
        invariant done && ok && processed == 0 && !conflict ==> src.Span(cursor, target) == []
        invariant calm ==> ok && !conflict
        invariant forall r :: r in old(rows) && reach <= r.ts ==> rows[r] == old(rows)[r]
        invariant NoDuplicates(old(rows)) && SpansWithinProbe(src, old(cursor), head, reach) ==> NoDuplicates(rows)
        decreases !done, if done then 0 else target - cur
      {
        ghost var before, upTo := rows, 0;
        ok, processed, cur, done, conflict, upTo := ProcessChunk(cur, target, calm, reach);
        forall r | r in old(rows) && reach <= r.ts ensures rows[r] == old(rows)[r] {
          assert before[r] == old(rows)[r] && r in before;
        }
      }
    }
  }

  lemma SameMembers(a: seq<RawEvent>, b: seq<RawEvent>)
    requires multiset(a) == multiset(b)
    ensures forall e :: e in a <==> e in b
  {
    forall e ensures e in a <==> e in b {
      assert e in a <==> e in multiset(a);
    }
  }

  lemma WidenReach(src: Ingest.Source, rows: Rows, taken: set<nat>, wider: set<nat>)
    requires taken <= wider && forall r :: r in rows ==> Ingest.Explained(src, r, taken)
    ensures forall r :: r in rows ==> Ingest.Explained(src, r, wider)
  {
    forall r | r in rows ensures Ingest.Explained(src, r, wider) {
      assert Ingest.Explained(src, r, taken);
    }
  }

  lemma PrefixGrows(feed: seq<RawEvent>, a: nat, b: nat)
    requires a <= b <= |feed|
    ensures feed[..b] == feed[..a] + feed[a..b]
  {
  }
}
