/**
 The insert change feed of a snapshot span, read in pages and grouped into
 byte- and row-bounded windows.

 A feed row is identified by (subject, time, id); subjects and ids stand for
 their rank in the store's collation order.
 */
module Feed {
  import opened Signals

  const WINDOW_READ_CHUNK: nat := 512

  datatype RowKey = RowKey(subject: nat, time: int, id: nat)

  /** `poison` rows lose their payload for good: they are read and counted but not decoded. */
  datatype RawEvent = RawEvent(key: RowKey, bytes: nat, poison: bool)

  predicate Less(a: RowKey, b: RowKey) {
    || a.subject < b.subject
    || (a.subject == b.subject && (a.time < b.time || (a.time == b.time && a.id < b.id)))
  }

  /** ORDER BY subject, time, id over distinct keys. */
  ghost predicate InKeyOrder(feed: seq<RawEvent>) {
    forall i, j :: 0 <= i < j < |feed| ==> Less(feed[i].key, feed[j].key)
  }

  /** WHERE (subject, time, id) > after. */
  function Beyond(feed: seq<RawEvent>, after: Option<RowKey>): seq<RawEvent> {
    if feed == [] || after.None? then feed
    else (if Less(after.value, feed[0].key) then [feed[0]] else []) + Beyond(feed[1..], after)
  }

  /** Payload bytes of the `n` rows from `pos` on; a dropped payload occupies none. */
  function ResidentBytes(feed: seq<RawEvent>, pos: nat, n: nat): nat
    requires pos + n <= |feed|
  {
    if n == 0 then 0
    else ResidentBytes(feed, pos, n - 1) + if feed[pos + n - 1].poison then 0 else feed[pos + n - 1].bytes
  }

  /** The cursor `after` has consumed exactly the first `pos` rows. */
  predicate Consumed(feed: seq<RawEvent>, after: Option<RowKey>, pos: nat) {
    pos <= |feed| && if pos == 0 then after.None? else after == Some(feed[pos - 1].key)
  }

  lemma {:induction false} BeyondAll(feed: seq<RawEvent>, after: RowKey)
    requires forall i :: 0 <= i < |feed| ==> Less(after, feed[i].key)
    ensures Beyond(feed, Some(after)) == feed
  {
    if feed != [] {
      BeyondAll(feed[1..], after);
    }
  }

  /** The pagination predicate leaves exactly the rows not consumed yet. */
  lemma {:induction false} BeyondIsSuffix(feed: seq<RawEvent>, pos: nat)
    requires InKeyOrder(feed) && 0 < pos <= |feed|
    ensures Beyond(feed, Some(feed[pos - 1].key)) == feed[pos..]
  {
    var after := feed[pos - 1].key;
    if pos == 1 {
      BeyondAll(feed[1..], after);
    } else {
      BeyondIsSuffix(feed[1..], pos - 1);
      assert feed[1..][pos - 2].key == after;
    }
  }

  lemma BeyondConsumed(feed: seq<RawEvent>, after: Option<RowKey>, pos: nat)
    requires InKeyOrder(feed) && Consumed(feed, after, pos)
    ensures Beyond(feed, after) == feed[pos..]
  {
    if 0 < pos {
      BeyondIsSuffix(feed, pos);
    }
  }

  /** A row whose payload is kept counts its size, one whose payload was dropped nothing. */
  lemma OneRowBytes(feed: seq<RawEvent>, pos: nat)
    requires pos < |feed|
    ensures ResidentBytes(feed, pos, 1) == if feed[pos].poison then 0 else feed[pos].bytes
  {
    assert ResidentBytes(feed, pos, 0) == 0;
  }

  lemma {:induction false} BytesAdd(feed: seq<RawEvent>, pos: nat, m: nat, n: nat)
    requires pos + m + n <= |feed|
    ensures ResidentBytes(feed, pos, m + n) == ResidentBytes(feed, pos, m) + ResidentBytes(feed, pos + m, n)
  {
    if n != 0 {
      BytesAdd(feed, pos, m, n - 1);
    }
  }

  /** One page: up to `limit` rows past the cursor, and the payload bytes they hold. */
  method ReadDeltaWindow(feed: seq<RawEvent>, after: Option<RowKey>, limit: nat, calm: bool, ghost pos: nat)
    returns (ok: bool, page: seq<RawEvent>, bytes: nat, last: Option<RowKey>)
    requires InKeyOrder(feed) && Consumed(feed, after, pos) && 0 < limit
    ensures ok ==> |page| == (if |feed| - pos < limit then |feed| - pos else limit)
    ensures ok ==> Loaded(feed, pos, page, bytes, last)
    ensures calm ==> ok
  {
    ok, page, bytes, last := *, [], 0, after;
    ok := ok || calm;
    if !ok {
      return;
    }
    page := TakePage(feed, after, limit, pos);
    bytes := PageBytes(page, feed, pos);
    if page != [] {
      last := Some(page[|page| - 1].key);
    }
  }

  method TakePage(feed: seq<RawEvent>, after: Option<RowKey>, limit: nat, ghost pos: nat) returns (page: seq<RawEvent>)
    requires InKeyOrder(feed) && Consumed(feed, after, pos)
    ensures |page| == (if |feed| - pos < limit then |feed| - pos else limit) && page == feed[pos..pos + |page|]
  {
    var rest := Beyond(feed, after);
    BeyondConsumed(feed, after, pos);
    page := if |rest| < limit then rest else rest[..limit];
  }

  method PageBytes(page: seq<RawEvent>, ghost feed: seq<RawEvent>, ghost pos: nat) returns (bytes: nat)
    requires pos + |page| <= |feed| && page == feed[pos..pos + |page|]
    ensures bytes == ResidentBytes(feed, pos, |page|)
  {
    bytes := 0;
    for i := 0 to |page|
      invariant bytes == ResidentBytes(feed, pos, i)
    {
      assert page[i] == feed[pos + i];
      bytes := bytes + if page[i].poison then 0 else page[i].bytes;
    }
  }

  /** A window under construction: the feed rows from `pos` on, their bytes, and the cursor behind them. */
  ghost predicate Loaded(feed: seq<RawEvent>, pos: nat, win: seq<RawEvent>, bytes: nat, after: Option<RowKey>) {
    && pos + |win| <= |feed| && win == feed[pos..pos + |win|]
    && bytes == ResidentBytes(feed, pos, |win|)
    && Consumed(feed, after, pos + |win|)
  }

  lemma AppendPage(feed: seq<RawEvent>, pos: nat, win: seq<RawEvent>, bytes: nat, after: Option<RowKey>,
                   page: seq<RawEvent>, more: nat, last: Option<RowKey>)
    requires Loaded(feed, pos, win, bytes, after) && Loaded(feed, pos + |win|, page, more, last)
    ensures Loaded(feed, pos, win + page, bytes + more, last)
  {
    BytesAdd(feed, pos, |win|, |page|);
    assert feed[pos..pos + |win| + |page|] == feed[pos..pos + |win|] + feed[pos + |win|..pos + |win| + |page|];
  }

  /** Read one more page into a window. */
  method AddPage(feed: seq<RawEvent>, win: seq<RawEvent>, winBytes: nat, after: Option<RowKey>, limit: nat, calm: bool,
      ghost pos: nat)
    returns (ok: bool, got: nat, out: seq<RawEvent>, bytes: nat, last: Option<RowKey>)
    requires InKeyOrder(feed) && Loaded(feed, pos, win, winBytes, after) && 0 < limit
    ensures ok ==> Loaded(feed, pos, out, bytes, last) && |out| == |win| + got
    ensures ok ==> got == if |feed| - pos - |win| < limit then |feed| - pos - |win| else limit
    ensures calm ==> ok
  {
    var page, more;
    ok, page, more, last := ReadDeltaWindow(feed, after, limit, calm, pos + |win|);
    got, out, bytes := |page|, win + page, winBytes + more;
    if ok {
      AppendPage(feed, pos, win, winBytes, after, page, more, last);
    }
  }

  /** The bounds of a window of `rows` rows whose last page has `lastPage`. */
  ghost predicate Bounded(feed: seq<RawEvent>, pos: nat, rows: nat, lastPage: nat, maxRows: int, byteBudget: int) {
    && pos + rows <= |feed|
    && (0 < maxRows ==> rows <= maxRows)
    && lastPage <= rows && lastPage <= WINDOW_READ_CHUNK && (rows == 0 <==> lastPage == 0)
    && (0 < byteBudget && lastPage < rows ==> ResidentBytes(feed, pos, rows - lastPage) < byteBudget)
  }

  /** A window is full: it ends at the end of the feed, at the row cap, or once the byte budget is used up. */
  ghost predicate EndsForCause(feed: seq<RawEvent>, pos: nat, rows: nat, maxRows: int, byteBudget: int) {
    pos + rows <= |feed| &&
    (pos + rows == |feed| || (0 < maxRows && maxRows <= rows) ||
        (0 < byteBudget && byteBudget <= ResidentBytes(feed, pos, rows)))
  }

  /** A window by itself: some rows, within the row cap, and all pages but its last under the byte budget. */
  ghost predicate WithinBounds(win: seq<RawEvent>, maxRows: int, byteBudget: int) {
    win != [] && exists lastPage: nat :: Bounded(win, 0, |win|, lastPage, maxRows, byteBudget)
  }

  lemma {:induction false} BytesOfWindow(feed: seq<RawEvent>, pos: nat, win: seq<RawEvent>, n: nat)
    requires pos + |win| <= |feed| && win == feed[pos..pos + |win|] && n <= |win|
    ensures ResidentBytes(win, 0, n) == ResidentBytes(feed, pos, n)
  {
    if n != 0 {
      BytesOfWindow(feed, pos, win, n - 1);
      assert win[n - 1] == feed[pos + n - 1];
    }
  }

  lemma BoundedAlone(feed: seq<RawEvent>, pos: nat, win: seq<RawEvent>, lastPage: nat, maxRows: int, byteBudget: int)
    requires pos + |win| <= |feed| && win == feed[pos..pos + |win|] && win != []
    requires Bounded(feed, pos, |win|, lastPage, maxRows, byteBudget)
    ensures WithinBounds(win, maxRows, byteBudget)
  {
    BytesOfWindow(feed, pos, win, |win| - lastPage);
    assert Bounded(win, 0, |win|, lastPage, maxRows, byteBudget);
  }

  /** The read limit of the next page, 0 when the row cap is reached. */
  function ReadLimit(rows: nat, maxRows: int): nat {
    if maxRows <= 0 then WINDOW_READ_CHUNK
    else if maxRows - rows <= 0 then 0
    else if maxRows - rows < WINDOW_READ_CHUNK then maxRows - rows else WINDOW_READ_CHUNK
  }

  /**
   One window: the next rows of the feed, none skipped or repeated, at most
   `maxRows` of them if that is positive, and with all pages but the last under a
   positive byte budget. It is empty only when the feed is exhausted.
   */
  method NextWindow(feed: seq<RawEvent>, after: Option<RowKey>, maxRows: int, byteBudget: int, calm: bool,
      ghost pos: nat)
    returns (ok: bool, win: seq<RawEvent>, last: Option<RowKey>, ghost lastPage: nat)
    requires InKeyOrder(feed) && Consumed(feed, after, pos)
    ensures ok ==> pos + |win| <= |feed| && win == feed[pos..pos + |win|] && Consumed(feed, last, pos + |win|)
    ensures ok ==> (win == [] <==> pos == |feed|)
    ensures ok ==> Bounded(feed, pos, |win|, lastPage, maxRows, byteBudget)
    ensures ok ==> EndsForCause(feed, pos, |win|, maxRows, byteBudget)
    ensures calm ==> ok
  {
    win, last, lastPage := [], after, 0;
    var winBytes: nat, limit: nat := 0, ReadLimit(0, maxRows);
    while 0 < limit
      invariant Loaded(feed, pos, win, winBytes, last)
      invariant Bounded(feed, pos, |win|, lastPage, maxRows, byteBudget)
      invariant 0 < limit ==>
          limit == ReadLimit(|win|, maxRows) && (0 < byteBudget && 0 < |win| ==> winBytes < byteBudget)
      invariant limit == 0 ==> EndsForCause(feed, pos, |win|, maxRows, byteBudget) && (0 < |win| || pos == |feed|)
      decreases limit != 0, |feed| - pos - |win|
    {
      var got;
      ok, got, win, winBytes, last := AddPage(feed, win, winBytes, last, limit, calm, pos);
      if !ok {
        return;
      }
      if 0 < got {
        lastPage := got;
      }
      if got < limit || (0 < byteBudget && byteBudget <= winBytes) {
        limit := 0; // feed exhausted, or byte budget reached
      } else {
        limit := ReadLimit(|win|, maxRows);
      }
    }
    ok := true;
  }
}
