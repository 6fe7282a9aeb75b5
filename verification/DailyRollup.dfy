/** `subject_bucket`: FNV-1a over the subject's UTF-8 bytes, modulo the bucket count. */
module Buckets {
  const NUM_BUCKETS: nat := 256
  const OFFSET_32: nat := 2166136261
  const PRIME_32: nat := 16777619

  /** The UTF-8 bytes of a character; Go strings are byte strings. */
  function CharBytes(c: char): seq<nat> {
    var u: nat := c as int;
    if u < 0x80 then [u]
    else if u < 0x800 then [0xC0 + u / 64, 0x80 + u % 64]
    else if u < 0x1_0000 then [0xE0 + u / 4096, 0x80 + u / 64 % 64, 0x80 + u % 64]
    else [0xF0 + u / 262144, 0x80 + u / 4096 % 64, 0x80 + u / 64 % 64, 0x80 + u % 64]
  }

  function Bytes(s: string): seq<nat> {
    if s == [] then [] else Bytes(s[..|s| - 1]) + CharBytes(s[|s| - 1])
  }

  /** Exclusive or of the low `bits` bits. */
  function Xor(a: nat, b: nat, bits: nat): nat {
    if bits == 0 then 0 else 2 * Xor(a / 2, b / 2, bits - 1) + (a + b) % 2
  }

  /** One 32-bit step: the byte is folded into the low bits, then multiplied by the prime. */
  function Mix(h: nat, byte: nat): nat {
    (h / 256 * 256 + Xor(h % 256, byte, 8)) * PRIME_32 % 0x1_0000_0000
  }

  function Fnv1a(bytes: seq<nat>): nat {
    if bytes == [] then OFFSET_32 else Mix(Fnv1a(bytes[..|bytes| - 1]), bytes[|bytes| - 1])
  }

  function HashBucket(subject: string): (b: nat)
    ensures b < NUM_BUCKETS
  {
    Fnv1a(Bytes(subject)) % NUM_BUCKETS
  }

  /** The loop over the bytes. */
  method ComputeHashBucket(subject: string) returns (b: nat)
    ensures b == HashBucket(subject)
  {
    var h, bytes := OFFSET_32, Bytes(subject);
    for i := 0 to |bytes|
      invariant h == Fnv1a(bytes[..i])
    {
      assert bytes[..i + 1][..i] == bytes[..i];
      h := (h / 256 * 256 + Xor(h % 256, bytes[i], 8)) * PRIME_32 % 0x1_0000_0000;
    }
    assert bytes[..|bytes|] == bytes;
    b := h % NUM_BUCKETS;
  }

  /** A bit of the exclusive or is set exactly when it is set in one of the two. */
  lemma {:induction false} XorBit(a: nat, b: nat, bits: nat, i: nat)
    requires i < bits
    ensures Bit(Xor(a, b, bits), i) <==> (Bit(a, i) != Bit(b, i))
  {
    var rest := Xor(a / 2, b / 2, bits - 1);
    assert Xor(a, b, bits) / 2 == rest && Xor(a, b, bits) % 2 == (a + b) % 2;
    if 0 < i {
      XorBit(a / 2, b / 2, bits - 1, i - 1);
    }
  }

  predicate Bit(a: nat, i: nat) {
    if i == 0 then a % 2 == 1 else Bit(a / 2, i - 1)
  }
}

/**
 The catalog tables the daily refresh works on, and the effect of each of its
 transactions.
 */
module RollupCatalog {
  import opened Signals
  import opened Rollup
  import opened Buckets

  const DAY: int := 86_400_000_000

  /** lake.signals_latest: for each key, the rows stored under it (more than one would be a duplicate). */
  type Table = map<Key, seq<Agg>>

  function RowsAt(t: Table, k: Key): seq<Agg> {
    if k in t then t[k] else []
  }

  /** What the recompute stores under a key: one row, or none. */
  ghost function Recomputed(rows: set<Row>, k: Key): seq<Agg> {
    AsRows(RollupSelect(rows), k)
  }

  function AsRows(m: map<Key, Agg>, k: Key): seq<Agg> {
    if k in m then [m[k]] else []
  }

  /**
   `base` is lake.signals, `mark` the watermark row of lake.ingest_progress and
   `late` the distinct subjects of lake.rollup_late_subjects.
   */
  datatype Catalog = Catalog(base: set<Row>, table: Table, mark: Option<int>, late: set<string>)

  ghost function Window(rows: set<Row>, from: int, to: int): set<Row> {
    set r | r in rows && from <= r.ts < to
  }

  ghost function InBucket(rows: set<Row>, b: nat): set<Row> {
    set r | r in rows && HashBucket(r.key.subject) == b
  }

  ghost function OfSubjects(rows: set<Row>, ss: set<string>): set<Row> {
    set r | r in rows && r.key.subject in ss
  }

  // ----- statements

  ghost function Insert(t: Table, rows: map<Key, Agg>): Table {
    map k | k in t.Keys + rows.Keys :: RowsAt(t, k) + AsRows(rows, k)
  }

  function DeleteSubjects(t: Table, ss: set<string>): Table {
    map k | k in t && k.subject !in ss :: t[k]
  }

  /** The merged rows a LEFT JOIN of one tail row with the rows stored under its key produces. */
  function LeftJoin(stored: seq<Agg>, tail: Agg): seq<Agg> {
    if stored == [] then [MergeAgg(None, tail)]
    else seq(|stored|, i requires 0 <= i < |stored| => MergeAgg(Some(stored[i]), tail))
  }

  /** Delete the keys the tail touches and insert their merged rows. */
  function FoldTable(t: Table, tail: map<Key, Agg>): Table {
    map k | k in t.Keys + tail.Keys :: if k in tail then LeftJoin(RowsAt(t, k), tail[k]) else t[k]
  }

  // ----- transactions

  /** The subjects a batch records as late, given the watermark and dedup set in memory. */
  ghost function LateMarks(batch: set<Row>, mark: Option<int>, seen: set<string>): set<string> {
    if mark.None? then {}
    else set r | r in batch && r.ts < mark.value && r.key.subject !in seen :: r.key.subject
  }

  ghost function CommitTx(c: Catalog, batch: set<Row>, marks: set<string>): Catalog {
    c.(base := c.base + batch, late := c.late + marks)
  }

  ghost function SeedBucketTx(c: Catalog, b: nat, w: int): Catalog {
    c.(table := Insert(c.table, RollupSelect(InBucket(Before(c.base, w), b))))
  }

  ghost function SeedFinishTx(c: Catalog, w: int): Catalog {
    c.(mark := Some(w), late := {})
  }

  ghost function FoldTx(c: Catalog, from: int, to: int): Catalog {
    c.(table := FoldTable(c.table, RollupSelect(Window(c.base, from, to))), mark := Some(to))
  }

  ghost function LateChunkTx(c: Catalog, chunk: set<string>, w: int): Catalog {
    c.(table := Insert(DeleteSubjects(c.table, chunk), RollupSelect(OfSubjects(Before(c.base, w), chunk))),
       late := c.late - chunk)
  }

  // ----- the invariant of the stored rollup

  ghost predicate OneRowPerKey(t: Table) {
    forall k :: |RowsAt(t, k)| <= 1
  }

  /** Below watermark `w`, every subject without a late mark is stored exactly as the full recompute has it. */
  ghost predicate ExactBelow(c: Catalog, w: int) {
    forall k: Key :: k.subject !in c.late ==> RowsAt(c.table, k) == Recomputed(Before(c.base, w), k)
  }

  ghost predicate Exact(c: Catalog) {
    && Coherent(c.base)
    && (c.mark.Some? ==> 0 < c.mark.value && OneRowPerKey(c.table) && ExactBelow(c, c.mark.value))
  }

  /**
   The account of every key, marked ones included. `pending` holds the rows that
   arrived below the watermark since their subject was last recomputed: each has its
   subject marked, and the table is the recompute of all other rows below it.
   */
  ghost predicate Accounted(c: Catalog, pending: set<Row>) {
    && Coherent(c.base)
    && (c.mark.None? ==> pending == {})
    && (c.mark.Some? ==>
          && 0 < c.mark.value && pending <= Before(c.base, c.mark.value) && Subjects(pending) <= c.late
          && IsRecompute(c.table, Before(c.base, c.mark.value) - pending))
  }

  ghost predicate IsRecompute(t: Table, rows: set<Row>) {
    forall k :: RowsAt(t, k) == Recomputed(rows, k)
  }

  lemma AccountedIsExact(c: Catalog, pending: set<Row>)
    requires Accounted(c, pending)
    ensures Exact(c)
  {
    if c.mark.Some? {
      var below := Before(c.base, c.mark.value);
      forall k: Key
        ensures |RowsAt(c.table, k)| <= 1
        ensures k.subject !in c.late ==> RowsAt(c.table, k) == Recomputed(below, k)
      {
        assert RowsAt(c.table, k) == Recomputed(below - pending, k);
        if k.subject !in c.late {
          NothingPending(below, pending, k);
        }
      }
    }
  }

  /** Rows of other subjects do not matter to a key. */
  lemma NothingPending(rows: set<Row>, pending: set<Row>, k: Key)
    requires k.subject !in Subjects(pending)
    ensures Recomputed(rows - pending, k) == Recomputed(rows, k)
  {
    assert Group(rows - pending, k) == Group(rows, k);
    RecomputedIsLocal(rows - pending, rows, k);
  }

  /** The part of a seed that has landed: buckets below `n`. */
  ghost predicate SeededTo(c: Catalog, w: int, n: nat) {
    forall k: Key ::
      RowsAt(c.table, k) == if HashBucket(k.subject) < n then Recomputed(Before(c.base, w), k) else []
  }

  // ----- each transaction keeps it

  lemma RecomputedIsLocal(a: set<Row>, b: set<Row>, k: Key)
    requires Group(a, k) == Group(b, k)
    ensures Recomputed(a, k) == Recomputed(b, k)
  {
    SelectIsLocal(a, b, k);
  }

  lemma CommitKeepsExact(c: Catalog, batch: set<Row>, marks: set<string>)
    requires Exact(c) && Coherent(c.base + batch)
    requires c.mark.Some? ==> forall r :: r in batch && r.ts < c.mark.value ==> r.key.subject in c.late + marks
    ensures Exact(CommitTx(c, batch, marks))
  {
    if c.mark.Some? {
      var c', w := CommitTx(c, batch, marks), c.mark.value;
      forall k: Key | k.subject !in c'.late ensures RowsAt(c'.table, k) == Recomputed(Before(c'.base, w), k) {
        assert Group(Before(c.base, w), k) == Group(Before(c'.base, w), k);
        RecomputedIsLocal(Before(c.base, w), Before(c'.base, w), k);
      }
    }
  }

  /** The recompute of one bucket's rows: that bucket's keys as in the full recompute, no others. */
  lemma BucketRecompute(rows: set<Row>, b: nat, k: Key)
    ensures Recomputed(InBucket(rows, b), k) == if HashBucket(k.subject) == b then Recomputed(rows, k) else []
  {
    var part := InBucket(rows, b);
    if HashBucket(k.subject) == b {
      assert Group(part, k) == Group(rows, k);
      RecomputedIsLocal(part, rows, k);
    } else {
      assert Group(part, k) == {};
      SelectKeys(part, k);
    }
  }

  lemma InsertAppends(t: Table, rows: set<Row>, k: Key)
    ensures RowsAt(Insert(t, RollupSelect(rows)), k) == RowsAt(t, k) + Recomputed(rows, k)
  {
  }

  lemma SeedBucketAdvances(c: Catalog, w: int, n: nat)
    requires SeededTo(c, w, n)
    ensures SeededTo(SeedBucketTx(c, n, w), w, n + 1)
  {
    var c' := SeedBucketTx(c, n, w);
    forall k: Key
      ensures RowsAt(c'.table, k) == if HashBucket(k.subject) < n + 1 then Recomputed(Before(c'.base, w), k) else []
    {
      assert RowsAt(c.table, k) == if HashBucket(k.subject) < n then Recomputed(Before(c.base, w), k) else [];
      SeedBucketAt(c, w, n, k);
    }
  }

  lemma SeedBucketAt(c: Catalog, w: int, n: nat, k: Key)
    requires RowsAt(c.table, k) == if HashBucket(k.subject) < n then Recomputed(Before(c.base, w), k) else []
    ensures
      RowsAt(SeedBucketTx(c, n, w).table, k) ==
      if HashBucket(k.subject) < n + 1 then Recomputed(Before(c.base, w), k) else []
  {
    var all := Before(c.base, w);
    InsertAppends(c.table, InBucket(all, n), k);
    BucketRecompute(all, n, k);
  }

  /** After all buckets the table is the recompute, whatever it was before the seed. */
  lemma SeedFinishIsRecompute(c: Catalog, w: int)
    requires SeededTo(c, w, NUM_BUCKETS)
    ensures IsRecompute(c.table, Before(c.base, w))
    ensures Coherent(c.base) && 0 < w ==> Accounted(SeedFinishTx(c, w), {})
  {
    forall k: Key ensures RowsAt(c.table, k) == Recomputed(Before(c.base, w), k) {
      assert HashBucket(k.subject) < NUM_BUCKETS;
    }
    assert Before(c.base, w) - {} == Before(c.base, w);
  }

  lemma FoldTableAt(t: Table, stored: map<Key, Agg>, tail: map<Key, Agg>, k: Key)
    requires RowsAt(t, k) == AsRows(stored, k)
    ensures RowsAt(FoldTable(t, tail), k) == AsRows(Merge(stored, tail), k)
  {
    if k in tail && k in stored {
      assert LeftJoin([stored[k]], tail[k]) == [MergeAgg(Some(stored[k]), tail[k])];
    }
  }

  /** Folding one key that holds the recompute of all rows below `from` but `pending` extends that to `to`. */
  lemma FoldAt(c: Catalog, pending: set<Row>, from: int, to: int, k: Key)
    requires Coherent(c.base) && 0 < from < to && pending <= Before(c.base, from)
    requires RowsAt(c.table, k) == Recomputed(Before(c.base, from) - pending, k)
    ensures RowsAt(FoldTx(c, from, to).table, k) == Recomputed(Before(c.base, to) - pending, k)
  {
    var a, b := Before(c.base, from) - pending, Window(c.base, from, to);
    assert a + b == Before(c.base, to) - pending;
    FoldHomomorphismAt(a, b, from, k);
    FoldTableAt(c.table, RollupSelect(a), RollupSelect(b), k);
  }

  /** A commit's new rows below the watermark become pending. */
  ghost function PendingAfter(c: Catalog, pending: set<Row>, batch: set<Row>): set<Row> {
    if c.mark.None? then {} else pending + (Before(batch, c.mark.value) - c.base)
  }

  lemma CommitAccounts(c: Catalog, pending: set<Row>, batch: set<Row>, marks: set<string>)
    requires Accounted(c, pending) && Coherent(c.base + batch)
    requires c.mark.Some? ==> Subjects(Before(batch, c.mark.value)) <= c.late + marks
    ensures Accounted(CommitTx(c, batch, marks), PendingAfter(c, pending, batch))
  {
    if c.mark.Some? {
      var c', w, p' := CommitTx(c, batch, marks), c.mark.value, PendingAfter(c, pending, batch);
      assert Before(c'.base, w) - p' == Before(c.base, w) - pending;
      forall r | r in p' ensures r.key.subject in c'.late {
        if r in pending {
          assert r.key.subject in Subjects(pending);
        } else {
          assert r.key.subject in Subjects(Before(batch, w));
        }
      }
    }
  }

  lemma FoldAccounts(c: Catalog, pending: set<Row>, to: int)
    requires Accounted(c, pending) && c.mark.Some? && c.mark.value < to
    ensures Accounted(FoldTx(c, c.mark.value, to), pending)
  {
    var c' := FoldTx(c, c.mark.value, to);
    forall k ensures RowsAt(c'.table, k) == Recomputed(Before(c.base, to) - pending, k) {
      FoldAt(c, pending, c.mark.value, to, k);
    }
  }

  lemma LateChunkAccounts(c: Catalog, pending: set<Row>, chunk: set<string>)
    requires Accounted(c, pending) && c.mark.Some?
    ensures Accounted(LateChunkTx(c, chunk, c.mark.value), pending - OfSubjects(pending, chunk))
  {
    var c', below := LateChunkTx(c, chunk, c.mark.value), Before(c.base, c.mark.value);
    var p' := pending - OfSubjects(pending, chunk);
    assert Subjects(p') <= c'.late by {
      forall r | r in p' ensures r.key.subject in c.late - chunk {
        assert r.key.subject in Subjects(pending);
      }
    }
    forall k ensures RowsAt(c'.table, k) == Recomputed(below - p', k) {
      LateChunkAt(c, pending, chunk, k);
    }
  }

  lemma LateChunkAt(c: Catalog, pending: set<Row>, chunk: set<string>, k: Key)
    requires c.mark.Some? && RowsAt(c.table, k) == Recomputed(Before(c.base, c.mark.value) - pending, k)
    ensures
      RowsAt(LateChunkTx(c, chunk, c.mark.value).table, k) ==
      Recomputed(Before(c.base, c.mark.value) - (pending - OfSubjects(pending, chunk)), k)
  {
    var below := Before(c.base, c.mark.value);
    var rows, p' := OfSubjects(below, chunk), pending - OfSubjects(pending, chunk);
    InsertAppends(DeleteSubjects(c.table, chunk), rows, k);
    if k.subject in chunk {
      assert Group(rows, k) == Group(below - p', k);
      RecomputedIsLocal(rows, below - p', k);
    } else {
      assert Group(rows, k) == {};
      SelectKeys(rows, k);
      assert Group(below - pending, k) == Group(below - p', k);
      RecomputedIsLocal(below - pending, below - p', k);
    }
  }

  /** With no late mark left nothing is pending: the table is the full recompute, row for row. */
  lemma NoMarksNothingPending(c: Catalog, pending: set<Row>)
    requires Accounted(c, pending) && c.mark.Some? && c.late == {}
    ensures pending == {} && IsRecompute(c.table, Before(c.base, c.mark.value))
  {
    assert forall r :: r in pending ==> r.key.subject in Subjects(pending);
    assert Before(c.base, c.mark.value) - {} == Before(c.base, c.mark.value);
  }
}
