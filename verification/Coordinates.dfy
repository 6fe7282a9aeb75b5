/**
 Merging raw latitude, longitude and HDOP signals into location signals.
 Timestamps are microseconds.
 */
module Coordinates {
  import opened Signals
  import opened Sorting

  const MAX_LAT_LONG_DUR: int := 500_000
  const LATITUDE: string := "currentLocationLatitude"
  const LONGITUDE: string := "currentLocationLongitude"
  const HDOP: string := "dimoAftermarketHDOP"
  const COORDINATES: string := "currentLocationCoordinates"
  const PRUNE: string := "___prune"

  datatype Float = Finite(v: real) | Infinite | NaN

  const ZERO: Float := Finite(0.0)

  datatype Location = Location(lat: Float, lon: Float, hdop: Float)

  const NOWHERE: Location := Location(ZERO, ZERO, ZERO)

  /** `header` stands for the CloudEvent header (source, producer, subject). */
  datatype Signal = Signal(header: nat, ceid: nat, ts: int, name: string, number: Float, loc: Location)

  predicate ValidLatLon(lat: Float, lon: Float) {
    && lat.Finite? && lon.Finite? && !(lat.v == 0.0 && lon.v == 0.0)
    && -90.0 <= lat.v <= 90.0 && -180.0 <= lon.v <= 180.0
  }

  // ----- the sort order: timestamp, then name in byte order

  predicate SignalLE(a: Signal, b: Signal) {
    a.ts < b.ts || (a.ts == b.ts && StringLE(a.name, b.name))
  }

  lemma SignalOrder()
    ensures TotalPreorder(SignalLE)
  {
    forall a: Signal, b: Signal ensures SignalLE(a, b) || SignalLE(b, a) {
      StringTotal(a.name, b.name);
    }
    forall a: Signal, b: Signal, c: Signal | SignalLE(a, b) && SignalLE(b, c) ensures SignalLE(a, c) {
      if a.ts == b.ts == c.ts {
        StringTransitive(a.name, b.name, c.name);
      }
    }
  }

  ghost predicate InTimeOrder(signals: seq<Signal>) {
    forall i, j :: 0 <= i < j < |signals| ==> signals[i].ts <= signals[j].ts
  }

  lemma SortedInTime(signals: seq<Signal>)
    requires Sorted(SignalLE, signals)
    ensures InTimeOrder(signals)
  {
    forall i, j | 0 <= i < j < |signals| ensures signals[i].ts <= signals[j].ts {
      assert SignalLE(signals[i], signals[j]);
    }
  }

  // ----- the store

  /** Indices of the parts found so far (-1 for none) and the timestamp of the earliest. */
  datatype Triple = Triple(lat: int, lon: int, hdop: int, time: int)

  const EMPTY: Triple := Triple(-1, -1, -1, ZERO_TIME)

  datatype Store = Store(signals: seq<Signal>, active: Triple, created: seq<Signal>, failed: bool)

  predicate Fits(n: nat, t: Triple) {
    -1 <= t.lat < n && -1 <= t.lon < n && -1 <= t.hdop < n
  }

  function Rename(signals: seq<Signal>, i: int): (r: seq<Signal>)
    requires -1 <= i < |signals|
    ensures |r| == |signals|
  {
    if i == -1 then signals else signals[i := signals[i].(name := PRUNE)]
  }

  predicate HasPair(t: Triple) {
    t.lat != -1 && t.lon != -1
  }

  predicate PairIsValid(signals: seq<Signal>, t: Triple)
    requires Fits(|signals|, t)
  {
    HasPair(t) && ValidLatLon(signals[t.lat].number, signals[t.lon].number)
  }

  /** A triple yields a location for a valid pair, and also for an HDOP on its own. */
  predicate Creates(signals: seq<Signal>, t: Triple)
    requires Fits(|signals|, t)
  {
    PairIsValid(signals, t) || t.hdop != -1
  }

  /** An unpaired or invalid coordinate is reported. */
  predicate Mismatched(signals: seq<Signal>, t: Triple)
    requires Fits(|signals|, t)
  {
    if HasPair(t) then !PairIsValid(signals, t) else t.lat != -1 || t.lon != -1
  }

  function Template(signals: seq<Signal>, t: Triple): Signal
    requires Fits(|signals|, t) && signals != []
  {
    if t.lat != -1 then signals[t.lat]
    else if t.lon != -1 then signals[t.lon]
    else if t.hdop != -1 then signals[t.hdop] else signals[0]
  }

  function LocationOf(signals: seq<Signal>, t: Triple): Signal
    requires Fits(|signals|, t) && signals != []
  {
    var loc :=
      if PairIsValid(signals, t) then Location(signals[t.lat].number, signals[t.lon].number, ZERO) else NOWHERE;
    var loc' := if t.hdop != -1 then loc.(hdop := signals[t.hdop].number) else loc;
    var template := Template(signals, t);
    Signal(template.header, template.ceid, t.time, COORDINATES, ZERO, loc')
  }

  /** tryCreateLocation: emit what the active triple gives, mark its parts for removal, start over. */
  function TryCreate(s: Store): (r: Store)
    requires Fits(|s.signals|, s.active) && s.signals != []
    ensures |r.signals| == |s.signals| && r.active == EMPTY
  {
    var t := s.active;
    Store(Rename(Rename(Rename(s.signals, t.lat), t.lon), t.hdop), EMPTY,
          if Creates(s.signals, t) then s.created + [LocationOf(s.signals, t)] else s.created,
          s.failed || Mismatched(s.signals, t))
  }

  /** The slot a signal name belongs to: 0 latitude, 1 longitude, 2 HDOP, -1 none. */
  function Slot(name: string): int {
    if name == LATITUDE then 0 else if name == LONGITUDE then 1 else if name == HDOP then 2 else -1
  }

  function Part(t: Triple, slot: int): int {
    if slot == 0 then t.lat else if slot == 1 then t.lon else if slot == 2 then t.hdop else -1
  }

  function WithPart(t: Triple, slot: int, i: int): Triple {
    if slot == 0 then t.(lat := i) else if slot == 1 then t.(lon := i) else t.(hdop := i)
  }

  /** The part of processSignal before the switch: a triple that is too old is closed. */
  function CloseIfOld(s: Store, i: nat): (r: Store)
    requires i < |s.signals| && Fits(|s.signals|, s.active)
    ensures |r.signals| == |s.signals| && (r.active == EMPTY || r.active == s.active)
  {
    if s.active.time != ZERO_TIME && MAX_LAT_LONG_DUR <= s.signals[i].ts - s.active.time then TryCreate(s) else s
  }

  function Process(s: Store, i: nat): (r: Store)
    requires i < |s.signals| && Fits(|s.signals|, s.active)
    ensures |r.signals| == |s.signals| && (Fits(i, s.active) ==> Fits(i + 1, r.active))
  {
    var s1, slot := CloseIfOld(s, i), Slot(s.signals[i].name);
    if slot == -1 then s1
    else
      var s2 := if Part(s1.active, slot) != -1 then TryCreate(s1) else s1;
      var t := WithPart(s2.active, slot, i);
      s2.(active := if t.time == ZERO_TIME then t.(time := s.signals[i].ts) else t)
  }

  // ----- what the pass does, in terms of the triples it closed

  predicate Nonempty(t: Triple) {
    t.lat != -1 || t.lon != -1 || t.hdop != -1
  }

  /** The signal at index `i` is part of the triple. */
  predicate Has(t: Triple, i: nat) {
    i == t.lat || i == t.lon || i == t.hdop
  }

  ghost predicate Used(ts: seq<Triple>, i: nat) {
    exists k :: 0 <= k < |ts| && Has(ts[k], i)
  }

  /** Each part is an earlier signal of the right name. */
  predicate WellPlaced(sorted: seq<Signal>, t: Triple, n: nat)
    requires n <= |sorted|
  {
    && Fits(n, t)
    && (t.lat != -1 ==> sorted[t.lat].name == LATITUDE)
    && (t.lon != -1 ==> sorted[t.lon].name == LONGITUDE)
    && (t.hdop != -1 ==> sorted[t.hdop].name == HDOP)
  }

  /** The triple is stamped with one of its parts, and every part lies less than 500 ms after that. */
  ghost predicate WellTimed(sorted: seq<Signal>, t: Triple)
    requires Fits(|sorted|, t)
  {
    && (exists i: nat :: Has(t, i) && sorted[i].ts == t.time)
    && forall i: nat :: Has(t, i) ==> t.time <= sorted[i].ts < t.time + MAX_LAT_LONG_DUR
  }

  ghost predicate Stamped(sorted: seq<Signal>) {
    forall i :: 0 <= i < |sorted| ==> sorted[i].ts != ZERO_TIME
  }

  function CreatedOf(sorted: seq<Signal>, ts: seq<Triple>): seq<Signal>
    requires sorted != [] && forall t :: t in ts ==> Fits(|sorted|, t)
  {
    if ts == [] then []
    else
      var t := ts[|ts| - 1];
      CreatedOf(sorted, ts[..|ts| - 1]) + if Creates(sorted, t) then [LocationOf(sorted, t)] else []
  }

  ghost predicate SomeMismatch(sorted: seq<Signal>, ts: seq<Triple>)
    requires forall t :: t in ts ==> Fits(|sorted|, t)
  {
    exists t :: t in ts && Mismatched(sorted, t)
  }

  /** The triples are in place, nonempty, and no signal is in two of them. */
  ghost predicate Triples(sorted: seq<Signal>, ts: seq<Triple>, n: nat) {
    && n <= |sorted|
    && (forall t :: t in ts ==> WellPlaced(sorted, t, n) && Nonempty(t))
    && forall a, b, i: nat :: 0 <= a < b < |ts| && Has(ts[a], i) ==> !Has(ts[b], i)
  }

  /** Every raw coordinate among the first `n` signals is in a closed triple or in the active one, not both. */
  ghost predicate Placed(sorted: seq<Signal>, ts: seq<Triple>, active: Triple, n: nat)
    requires n <= |sorted|
  {
    && WellPlaced(sorted, active, n)
    && (forall i: nat {:trigger Used(ts, i)} :: i < n && Slot(sorted[i].name) != -1 ==> Has(active, i) || Used(ts, i))
    && forall i: nat {:trigger Used(ts, i)} :: Has(active, i) ==> !Used(ts, i)
  }

  ghost predicate Timing(sorted: seq<Signal>, ts: seq<Triple>, active: Triple)
    requires Fits(|sorted|, active) && forall t :: t in ts ==> Fits(|sorted|, t)
  {
    Stamped(sorted) ==>
      && (forall t :: t in ts ==> WellTimed(sorted, t))
      && (active.time == ZERO_TIME <==> !Nonempty(active))
      && (Nonempty(active) ==> WellTimed(sorted, active))
  }

  /** Used signals are marked for removal, all others are as they were. */
  ghost predicate Renamed(sorted: seq<Signal>, signals: seq<Signal>, ts: seq<Triple>) {
    && |signals| == |sorted|
    && forall i: nat {:trigger signals[i]} :: i < |sorted| ==>
         signals[i] == if Used(ts, i) then sorted[i].(name := PRUNE) else sorted[i]
  }

  ghost predicate Invariant(sorted: seq<Signal>, s: Store, ts: seq<Triple>, n: nat) {
    && sorted != [] && Triples(sorted, ts, n) && Placed(sorted, ts, s.active, n)
    && Renamed(sorted, s.signals, ts)
    && s.created == CreatedOf(sorted, ts) && (s.failed <==> SomeMismatch(sorted, ts))
    && Timing(sorted, ts, s.active)
  }

  /** The closed triples after tryCreateLocation. */
  function Closed(ts: seq<Triple>, t: Triple): seq<Triple> {
    if Nonempty(t) then ts + [t] else ts
  }

  lemma UsedAppend(ts: seq<Triple>, t: Triple, i: nat)
    ensures Used(ts + [t], i) <==> Used(ts, i) || Has(t, i)
  {
    if Used(ts, i) {
      var k :| 0 <= k < |ts| && Has(ts[k], i);
      assert Has((ts + [t])[k], i);
    }
    if Has(t, i) {
      assert Has((ts + [t])[|ts|], i);
    }
  }

  lemma RenameCloses(sorted: seq<Signal>, signals: seq<Signal>, ts: seq<Triple>, t: Triple)
    requires Renamed(sorted, signals, ts) && Fits(|sorted|, t)
    ensures Renamed(sorted, Rename(Rename(Rename(signals, t.lat), t.lon), t.hdop), ts + [t])
  {
    forall i: nat ensures Used(ts + [t], i) <==> Used(ts, i) || Has(t, i) {
      UsedAppend(ts, t, i);
    }
  }

  /** What a triple yields depends on values, headers and ids only, and its parts still carry those. */
  lemma YieldUnchanged(sorted: seq<Signal>, signals: seq<Signal>, ts: seq<Triple>, t: Triple)
    requires sorted != [] && Renamed(sorted, signals, ts) && Fits(|sorted|, t) && Nonempty(t)
    ensures Creates(signals, t) == Creates(sorted, t) && Mismatched(signals, t) == Mismatched(sorted, t)
    ensures LocationOf(signals, t) == LocationOf(sorted, t)
  {
    forall i: nat | i < |sorted|
      ensures signals[i].number == sorted[i].number
      ensures signals[i].header == sorted[i].header && signals[i].ceid == sorted[i].ceid
    {
    }
  }

  lemma ClosePlaced(sorted: seq<Signal>, ts: seq<Triple>, t: Triple, n: nat)
    requires Triples(sorted, ts, n) && Placed(sorted, ts, t, n) && Nonempty(t)
    ensures Triples(sorted, ts + [t], n) && Placed(sorted, ts + [t], EMPTY, n)
  {
    var ts' := ts + [t];
    forall i: nat ensures Used(ts', i) <==> Used(ts, i) || Has(t, i) {
      UsedAppend(ts, t, i);
    }
    forall a, b, i: nat | 0 <= a < b < |ts'| && Has(ts'[a], i) ensures !Has(ts'[b], i) {
      if b == |ts| {
        assert Used(ts, i);
      }
    }
  }

  lemma CloseKeeps(sorted: seq<Signal>, s: Store, ts: seq<Triple>, n: nat)
    requires Invariant(sorted, s, ts, n)
    ensures Invariant(sorted, TryCreate(s), Closed(ts, s.active), n) && !Nonempty(TryCreate(s).active)
  {
    var t, ts', s' := s.active, Closed(ts, s.active), TryCreate(s);
    if Nonempty(t) {
      RenameCloses(sorted, s.signals, ts, t);
      ClosePlaced(sorted, ts, t, n);
      YieldUnchanged(sorted, s.signals, ts, t);
      CloseYields(sorted, ts, t);
    }
  }

  /** The created signals and the mismatches after one more closed triple. */
  lemma CloseYields(sorted: seq<Signal>, ts: seq<Triple>, t: Triple)
    requires sorted != [] && Fits(|sorted|, t) && forall x :: x in ts ==> Fits(|sorted|, x)
    ensures forall x :: x in ts + [t] <==> x in ts || x == t
    ensures
      CreatedOf(sorted, ts + [t]) ==
      CreatedOf(sorted, ts) + if Creates(sorted, t) then [LocationOf(sorted, t)] else []
    ensures SomeMismatch(sorted, ts + [t]) <==> SomeMismatch(sorted, ts) || Mismatched(sorted, t)
  {
    assert (ts + [t])[..|ts|] == ts;
    assert t in ts + [t] && forall x :: x in ts ==> x in ts + [t];
  }

  /** Only the timing of a stamped batch needs the sort: a part joins less than 500 ms after the triple's time. */
  lemma AddKeeps(sorted: seq<Signal>, s: Store, ts: seq<Triple>, n: nat, s': Store)
    requires Invariant(sorted, s, ts, n) && n < |sorted| && InTimeOrder(sorted)
    requires Slot(sorted[n].name) != -1 && Part(s.active, Slot(sorted[n].name)) == -1
    requires s.active.time != ZERO_TIME ==> sorted[n].ts - s.active.time < MAX_LAT_LONG_DUR
    requires
      var t := WithPart(s.active, Slot(sorted[n].name), n);
      s' == s.(active := if t.time == ZERO_TIME then t.(time := sorted[n].ts) else t)
    ensures Invariant(sorted, s', ts, n + 1)
  {
    var t := s'.active;
    AddPlaced(sorted, s.active, ts, t, n);
    if Stamped(sorted) {
      AddTimed(sorted, s.active, t, n);
    }
  }

  lemma AddPlaced(sorted: seq<Signal>, was: Triple, ts: seq<Triple>, t: Triple, n: nat)
    requires n < |sorted| && Triples(sorted, ts, n) && Placed(sorted, ts, was, n)
    requires Slot(sorted[n].name) != -1 && Part(was, Slot(sorted[n].name)) == -1
    requires t == WithPart(was, Slot(sorted[n].name), n).(time := t.time)
    ensures Triples(sorted, ts, n + 1) && Placed(sorted, ts, t, n + 1)
    ensures forall i: nat :: Has(t, i) <==> Has(was, i) || i == n
  {
    NotUsedYet(sorted, ts, n);
  }

  lemma AddTimed(sorted: seq<Signal>, was: Triple, t: Triple, n: nat)
    requires Fits(n, was) && Fits(|sorted|, t) && n < |sorted| && InTimeOrder(sorted) && Stamped(sorted)
    requires forall i: nat :: Has(t, i) <==> Has(was, i) || i == n
    requires was.time == ZERO_TIME <==> !Nonempty(was)
    requires Nonempty(was) ==> WellTimed(sorted, was) && sorted[n].ts - was.time < MAX_LAT_LONG_DUR
    requires t.time == if was.time == ZERO_TIME then sorted[n].ts else was.time
    ensures WellTimed(sorted, t) && t.time != ZERO_TIME
  {
    assert Has(t, n);
    if Nonempty(was) {
      var j: nat :| Has(was, j) && sorted[j].ts == was.time;
      assert sorted[j].ts <= sorted[n].ts;
      assert Has(t, j);
    } else {
      assert forall i: nat :: !Has(was, i);
    }
  }

  lemma SkipKeeps(sorted: seq<Signal>, s: Store, ts: seq<Triple>, n: nat)
    requires Invariant(sorted, s, ts, n) && n < |sorted| && Slot(sorted[n].name) == -1
    ensures Invariant(sorted, s, ts, n + 1)
  {
  }

  predicate IsOld(sorted: seq<Signal>, t: Triple, n: nat)
    requires n < |sorted|
  {
    t.time != ZERO_TIME && MAX_LAT_LONG_DUR <= sorted[n].ts - t.time
  }

  /** The active triple closes when it is too old for the next signal, or the signal's place is taken. */
  predicate Closes(sorted: seq<Signal>, t: Triple, n: nat)
    requires n < |sorted|
  {
    IsOld(sorted, t, n) || Part(t, Slot(sorted[n].name)) != -1
  }

  /** The closed triples after one signal more. */
  function ClosedBy(sorted: seq<Signal>, ts: seq<Triple>, t: Triple, n: nat): seq<Triple>
    requires n < |sorted|
  {
    if Closes(sorted, t, n) then Closed(ts, t) else ts
  }

  lemma ProcessKeeps(sorted: seq<Signal>, s: Store, ts: seq<Triple>, n: nat, s': Store, ts': seq<Triple>)
    requires Invariant(sorted, s, ts, n) && n < |sorted| && InTimeOrder(sorted) && s' == Process(s, n)
    requires ts' == ClosedBy(sorted, ts, s.active, n)
    ensures Invariant(sorted, s', ts', n + 1)
  {
    NotUsedYet(sorted, ts, n);
    var s2, slot := s, Slot(sorted[n].name);
    if Closes(sorted, s.active, n) {
      CloseKeeps(sorted, s, ts, n);
      s2 := TryCreate(s);
    }
    if slot == -1 {
      SkipKeeps(sorted, s2, ts', n);
    } else {
      AddKeeps(sorted, s2, ts', n, s');
    }
  }

  lemma NotUsedYet(sorted: seq<Signal>, ts: seq<Triple>, n: nat)
    requires Triples(sorted, ts, n)
    ensures !Used(ts, n)
  {
    forall k | 0 <= k < |ts| ensures !Has(ts[k], n) {
      assert ts[k] in ts;
    }
  }

  // ----- nothing that belongs together is separated

  /** The signal cannot join the triple: it comes 500 ms after it or later, or its place is taken. */
  predicate Apart(sorted: seq<Signal>, t: Triple, i: nat)
    requires i < |sorted|
  {
    MAX_LAT_LONG_DUR <= sorted[i].ts - t.time || Part(t, Slot(sorted[i].name)) != -1
  }

  /** The first signal of `next` could not join `t`. */
  ghost predicate Parted(sorted: seq<Signal>, t: Triple, next: Triple) {
    exists i: nat :: i < |sorted| && Has(next, i) && (forall j: nat :: Has(next, j) ==> i <= j) && Apart(sorted, t, i)
  }

  ghost predicate Greedy(sorted: seq<Signal>, ts: seq<Triple>) {
    forall k {:trigger Parted(sorted, ts[k], ts[k + 1])} :: 0 <= k < |ts| - 1 ==> Parted(sorted, ts[k], ts[k + 1])
  }

  /** The triples so far were parted for cause, the active one included; with none active, all that follows is late. */
  ghost predicate Tail(sorted: seq<Signal>, ts: seq<Triple>, active: Triple, n: nat) {
    && Greedy(sorted, ts)
    && (ts != [] && Nonempty(active) ==> Parted(sorted, ts[|ts| - 1], active))
    && (ts != [] && !Nonempty(active) ==>
          forall j {:trigger sorted[j]} :: n <= j < |sorted| ==> MAX_LAT_LONG_DUR <= sorted[j].ts - ts[|ts| - 1].time)
  }

  lemma GreedyAppend(sorted: seq<Signal>, ts: seq<Triple>, t: Triple)
    requires Greedy(sorted, ts) && (ts != [] ==> Parted(sorted, ts[|ts| - 1], t))
    ensures Greedy(sorted, ts + [t])
  {
    var ts' := ts + [t];
    forall k | 0 <= k < |ts'| - 1 ensures Parted(sorted, ts'[k], ts'[k + 1]) {
      if k < |ts| - 1 {
        assert Parted(sorted, ts[k], ts[k + 1]);
      }
    }
  }

  lemma TailAfterOld(sorted: seq<Signal>, ts: seq<Triple>, t: Triple, n: nat)
    requires InTimeOrder(sorted) && Tail(sorted, ts, t, n) && Nonempty(t)
    requires n < |sorted| && MAX_LAT_LONG_DUR <= sorted[n].ts - t.time
    ensures Tail(sorted, ts + [t], EMPTY, n)
  {
    GreedyAppend(sorted, ts, t);
    forall j | n <= j < |sorted| ensures MAX_LAT_LONG_DUR <= sorted[j].ts - t.time {
      assert n < j ==> sorted[n].ts <= sorted[j].ts;
    }
  }

  lemma TailAfterTaken(sorted: seq<Signal>, ts: seq<Triple>, t: Triple, t': Triple, n: nat)
    requires Tail(sorted, ts, t, n) && Nonempty(t) && n < |sorted| && Part(t, Slot(sorted[n].name)) != -1
    requires forall i: nat :: Has(t', i) <==> i == n
    ensures Tail(sorted, ts + [t], t', n + 1)
  {
    GreedyAppend(sorted, ts, t);
    assert Has(t', n) && Apart(sorted, t, n);
    assert Parted(sorted, t, t');
  }

  lemma TailAfterAdd(sorted: seq<Signal>, ts: seq<Triple>, t: Triple, t': Triple, n: nat)
    requires Tail(sorted, ts, t, n) && n < |sorted| && Fits(n, t) && Fits(|sorted|, t')
    requires forall i: nat :: Has(t', i) <==> Has(t, i) || i == n
    ensures Tail(sorted, ts, t', n + 1)
  {
    assert Has(t', n);
    if ts != [] {
      var last := ts[|ts| - 1];
      if Nonempty(t) {
        var i: nat :| i < |sorted| && Has(t, i) && (forall j: nat :: Has(t, j) ==> i <= j) && Apart(sorted, last, i);
        assert Has(t', i);
      } else {
        assert forall i: nat :: !Has(t, i);
        assert Apart(sorted, last, n);
      }
      assert Parted(sorted, last, t');
    }
  }

  /** The active triple after one signal more. */
  function ActiveAfter(sorted: seq<Signal>, t: Triple, n: nat): Triple
    requires n < |sorted|
  {
    var slot := Slot(sorted[n].name);
    var base := if Closes(sorted, t, n) then EMPTY else t;
    if slot == -1 then base
    else var u := WithPart(base, slot, n); if u.time == ZERO_TIME then u.(time := sorted[n].ts) else u
  }

  lemma ProcessActive(sorted: seq<Signal>, s: Store, ts: seq<Triple>, n: nat)
    requires Triples(sorted, ts, n) && n < |sorted| && Renamed(sorted, s.signals, ts) && Fits(n, s.active)
    ensures Process(s, n).active == ActiveAfter(sorted, s.active, n)
  {
    NotUsedYet(sorted, ts, n);
  }

  lemma AddedPart(sorted: seq<Signal>, t: Triple, n: nat)
    requires n < |sorted| && Fits(n, t) && Slot(sorted[n].name) != -1
    ensures
      var t' := ActiveAfter(sorted, t, n);
      Fits(n + 1, t') && forall i: nat :: Has(t', i) <==> i == n || (!Closes(sorted, t, n) && Has(t, i))
  {
  }

  /** One signal more keeps the account of why triples were parted. */
  lemma ProcessParts(sorted: seq<Signal>, ts: seq<Triple>, t: Triple, n: nat)
    requires n < |sorted| && InTimeOrder(sorted) && Fits(n, t) && (t.time == ZERO_TIME <==> !Nonempty(t))
    requires Tail(sorted, ts, t, n)
    ensures Tail(sorted, ClosedBy(sorted, ts, t, n), ActiveAfter(sorted, t, n), n + 1)
  {
    var t' := ActiveAfter(sorted, t, n);
    if Slot(sorted[n].name) != -1 {
      AddedPart(sorted, t, n);
    }
    if IsOld(sorted, t, n) {
      TailAfterOld(sorted, ts, t, n);
      if Slot(sorted[n].name) != -1 {
        TailAfterAdd(sorted, ts + [t], EMPTY, t', n);
      }
    } else if Closes(sorted, t, n) {
      TailAfterTaken(sorted, ts, t, t', n);
    } else if Slot(sorted[n].name) != -1 {
      TailAfterAdd(sorted, ts, t, t', n);
    }
  }

  /** All that is known about the pass after `n` signals. */
  ghost predicate Account(sorted: seq<Signal>, s: Store, ts: seq<Triple>, n: nat) {
    Invariant(sorted, s, ts, n) && (Stamped(sorted) ==> Tail(sorted, ts, s.active, n))
  }

  lemma StepKeepsAccount(sorted: seq<Signal>, s: Store, ts: seq<Triple>, n: nat, s': Store)
    requires Account(sorted, s, ts, n) && n < |sorted| && InTimeOrder(sorted) && s' == Process(s, n)
    ensures Account(sorted, s', ClosedBy(sorted, ts, s.active, n), n + 1)
  {
    ProcessKeeps(sorted, s, ts, n, s', ClosedBy(sorted, ts, s.active, n));
    if Stamped(sorted) {
      ProcessActive(sorted, s, ts, n);
      ProcessParts(sorted, ts, s.active, n);
    }
  }

  // ----- the result

  /** The signals that are neither raw coordinates nor reserved, in order. */
  function Others(signals: seq<Signal>): seq<Signal> {
    if signals == [] then []
    else
      var s := signals[|signals| - 1];
      Others(signals[..|signals| - 1]) + if Slot(s.name) == -1 && s.name != PRUNE then [s] else []
  }

  function Unpruned(signals: seq<Signal>): seq<Signal> {
    if signals == [] then []
    else
      var s := signals[|signals| - 1];
      Unpruned(signals[..|signals| - 1]) + if s.name != PRUNE then [s] else []
  }

  /**
   `ts` accounts for every raw coordinate: each is part of exactly one triple. In a
   stamped batch every part lies less than 500 ms after its triple's time, and a
   triple is followed by another only because that one's first part could not join it.
   */
  ghost predicate Accounts(sorted: seq<Signal>, ts: seq<Triple>) {
    && Triples(sorted, ts, |sorted|)
    && (forall i: nat {:trigger Used(ts, i)} :: i < |sorted| && Slot(sorted[i].name) != -1 ==> Used(ts, i))
    && (Stamped(sorted) ==> Greedy(sorted, ts) && forall t :: t in ts ==> WellTimed(sorted, t))
  }

  lemma {:induction false} UnprunedAreOthers(sorted: seq<Signal>, signals: seq<Signal>, ts: seq<Triple>, n: nat)
    requires Accounts(sorted, ts) && Renamed(sorted, signals, ts) && n <= |sorted|
    ensures Unpruned(signals[..n]) == Others(sorted[..n])
  {
    if n != 0 {
      UnprunedAreOthers(sorted, signals, ts, n - 1);
      assert signals[..n][..n - 1] == signals[..n - 1] && sorted[..n][..n - 1] == sorted[..n - 1];
      if Used(ts, n - 1) {
        var k :| 0 <= k < |ts| && Has(ts[k], n - 1);
        assert ts[k] in ts && WellPlaced(sorted, ts[k], |sorted|);
      }
    }
  }

  /** No raw latitude, longitude or HDOP signal is in the result, whatever the triples were. */
  lemma {:induction false} OthersAreOther(signals: seq<Signal>, s: Signal)
    ensures s in Others(signals) <==> s in signals && Slot(s.name) == -1 && s.name != PRUNE
  {
    if signals != [] {
      OthersAreOther(signals[..|signals| - 1], s);
      assert signals == signals[..|signals| - 1] + [signals[|signals| - 1]];
    }
  }

  /** A created signal comes from one triple, and each triple with a valid pair or an HDOP has its own. */
  lemma {:induction false} CreatedByTriples(sorted: seq<Signal>, ts: seq<Triple>, c: Signal)
    requires sorted != [] && forall t :: t in ts ==> Fits(|sorted|, t)
    ensures c in CreatedOf(sorted, ts) <==> exists t :: t in ts && Creates(sorted, t) && c == LocationOf(sorted, t)
    ensures c in CreatedOf(sorted, ts) ==> c.name == COORDINATES && Slot(c.name) == -1
  {
    if ts != [] {
      var front := ts[..|ts| - 1];
      assert forall t :: t in ts <==> t in front || t == ts[|ts| - 1];
      CreatedByTriples(sorted, front, c);
    }
  }

  /**
   The location of a triple carries the values of its own parts: the latitude and
   longitude when they are a valid pair and (0,0) otherwise, the HDOP if there is one.
   */
  lemma LocationCarriesParts(sorted: seq<Signal>, t: Triple, i: nat)
    requires WellPlaced(sorted, t, |sorted|) && Has(t, i)
    ensures
      var l := LocationOf(sorted, t);
      && l.ts == t.time && l.name == COORDINATES
      && (PairIsValid(sorted, t) && sorted[i].name == LATITUDE ==> l.loc.lat == sorted[i].number)
      && (PairIsValid(sorted, t) && sorted[i].name == LONGITUDE ==> l.loc.lon == sorted[i].number)
      && (sorted[i].name == HDOP ==> l.loc.hdop == sorted[i].number)
      && (!PairIsValid(sorted, t) ==> l.loc.lat == l.loc.lon == ZERO)
      && (i == (if t.lat != -1 then t.lat else if t.lon != -1 then t.lon else t.hdop) ==>
            l.header == sorted[i].header && l.ceid == sorted[i].ceid)
  {
    assert t.lat != -1 ==> Has(t, t.lat);
    assert t.lon != -1 ==> Has(t, t.lon);
    assert t.hdop != -1 ==> Has(t, t.hdop);
  }

  /** A latitude and a longitude, both in range and not both zero. */
  predicate GoodPair(sorted: seq<Signal>, t: Triple)
    requires Fits(|sorted|, t)
  {
    && t.lat != -1 && t.lon != -1
    && var lat, lon := sorted[t.lat].number, sorted[t.lon].number;
       && lat.Finite? && lon.Finite? && (lat.v != 0.0 || lon.v != 0.0)
       && -90.0 <= lat.v <= 90.0 && -180.0 <= lon.v <= 180.0
  }

  /** A triple yields a location exactly for such a pair or an HDOP, and any other coordinate is reported. */
  lemma CreatesIff(sorted: seq<Signal>, t: Triple)
    requires Fits(|sorted|, t)
    ensures Creates(sorted, t) <==> GoodPair(sorted, t) || t.hdop != -1
    ensures Mismatched(sorted, t) <==> (t.lat != -1 || t.lon != -1) && !GoodPair(sorted, t)
  {
  }

  lemma MismatchIff(sorted: seq<Signal>, ts: seq<Triple>)
    requires forall t :: t in ts ==> Fits(|sorted|, t)
    ensures SomeMismatch(sorted, ts) <==> exists t :: t in ts && (t.lat != -1 || t.lon != -1) && !GoodPair(sorted, t)
  {
    forall t | t in ts ensures Mismatched(sorted, t) <==> (t.lat != -1 || t.lon != -1) && !GoodPair(sorted, t) {
      CreatesIff(sorted, t);
    }
  }

  /** `created` holds one location for each triple that yields one, in order, and no other. */
  ghost predicate OneEach(sorted: seq<Signal>, ts: seq<Triple>, created: seq<Signal>)
    requires sorted != [] && forall t :: t in ts ==> Fits(|sorted|, t)
  {
    exists yielding, idx :: Selects(ts, idx, yielding) && Yields(sorted, ts, idx, yielding, created)
  }

  ghost predicate Yields(sorted: seq<Signal>, ts: seq<Triple>, idx: seq<nat>, yielding: seq<Triple>,
      created: seq<Signal>)
    requires sorted != [] && forall t :: t in ts ==> Fits(|sorted|, t)
  {
    && |created| == |yielding|
    && (forall i: nat :: i in idx <==> i < |ts| && (GoodPair(sorted, ts[i]) || ts[i].hdop != -1))
    && forall k :: 0 <= k < |created| ==>
         Fits(|sorted|, yielding[k]) && created[k] == LocationOf(sorted, yielding[k])
  }

  lemma {:induction false} CreatedIsOneEach(sorted: seq<Signal>, ts: seq<Triple>)
    returns (yielding: seq<Triple>, idx: seq<nat>)
    requires sorted != [] && forall t :: t in ts ==> Fits(|sorted|, t)
    ensures Selects(ts, idx, yielding) && Yields(sorted, ts, idx, yielding, CreatedOf(sorted, ts))
  {
    yielding, idx := [], [];
    if ts != [] {
      var n := |ts| - 1;
      assert ts[n] in ts && forall t :: t in ts[..n] ==> t in ts;
      yielding, idx := CreatedIsOneEach(sorted, ts[..n]);
      yielding, idx := OneMoreTriple(sorted, ts, n, yielding, idx);
    }
  }

  lemma OneMoreTriple(sorted: seq<Signal>, ts: seq<Triple>, n: nat, was: seq<Triple>, before: seq<nat>)
    returns (yielding: seq<Triple>, idx: seq<nat>)
    requires sorted != [] && n == |ts| - 1 && (forall t :: t in ts ==> Fits(|sorted|, t))
    requires (forall t :: t in ts[..n] ==> Fits(|sorted|, t)) && Selects(ts[..n], before, was)
    requires Yields(sorted, ts[..n], before, was, CreatedOf(sorted, ts[..n]))
    ensures Selects(ts, idx, yielding) && Yields(sorted, ts, idx, yielding, CreatedOf(sorted, ts))
  {
    var t := ts[n];
    assert t in ts && ts[..n + 1] == ts;
    SelectsNext(ts, n, before, was);
    CreatesIff(sorted, t);
    if Creates(sorted, t) {
      yielding, idx := was + [t], before + [n];
    } else {
      yielding, idx := was, before;
    }
    forall i: nat ensures i in idx <==> i < |ts| && (GoodPair(sorted, ts[i]) || ts[i].hdop != -1) {
      assert i < n ==> ts[..n][i] == ts[i];
      assert i in before <==> i < n && (GoodPair(sorted, ts[..n][i]) || ts[..n][i].hdop != -1);
    }
  }

  /** The survivors are all other signals, each at its place in the sorted order. */
  lemma {:induction false} OthersSelects(signals: seq<Signal>) returns (idx: seq<nat>)
    ensures Selects(signals, idx, Others(signals))
    ensures forall i: nat :: i in idx <==> i < |signals| && IsOther(signals[i].name)
  {
    idx := [];
    if signals != [] {
      var n := |signals| - 1;
      idx := OthersSelects(signals[..n]);
      SelectsNext(signals, n, idx, Others(signals[..n]));
      assert signals[..n + 1] == signals;
      if IsOther(signals[n].name) {
        idx := idx + [n];
      }
    }
  }

  predicate IsOther(name: string) {
    name != LATITUDE && name != LONGITUDE && name != HDOP && name != PRUNE
  }

  /** The store after the first `n` signals. */
  function Pass(sorted: seq<Signal>, n: nat): (r: Store)
    requires n <= |sorted|
    ensures |r.signals| == |sorted| && Fits(n, r.active)
  {
    if n == 0 then Store(sorted, EMPTY, [], false) else Process(Pass(sorted, n - 1), n - 1)
  }

  lemma InitialAccount(sorted: seq<Signal>, s: Store)
    requires sorted != [] && s == Store(sorted, EMPTY, [], false)
    ensures Account(sorted, s, [], 0)
  {
    assert forall i: nat :: !Used([], i);
  }

  /** One step of the pass, from one store to the next. */
  lemma PassStep(sorted: seq<Signal>, n: nat, s: Store, ts: seq<Triple>, s': Store) returns (ts': seq<Triple>)
    requires n < |sorted| && InTimeOrder(sorted) && Account(sorted, s, ts, n)
    requires s == Pass(sorted, n) && s' == Pass(sorted, n + 1)
    ensures Account(sorted, s', ts', n + 1)
  {
    assert s' == Process(s, n);
    ts' := ClosedBy(sorted, ts, s.active, n);
    StepKeepsAccount(sorted, s, ts, n, s');
  }

  lemma {:induction false} PassKeeps(sorted: seq<Signal>, n: nat, s: Store) returns (ts: seq<Triple>)
    requires sorted != [] && n <= |sorted| && InTimeOrder(sorted) && s == Pass(sorted, n)
    ensures Account(sorted, s, ts, n)
    decreases n
  {
    if n == 0 {
      ts := [];
      InitialAccount(sorted, s);
    } else {
      var p := Pass(sorted, n - 1);
      ts := PassKeeps(sorted, n - 1, p);
      ts := PassStep(sorted, n - 1, p, ts, s);
    }
  }

  /** Closing what is still active at the end leaves every raw coordinate accounted for. */
  lemma CloseAccounts(sorted: seq<Signal>, s: Store, ts: seq<Triple>)
    requires Account(sorted, s, ts, |sorted|)
    ensures Accounts(sorted, Closed(ts, s.active)) && Invariant(sorted, TryCreate(s), Closed(ts, s.active), |sorted|)
  {
    CloseKeeps(sorted, s, ts, |sorted|);
    if Stamped(sorted) && Nonempty(s.active) {
      GreedyAppend(sorted, ts, s.active);
    }
    assert Placed(sorted, Closed(ts, s.active), TryCreate(s).active, |sorted|);
  }

  /** The whole pass with its final attempt: which triples there are and what became of the signals. */
  lemma PassResult(sorted: seq<Signal>) returns (ts: seq<Triple>)
    requires sorted != [] && InTimeOrder(sorted)
    ensures
      var s := TryCreate(Pass(sorted, |sorted|));
      && Accounts(sorted, ts) && Renamed(sorted, s.signals, ts)
      && s.created == CreatedOf(sorted, ts) && (s.failed <==> SomeMismatch(sorted, ts))
      && Unpruned(s.signals) == Others(sorted)
  {
    var s := Pass(sorted, |sorted|);
    ts := PassKeeps(sorted, |sorted|, s);
    CloseAccounts(sorted, s, ts);
    ts := Closed(ts, s.active);
    UnprunedAreOthers(sorted, TryCreate(s).signals, ts, |sorted|);
    assert TryCreate(s).signals[..|sorted|] == TryCreate(s).signals && sorted[..|sorted|] == sorted;
  }

  method DropPruned(signals: seq<Signal>) returns (out: seq<Signal>)
    ensures out == Unpruned(signals)
  {
    out := [];
    for i := 0 to |signals|
      invariant out == Unpruned(signals[..i])
    {
      assert signals[..i + 1][..i] == signals[..i];
      if signals[i].name != PRUNE {
        out := out + [signals[i]];
      }
    }
    assert signals[..|signals|] == signals;
  }

  /** The object of the source; each method does to its fields what the function of the same name does to a store. */
  class CoordinateStore {
    var signals: seq<Signal>
    var lastLat: int
    var lastLon: int
    var lastHDOP: int
    var lastTime: int
    var created: seq<Signal>
    var failed: bool

    function View(): Store
      reads this
    {
      Store(signals, Triple(lastLat, lastLon, lastHDOP, lastTime), created, failed)
    }

    constructor (s: seq<Signal>)
      ensures View() == Store(s, EMPTY, [], false)
    {
      signals, lastLat, lastLon, lastHDOP, lastTime, created, failed := s, -1, -1, -1, ZERO_TIME, [], false;
    }

    method TryCreateLocation()
      requires Fits(|signals|, View().active) && signals != []
      modifies this
      ensures View() == TryCreate(old(View()))
    {
      var loc, create, template := NOWHERE, false, signals[0];
      ghost var t := View().active;
      if lastLat != -1 {
        template := signals[lastLat];
      } else if lastLon != -1 {
        template := signals[lastLon];
      } else if lastHDOP != -1 {
        template := signals[lastHDOP];
      }
      if lastLat != -1 && lastLon != -1 {
        if ValidLatLon(signals[lastLat].number, signals[lastLon].number) {
          loc := Location(signals[lastLat].number, signals[lastLon].number, ZERO);
          create := true;
        } else {
          failed := true;
        }
      } else if lastLat != -1 || lastLon != -1 {
        failed := true;
      }
      if lastHDOP != -1 {
        loc := loc.(hdop := signals[lastHDOP].number);
        create := true;
      }
      if create {
        created := created + [Signal(template.header, template.ceid, lastTime, COORDINATES, ZERO, loc)];
      }
      signals := Rename(Rename(Rename(signals, lastLat), lastLon), lastHDOP);
      lastLat, lastLon, lastHDOP, lastTime := -1, -1, -1, ZERO_TIME;
    }

    method ProcessSignal(i: nat)
      requires i < |signals| && Fits(|signals|, View().active)
      modifies this
      ensures View() == Process(old(View()), i)
    {
      var sig := signals[i];
      if lastTime != ZERO_TIME && MAX_LAT_LONG_DUR <= sig.ts - lastTime {
        TryCreateLocation();
      }
      if sig.name == LATITUDE {
        if lastLat != -1 {
          TryCreateLocation();
        }
        lastLat := i;
      } else if sig.name == LONGITUDE {
        if lastLon != -1 {
          TryCreateLocation();
        }
        lastLon := i;
      } else if sig.name == HDOP {
        if lastHDOP != -1 {
          TryCreateLocation();
        }
        lastHDOP := i;
      } else {
        return;
      }
      if lastTime == ZERO_TIME {
        lastTime := sig.ts;
      }
    }

    /**
     Sort, group, and return the other signals in sorted order followed by the
     created locations; fails exactly when some coordinate was unpaired or invalid.
     */
    method ProcessSignals() returns (out: seq<Signal>, ghost sorted: seq<Signal>, ghost ts: seq<Triple>)
      requires View() == Store(signals, EMPTY, [], false)
      modifies this
      ensures sorted == Sort(SignalLE, old(signals)) && Accounts(sorted, ts)
      ensures out == Others(sorted) + if sorted == [] then [] else CreatedOf(sorted, ts)
      ensures failed <==> SomeMismatch(sorted, ts)
      ensures failed <==> exists t :: t in ts && (t.lat != -1 || t.lon != -1) && !GoodPair(sorted, t)
      ensures sorted != [] ==> OneEach(sorted, ts, CreatedOf(sorted, ts))
    {
      ts, sorted := [], Sort(SignalLE, signals);
      SignalOrder();
      SortIsSorted(SignalLE, signals);
      SortedInTime(sorted);
      if |signals| == 0 {
        return signals, sorted, ts;
      }
      signals := Sort(SignalLE, signals);
      RunPass(sorted);
      ts := PassResult(sorted);
      MismatchIff(sorted, ts);
      ghost var yielding, idx := CreatedIsOneEach(sorted, ts);
      out := DropPruned(signals);
      out := out + created;
    }

    /** The loop over the sorted signals, and one last attempt. */
    method RunPass(ghost sorted: seq<Signal>)
      requires sorted != [] && View() == Store(sorted, EMPTY, [], false)
      modifies this
      ensures View() == TryCreate(Pass(sorted, |sorted|))
    {
      for i := 0 to |signals|
        invariant View() == Pass(sorted, i)
      {
        ProcessSignal(i);
      }
      TryCreateLocation();
    }
  }
}
