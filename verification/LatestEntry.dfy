/**
 One subject's entry of the signals-latest bucket: the last-write-wins fold, its
 algebra, and its agreement with the rollup.
 */
module LatestEntry {
  import opened Signals

  datatype LocValue = LocValue(ts: int, ceid: nat, fix: Fix)

  datatype SignalValue = SignalValue(ts: int, ceid: nat, value: Value, loc: Option<LocValue>)

  /** The latest reading per signal name. */
  type SignalMap = map<string, SignalValue>

  // ----- the fold

  function PickLoc(cur: Option<LocValue>, inc: Option<LocValue>): Option<LocValue> {
    if inc.None? then cur
    else if cur.None? || NewerThan(inc.value.ts, inc.value.ceid, cur.value.ts, cur.value.ceid) then inc else cur
  }

  /** The value part and the location part win independently. */
  function Pick(cur: SignalValue, inc: SignalValue): SignalValue {
    var loc := PickLoc(cur.loc, inc.loc);
    if NewerThan(inc.ts, inc.ceid, cur.ts, cur.ceid) then inc.(loc := loc) else cur.(loc := loc)
  }

  function FoldInto(e: SignalMap, name: string, inc: SignalValue): SignalMap {
    e[name := if name in e then Pick(e[name], inc) else inc]
  }

  /** A live reading's fix time is its own timestamp; a (0,0) fix carries no location. */
  function Live(r: Row): SignalValue {
    SignalValue(r.ts, r.ceid, r.value, if r.fix.Nonzero() then Some(LocValue(r.ts, r.ceid, r.fix)) else None)
  }

  function FoldRows(e: SignalMap, rows: seq<Row>): SignalMap {
    if rows == [] then e
    else FoldInto(FoldRows(e, rows[..|rows| - 1]), rows[|rows| - 1].key.name, Live(rows[|rows| - 1]))
  }

  class Entry {
    var signals: SignalMap

    constructor (s: SignalMap)
      ensures signals == s
    {
      signals := s;
    }

    /** Reports a change exactly when the entry changed. */
    method FoldValue(name: string, inc: SignalValue) returns (changed: bool)
      modifies this
      ensures signals == FoldInto(old(signals), name, inc)
      ensures changed <==> signals != old(signals)
    {
      changed := false;
      var cur := inc;
      if name in signals {
        cur := signals[name];
      }
      if name !in signals || NewerThan(inc.ts, inc.ceid, cur.ts, cur.ceid) {
        cur := SignalValue(inc.ts, inc.ceid, inc.value, if name in signals then cur.loc else None);
        changed := true;
      }
      if inc.loc.Some? && (cur.loc.None? ||
          NewerThan(inc.loc.value.ts, inc.loc.value.ceid, cur.loc.value.ts, cur.loc.value.ceid)) {
        cur := cur.(loc := inc.loc);
        changed := true;
      }
      ghost var was := signals;
      if changed {
        signals := signals[name := cur];
      }
      assert name in was && !changed ==> Pick(was[name], inc) == was[name] && FoldInto(was, name, inc) == was;
      assert name in was && changed ==> signals[name] != was[name];
    }

    method Fold(r: Row) returns (changed: bool)
      modifies this
      ensures signals == FoldInto(old(signals), r.key.name, Live(r))
      ensures changed <==> signals != old(signals)
    {
      changed := FoldValue(r.key.name, Live(r));
    }

    /** Fold a batch; reports a change exactly when the entry changed, so a replayed batch needs no write. */
    method FoldBatch(rows: seq<Row>) returns (changed: bool)
      modifies this
      ensures signals == FoldRows(old(signals), rows)
      ensures changed <==> signals != old(signals)
    {
      changed := false;
      for i := 0 to |rows|
        invariant signals == FoldRows(old(signals), rows[..i])
        invariant changed <==> signals != old(signals)
        invariant Below(old(signals), signals)
      {
        ghost var before := signals;
        var c := Fold(rows[i]);
        assert rows[..i + 1][..i] == rows[..i];
        FoldAdvances(before, rows[i].key.name, Live(rows[i]));
        BelowTransitive(old(signals), before, signals);
        if c {
          FoldNeverReturns(old(signals), before, rows[i].key.name, Live(rows[i]));
        }
        changed := changed || c;
      }
      assert rows[..|rows|] == rows;
    }

    /** The newest value timestamp, never before the zero time. */
    method LastSeen() returns (last: int)
      ensures ZERO_TIME <= last
      ensures forall n :: n in signals ==> signals[n].ts <= last
      ensures last == ZERO_TIME || exists n :: n in signals && signals[n].ts == last
    {
      last := ZERO_TIME;
      var todo := signals.Keys;
      while todo != {}
        invariant todo <= signals.Keys && ZERO_TIME <= last
        invariant forall n :: n in signals && n !in todo ==> signals[n].ts <= last
        invariant last == ZERO_TIME || exists n :: n in signals && signals[n].ts == last
        decreases |todo|
      {
        var n :| n in todo;
        if last < signals[n].ts {
          last := signals[n].ts;
        }
        todo := todo - {n};
      }
    }
  }

  // ----- the order on entries and the join

  predicate LocBelow(a: Option<LocValue>, b: Option<LocValue>) {
    a.Some? ==> b.Some? && !NewerThan(a.value.ts, a.value.ceid, b.value.ts, b.value.ceid)
  }

  predicate ValueBelow(a: SignalValue, b: SignalValue) {
    !NewerThan(a.ts, a.ceid, b.ts, b.ceid) && LocBelow(a.loc, b.loc)
  }

  /** Everything `a` holds is held by `b`, at the same tag or a newer one. */
  ghost predicate Below(a: SignalMap, b: SignalMap) {
    forall n :: n in a ==> n in b && ValueBelow(a[n], b[n])
  }

  function Join(e: SignalMap, c: SignalMap): SignalMap {
    map n | n in e.Keys + c.Keys ::
      if n !in c then e[n] else if n !in e then c[n] else Pick(e[n], c[n])
  }

  lemma BelowTransitive(a: SignalMap, b: SignalMap, c: SignalMap)
    requires Below(a, b) && Below(b, c)
    ensures Below(a, c)
  {
  }

  /** The join is an upper bound of both sides. */
  lemma JoinIsUpperBound(e: SignalMap, c: SignalMap)
    ensures Below(e, Join(e, c)) && Below(c, Join(e, c))
  {
  }

  lemma PickAssociative(x: SignalValue, y: SignalValue, z: SignalValue)
    ensures Pick(Pick(x, y), z) == Pick(x, Pick(y, z))
  {
    var l, r := PickLoc(PickLoc(x.loc, y.loc), z.loc), PickLoc(x.loc, PickLoc(y.loc, z.loc));
    assert l == r;
  }

  lemma JoinAssociative(a: SignalMap, b: SignalMap, c: SignalMap)
    ensures Join(Join(a, b), c) == Join(a, Join(b, c))
  {
    var l, r := Join(Join(a, b), c), Join(a, Join(b, c));
    assert l.Keys == r.Keys;
    forall n | n in l ensures l[n] == r[n] {
      if n in a && n in b && n in c {
        PickAssociative(a[n], b[n], c[n]);
      }
    }
  }

  lemma JoinIdempotent(a: SignalMap, b: SignalMap)
    ensures Join(Join(a, b), b) == Join(a, b)
  {
    forall n | n in a && n in b ensures Pick(Pick(a[n], b[n]), b[n]) == Pick(a[n], b[n]) {
    }
  }

  predicate SameFixTag(a: Option<LocValue>, b: Option<LocValue>) {
    a.Some? && b.Some? && a.value.ts == b.value.ts && a.value.ceid == b.value.ceid
  }

  /** Equal tags carry equal readings. */
  ghost predicate Agree(a: SignalMap, b: SignalMap) {
    forall n :: n in a && n in b ==>
      && (a[n].ts == b[n].ts && a[n].ceid == b[n].ceid ==> a[n].value == b[n].value)
      && (SameFixTag(a[n].loc, b[n].loc) ==> a[n].loc == b[n].loc)
  }

  lemma JoinCommutes(a: SignalMap, b: SignalMap)
    requires Agree(a, b)
    ensures Join(a, b) == Join(b, a)
  {
    forall n | n in a && n in b ensures Pick(a[n], b[n]) == Pick(b[n], a[n]) {
      assert a[n].ts == b[n].ts && a[n].ceid == b[n].ceid ==> a[n].value == b[n].value;
    }
  }

  /** Nothing to write means the contribution is already included. */
  lemma JoinUnchanged(e: SignalMap, c: SignalMap)
    requires Join(e, c) == e
    ensures Below(c, e)
  {
    JoinIsUpperBound(e, c);
  }

  lemma FoldIsJoin(e: SignalMap, name: string, inc: SignalValue)
    ensures FoldInto(e, name, inc) == Join(e, map[name := inc])
  {
  }

  /** Folding a batch of readings joins one contribution. */
  lemma {:induction false} FoldRowsIsJoin(e: SignalMap, rows: seq<Row>)
    ensures FoldRows(e, rows) == Join(e, FoldRows(map[], rows))
  {
    if rows == [] {
      assert Join(e, map[]) == e;
    } else {
      var r, front := rows[|rows| - 1], rows[..|rows| - 1];
      FoldRowsIsJoin(e, front);
      FoldIsJoin(FoldRows(e, front), r.key.name, Live(r));
      FoldIsJoin(FoldRows(map[], front), r.key.name, Live(r));
      JoinAssociative(e, FoldRows(map[], front), map[r.key.name := Live(r)]);
    }
  }

  lemma FoldAdvances(e: SignalMap, name: string, inc: SignalValue)
    ensures Below(e, FoldInto(e, name, inc))
  {
  }

  /** A fold that changes the entry cannot bring back an earlier one. */
  lemma FoldNeverReturns(was: SignalMap, e: SignalMap, name: string, inc: SignalValue)
    requires Below(was, e) && FoldInto(e, name, inc) != e
    ensures FoldInto(e, name, inc) != was
  {
    if name in was {
      assert ValueBelow(was[name], e[name]);
    }
  }
}
