/**
 The compare-and-swap store: any number of `updateEntry` calls interleave on one
 key of the bucket, each reading an entry with its revision, folding its
 contribution in and writing back only if the revision still stands.

 Reading an entry always yields what was written: a damaged value, which the
 source rebuilds from the batch at hand, does not occur here, and no key is deleted.
 */
module EntryStore {
  import opened Signals
  import opened LatestEntry

  const CAS_ATTEMPTS: nat := 8

  /** How a call ended: nil, exhausted conflicts (with the number of writes landed by then), or another error. */
  datatype Outcome = Done | Exhausted(at: nat) | Failed

  /** Program point of a call; `at` counts the writes that had landed when the entry was read. */
  datatype Point = Reading | Holding(rev: nat, entry: SignalMap, at: nat) | Returned(out: Outcome)

  datatype Call = Call(contrib: SignalMap, attempt: nat, began: nat, point: Point)

  datatype Write = Write(writer: nat, contrib: SignalMap)

  /** The key (revision 0 means absent), the writes landed so far, and the calls by number. */
  datatype State = State(rev: nat, val: SignalMap, landed: seq<Write>, calls: map<nat, Call>)

  datatype Step =
    | Begin(id: nat, contrib: SignalMap)
    | Get(id: nat)
    | Skip(id: nat)
      /** A write request reaches the server; the stream hands out revision `rev` if it lands. */
    | Put(id: nat, rev: nat, acked: bool)
    | Error(id: nat)

  ghost predicate Enabled(s: State, step: Step) {
    match step
    case Begin(i, _) => i !in s.calls
    case Get(i) => i in s.calls && s.calls[i].point.Reading?
    case Skip(i) => i in s.calls && s.calls[i].point.Holding? && !Changes(s.calls[i])
    case Put(i, rev, _) => i in s.calls && s.calls[i].point.Holding? && Changes(s.calls[i]) && s.rev < rev
    case Error(i) => i in s.calls && !s.calls[i].point.Returned?
  }

  /** mutate reports a change. */
  predicate Changes(c: Call)
    requires c.point.Holding?
  {
    Join(c.point.entry, c.contrib) != c.point.entry
  }

  ghost function Do(s: State, step: Step): State
    requires Enabled(s, step)
  {
    match step
    case Begin(i, contrib) => s.(calls := s.calls[i := Call(contrib, 0, |s.landed|, Reading)])
    case Get(i) => At(s, i, s.calls[i].(point := Holding(s.rev, s.val, |s.landed|)))
    case Skip(i) => At(s, i, s.calls[i].(point := Returned(Done)))
    case Error(i) => At(s, i, s.calls[i].(point := Returned(Failed)))
    case Put(i, rev, acked) =>
      var c := s.calls[i];
      if c.point.rev == s.rev then
        State(rev, Join(c.point.entry, c.contrib), s.landed + [Write(i, c.contrib)],
              s.calls[i := c.(point := Returned(if acked then Done else Failed))])
      else if c.attempt == CAS_ATTEMPTS - 1 then
        At(s, i, c.(point := Returned(Exhausted(|s.landed|))))
      else
        At(s, i, c.(attempt := c.attempt + 1, point := Reading))
  }

  ghost function At(s: State, i: nat, c: Call): State {
    s.(calls := s.calls[i := c])
  }

  /** The contributions joined onto an entry, in landing order. */
  function JoinAll(e: SignalMap, ws: seq<Write>): SignalMap {
    if ws == [] then e else Join(JoinAll(e, ws[..|ws| - 1]), ws[|ws| - 1].contrib)
  }

  /** No write of call `i` landed since it began. */
  ghost predicate NoneBy(s: State, i: nat, began: nat) {
    forall j :: began <= j < |s.landed| ==> s.landed[j].writer != i
  }

  ghost predicate CallInvariant(s: State, i: nat, c: Call) {
    && c.began <= |s.landed|
    && match c.point
       case Reading => c.attempt < CAS_ATTEMPTS && c.began + c.attempt <= |s.landed| && NoneBy(s, i, c.began)
       case Holding(rev, entry, at) =>
         && c.attempt < CAS_ATTEMPTS && c.began + c.attempt <= at <= |s.landed| && NoneBy(s, i, c.began)
         && rev <= s.rev && (rev == s.rev <==> at == |s.landed|)
         && (rev == s.rev ==> entry == s.val) && Below(entry, s.val)
       case Returned(Done) => Below(c.contrib, s.val)
       case Returned(Exhausted(at)) =>
         c.began + CAS_ATTEMPTS <= at <= |s.landed| && forall j :: c.began <= j < at ==> s.landed[j].writer != i
       case Returned(Failed) => true
  }

  ghost predicate Invariant(s: State, init: SignalMap) {
    && s.val == JoinAll(init, s.landed)
    && forall i :: i in s.calls ==> CallInvariant(s, i, s.calls[i])
  }

  /** A landed write keeps what the other calls rely on. */
  lemma WriteKeepsOthers(s: State, s': State, w: Write, i: nat, c: Call)
    requires CallInvariant(s, i, c) && w.writer != i
    requires s'.landed == s.landed + [w] && s.rev < s'.rev && Below(s.val, s'.val)
    ensures CallInvariant(s', i, c)
  {
    match c.point
    case Holding(_, entry, _) => BelowTransitive(entry, s.val, s'.val);
    case Returned(Done) => BelowTransitive(c.contrib, s.val, s'.val);
    case _ =>
  }

  lemma LandedKeepsInvariant(s: State, init: SignalMap, step: Step)
    requires Invariant(s, init) && step.Put? && Enabled(s, step) && s.calls[step.id].point.rev == s.rev
    ensures Invariant(Do(s, step), init)
  {
    var i, c, s' := step.id, s.calls[step.id], Do(s, step);
    assert CallInvariant(s, i, c);
    assert s'.landed[..|s.landed|] == s.landed;
    JoinIsUpperBound(s.val, c.contrib);
    forall j | j in s'.calls ensures CallInvariant(s', j, s'.calls[j]) {
      if j != i {
        WriteKeepsOthers(s, s', Write(i, c.contrib), j, s.calls[j]);
      }
    }
  }

  lemma PutKeepsInvariant(s: State, init: SignalMap, step: Step)
    requires Invariant(s, init) && step.Put? && Enabled(s, step)
    ensures Invariant(Do(s, step), init)
  {
    var i, c := step.id, s.calls[step.id];
    assert CallInvariant(s, i, c);
    if c.point.rev == s.rev {
      LandedKeepsInvariant(s, init, step);
    } else if c.attempt == CAS_ATTEMPTS - 1 {
      OneCallMoves(s, init, i, c.(point := Returned(Exhausted(|s.landed|))));
    } else {
      OneCallMoves(s, init, i, c.(attempt := c.attempt + 1, point := Reading));
    }
  }

  /** Every step of every interleaving keeps the store equal to the join of what landed. */
  lemma StepKeepsInvariant(s: State, init: SignalMap, step: Step)
    requires Invariant(s, init) && Enabled(s, step)
    ensures Invariant(Do(s, step), init)
    ensures Below(s.val, Do(s, step).val)
  {
    match step
    case Put(i, _, _) =>
      PutKeepsInvariant(s, init, step);
      assert CallInvariant(s, i, s.calls[i]);
      JoinIsUpperBound(s.val, s.calls[i].contrib);
    case Skip(i) =>
      var c := s.calls[i];
      assert CallInvariant(s, i, c);
      JoinUnchanged(c.point.entry, c.contrib);
      BelowTransitive(c.contrib, c.point.entry, s.val);
      OneCallMoves(s, init, i, c.(point := Returned(Done)));
    case Begin(i, contrib) => OneCallMoves(s, init, i, Call(contrib, 0, |s.landed|, Reading));
    case Get(i) =>
      assert CallInvariant(s, i, s.calls[i]);
      OneCallMoves(s, init, i, s.calls[i].(point := Holding(s.rev, s.val, |s.landed|)));
    case Error(i) =>
      assert CallInvariant(s, i, s.calls[i]);
      OneCallMoves(s, init, i, s.calls[i].(point := Returned(Failed)));
  }

  /** A step that touches only one call's own state. */
  lemma OneCallMoves(s: State, init: SignalMap, i: nat, c: Call)
    requires Invariant(s, init) && CallInvariant(s, i, c)
    ensures Invariant(At(s, i, c), init)
  {
    var s' := At(s, i, c);
    forall j | j in s'.calls ensures CallInvariant(s', j, s'.calls[j]) {
      assert CallInvariant(s, j, s'.calls[j]);
    }
  }

  ghost predicate Legal(s: State, steps: seq<Step>)
    decreases |steps|
  {
    steps == [] || (Enabled(s, steps[0]) && Legal(Do(s, steps[0]), steps[1..]))
  }

  ghost function Exec(s: State, steps: seq<Step>): State
    requires Legal(s, steps)
    decreases |steps|
  {
    if steps == [] then s else Exec(Do(s, steps[0]), steps[1..])
  }

  /**
   No lost update. After any interleaving of any number of calls on a key that
   held `init`: the stored entry is the join of `init` and every landed
   contribution; every call that returned nil is included; a call that ran out of
   attempts saw at least eight writes of other calls land while it ran.
   */
  lemma NoLostUpdate(init: SignalMap, rev: nat, steps: seq<Step>)
    requires Legal(State(rev, init, [], map[]), steps)
    ensures
      var s := Exec(State(rev, init, [], map[]), steps);
      && s.val == JoinAll(init, s.landed)
      && forall i :: i in s.calls ==>
           && (s.calls[i].point == Returned(Done) ==> Below(s.calls[i].contrib, s.val))
           && (s.calls[i].point.Returned? && s.calls[i].point.out.Exhausted? ==>
                 var c := s.calls[i];
                 && c.began + CAS_ATTEMPTS <= c.point.out.at <= |s.landed|
                 && forall j :: c.began <= j < c.point.out.at ==> s.landed[j].writer != i)
  {
    var start := State(rev, init, [], map[]);
    RunKeepsInvariant(start, init, steps);
    var s := Exec(start, steps);
    assert forall i :: i in s.calls ==> CallInvariant(s, i, s.calls[i]);
  }

  /** What a run has stored, a longer run only advances. */
  lemma {:induction false} RunKeepsInvariant(s: State, init: SignalMap, steps: seq<Step>)
    requires Invariant(s, init) && Legal(s, steps)
    ensures Invariant(Exec(s, steps), init) && Below(s.val, Exec(s, steps).val)
    decreases |steps|
  {
    if steps != [] {
      var s' := Do(s, steps[0]);
      StepKeepsInvariant(s, init, steps[0]);
      RunKeepsInvariant(s', init, steps[1..]);
      BelowTransitive(s.val, s'.val, Exec(s', steps[1..]).val);
    }
  }

  lemma {:induction false} JoinAllAppend(e: SignalMap, a: seq<Write>, b: seq<Write>)
    ensures JoinAll(e, a + b) == JoinAll(JoinAll(e, a), b)
  {
    if b == [] {
      assert a + b == a;
    } else {
      assert (a + b)[..|a + b| - 1] == a + b[..|b| - 1];
      JoinAllAppend(e, a, b[..|b| - 1]);
    }
  }

  lemma {:induction false} JoinAllAdvances(e: SignalMap, ws: seq<Write>)
    ensures Below(e, JoinAll(e, ws))
  {
    if ws == [] {
      JoinIsUpperBound(e, map[]);
    } else {
      var front := JoinAll(e, ws[..|ws| - 1]);
      JoinAllAdvances(e, ws[..|ws| - 1]);
      JoinIsUpperBound(front, ws[|ws| - 1].contrib);
      BelowTransitive(e, front, JoinAll(e, ws));
    }
  }

  ghost predicate NoneOf(ws: seq<Write>, writer: nat) {
    forall i :: 0 <= i < |ws| ==> ws[i].writer != writer
  }

  /** Write number `i` is the only one of this writer. */
  ghost predicate OnlyAt(ws: seq<Write>, i: nat, writer: nat) {
    i < |ws| && NoneOf(ws[..i], writer) && NoneOf(ws[i + 1..], writer)
  }

  /** The contribution landed once, among others', or changed nothing when the entry was read. */
  ghost predicate Included(was: SignalMap, news: seq<Write>, me: nat, contrib: SignalMap) {
    || (exists i: nat :: OnlyAt(news, i, me) && news[i] == Write(me, contrib))
    || (NoneOf(news, me) && exists n: nat :: HeldAt(was, news, n, contrib))
  }

  /** After the first `n` writes the contribution was in the entry already. */
  ghost predicate HeldAt(was: SignalMap, news: seq<Write>, n: nat, contrib: SignalMap) {
    n <= |news| && Join(JoinAll(was, news[..n]), contrib) == JoinAll(was, news[..n])
  }

  /** One key of the bucket as `updateEntry` sees it: between two of its requests other writers may land. */
  class Key {
    var rev: nat
    var val: SignalMap
    ghost var landed: seq<Write>

    constructor ()
      ensures rev == 0 && val == map[] && landed == []
    {
      rev, val, landed := 0, map[], [];
    }

    /** One write lands. */
    method Land(ghost writer: nat, contrib: SignalMap)
      modifies this
      ensures val == Join(old(val), contrib) && rev == old(rev) + 1 && landed == old(landed) + [Write(writer, contrib)]
    {
      rev, val, landed := rev + 1, Join(val, contrib), landed + [Write(writer, contrib)];
    }

    /** Other writers land any number of compare-and-swap writes, none if all is calm. */
    method Interfere(ghost me: nat, calm: bool) returns (ghost news: seq<Write>)
      modifies this
      ensures landed == old(landed) + news && val == JoinAll(old(val), news) && rev == old(rev) + |news|
      ensures NoneOf(news, me) && (calm ==> news == [])
    {
      news := [];
      var n :| 0 <= n;
      for i := 0 to if calm then 0 else n
        invariant landed == old(landed) + news && val == JoinAll(old(val), news) && rev == old(rev) + |news|
        invariant NoneOf(news, me) && |news| == i
      {
        var c: SignalMap := *;
        Land(me + 1, c);
        assert (news + [Write(me + 1, c)])[..|news|] == news;
        news := news + [Write(me + 1, c)];
      }
    }

    /** Since the entry `was`, exactly `news` have landed, after `earlier`. */
    ghost predicate Since(was: SignalMap, earlier: seq<Write>, news: seq<Write>)
      reads this
    {
      landed == earlier + news && val == JoinAll(was, news)
    }

    /** Others land, and the account is extended. */
    method Wait(ghost me: nat, calm: bool, ghost before: seq<Write>, ghost was: SignalMap, ghost earlier: seq<Write>)
      returns (ghost news: seq<Write>)
      requires Since(was, earlier, before) && NoneOf(before, me)
      modifies this
      ensures Since(was, earlier, news) && NoneOf(news, me) && before <= news && (calm ==> news == before)
      ensures rev == old(rev) + |news| - |before|
    {
      ghost var more := Interfere(me, calm);
      JoinAllAppend(was, before, more);
      news := before + more;
    }

    /** The write that finds the revision unchanged; its acknowledgement may be lost. */
    method WriteBack(contrib: SignalMap, ghost me: nat, calm: bool,
                     ghost before: seq<Write>, ghost was: SignalMap, ghost earlier: seq<Write>)
      returns (out: Outcome, ghost news: seq<Write>)
      requires Since(was, earlier, before) && NoneOf(before, me)
      modifies this
      ensures Since(was, earlier, news) && val == Join(old(val), contrib)
      ensures (out == Done || out == Failed) && Included(was, news, me, contrib) && (calm ==> out == Done)
    {
      Land(me, contrib);
      news := before + [Write(me, contrib)];
      assert news[..|before|] == before && news[|before| + 1..] == [];
      assert OnlyAt(news, |before|, me) && news[|before|] == Write(me, contrib);
      var acked: bool := *;
      out := if acked || calm then Done else Failed;
    }

    /** One read-fold-write attempt; none means that another write came in between. */
    method Attempt(contrib: SignalMap, ghost me: nat, calm: bool,
                   ghost before: seq<Write>, ghost was: SignalMap, ghost earlier: seq<Write>)
      returns (out: Option<Outcome>, ghost news: seq<Write>)
      requires Since(was, earlier, before) && NoneOf(before, me)
      modifies this
      ensures Since(was, earlier, news)
      ensures out.Some? ==> out.value == Done || out.value == Failed
      ensures out == Some(Done) ==> Included(was, news, me, contrib)
      ensures out.None? ==> NoneOf(news, me) && |before| < |news|
      ensures calm ==> out == Some(Done) && val == Join(old(val), contrib)
    {
      news := Wait(me, calm, before, was, earlier);
      var reachable: bool := *;
      if !reachable && !calm {
        return Some(Failed), news;
      }
      var entry, at := val, rev;
      if Join(entry, contrib) == entry {
        assert news[..|news|] == news;
        assert HeldAt(was, news, |news|, contrib);
        return Some(Done), news;
      }
      news := Wait(me, calm, news, was, earlier);
      var sent: bool := *;
      if !sent && !calm {
        return Some(Failed), news;
      }
      if rev != at {
        return None, news;
      }
      var o;
      o, news := WriteBack(contrib, me, calm, news, was, earlier);
      out := Some(o);
    }

    /**
     At most eight read-fold-write attempts; an error may hide a write that landed. The
     key ends up with what it held and all that landed meanwhile, by this call or others.
     With no error and no other writer it holds the fold of the contribution.
     */
    method UpdateEntry(contrib: SignalMap, ghost me: nat, calm: bool) returns (out: Outcome, ghost news: seq<Write>)
      modifies this
      ensures landed == old(landed) + news && val == JoinAll(old(val), news)
      ensures out == Done ==> Included(old(val), news, me, contrib)
      ensures out.Exhausted? ==> CAS_ATTEMPTS <= |news| && NoneOf(news, me)
      ensures calm ==> out == Done && val == Join(old(val), contrib)
    {
      news := [];
      for attempt := 0 to CAS_ATTEMPTS
        invariant attempt <= |news| && NoneOf(news, me) && Since(old(val), old(landed), news)
        invariant calm ==> attempt == 0 && val == old(val)
      {
        var result;
        result, news := Attempt(contrib, me, calm, news, old(val), old(landed));
        if result.Some? {
          return result.value, news;
        }
      }
      out := Exhausted(CAS_ATTEMPTS);
    }
  }

  /** A call that returned nil left its contribution in the key, whatever landed besides. */
  lemma IncludedIsBelow(was: SignalMap, news: seq<Write>, me: nat, contrib: SignalMap)
    requires Included(was, news, me, contrib)
    ensures Below(was, JoinAll(was, news)) && Below(contrib, JoinAll(was, news))
  {
    JoinAllAdvances(was, news);
    if i: nat :| OnlyAt(news, i, me) && news[i] == Write(me, contrib) {
      assert news[..i + 1][..i] == news[..i];
      JoinIsUpperBound(JoinAll(was, news[..i]), contrib);
      LaterIncludes(was, news, i + 1, contrib);
    } else {
      var n: nat :| HeldAt(was, news, n, contrib);
      JoinUnchanged(JoinAll(was, news[..n]), contrib);
      LaterIncludes(was, news, n, contrib);
    }
  }

  lemma LaterIncludes(was: SignalMap, news: seq<Write>, n: nat, contrib: SignalMap)
    requires n <= |news| && Below(contrib, JoinAll(was, news[..n]))
    ensures Below(contrib, JoinAll(was, news))
  {
    assert news == news[..n] + news[n..];
    JoinAllAppend(was, news[..n], news[n..]);
    JoinAllAdvances(JoinAll(was, news[..n]), news[n..]);
    BelowTransitive(contrib, JoinAll(was, news[..n]), JoinAll(was, news));
  }
}
