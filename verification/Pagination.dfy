/** Cursor pagination over detected segments, with the deferred truncation of idling. */
module Pagination {
  import opened Signals

  const MAX_SEGMENT_LIMIT: nat := 200
  const IDLING_CANDIDATE_CAP: nat := 8 * MAX_SEGMENT_LIMIT

  /** A detected segment with the maximum speed its summary found, negative when there is none. */
  datatype Detected = Detected(start: int, maxSpeed: real)

  predicate Idle(s: Detected) {
    s.maxSpeed <= 0.0
  }

  ghost predicate InStartOrder(list: seq<Detected>) {
    forall i, j :: 0 <= i < j < |list| ==> list[i].start < list[j].start
  }

  function IdleOnes(list: seq<Detected>): seq<Detected> {
    if list == [] then []
    else IdleOnes(list[..|list| - 1]) + if Idle(list[|list| - 1]) then [list[|list| - 1]] else []
  }

  /** The segments starting strictly after the cursor. */
  function After(list: seq<Detected>, after: int): seq<Detected> {
    if list == [] then []
    else After(list[..|list| - 1], after) + if after < list[|list| - 1].start then [list[|list| - 1]] else []
  }

  method SegmentsStartingAfter(list: seq<Detected>, after: int) returns (out: seq<Detected>)
    ensures out == After(list, after)
  {
    out := [];
    for i := 0 to |list|
      invariant out == After(list[..i], after)
    {
      assert list[..i + 1][..i] == list[..i];
      if after < list[i].start {
        out := out + [list[i]];
      }
    }
    assert list[..|list|] == list;
  }

  method FilterIdlingBySpeed(list: seq<Detected>) returns (out: seq<Detected>)
    ensures out == IdleOnes(list)
  {
    out := [];
    for i := 0 to |list|
      invariant out == IdleOnes(list[..i])
    {
      assert list[..i + 1][..i] == list[..i];
      if list[i].maxSpeed < 0.0 || list[i].maxSpeed <= 0.0 {
        out := out + [list[i]];
      }
    }
    assert list[..|list|] == list;
  }

  function Take(list: seq<Detected>, n: nat): seq<Detected> {
    if n < |list| then list[..n] else list
  }

  /** No limit means no cap. */
  function TruncateToLimit(list: seq<Detected>, limit: Option<nat>): seq<Detected> {
    if limit.Some? then Take(list, limit.value) else list
  }

  function CapIdlingCandidates(list: seq<Detected>): seq<Detected> {
    Take(list, IDLING_CANDIDATE_CAP)
  }

  /** What one request returns of the list that remains after its cursor. */
  function PageOf(rest: seq<Detected>, limit: Option<nat>, idling: bool): seq<Detected> {
    if idling then TruncateToLimit(IdleOnes(CapIdlingCandidates(rest)), limit) else TruncateToLimit(rest, limit)
  }

  lemma {:induction false} AfterMembers(list: seq<Detected>, after: int, s: Detected)
    ensures s in After(list, after) <==> s in list && after < s.start
  {
    if list != [] {
      AfterMembers(list[..|list| - 1], after, s);
      assert list == list[..|list| - 1] + [list[|list| - 1]];
    }
  }

  lemma {:induction false} IdleMembers(list: seq<Detected>, s: Detected)
    ensures s in IdleOnes(list) <==> s in list && Idle(s)
  {
    if list != [] {
      IdleMembers(list[..|list| - 1], s);
      assert list == list[..|list| - 1] + [list[|list| - 1]];
    }
  }

  /** The idle segments keep their order, and none appears twice. */
  lemma {:induction false} IdleOnesInOrder(list: seq<Detected>)
    requires InStartOrder(list)
    ensures InStartOrder(IdleOnes(list))
  {
    if list != [] {
      var n := |list| - 1;
      IdleOnesInOrder(list[..n]);
      forall i | 0 <= i < |IdleOnes(list[..n])| ensures IdleOnes(list[..n])[i].start < list[n].start {
        IdleMembers(list[..n], IdleOnes(list[..n])[i]);
      }
    }
  }

  /** GetSegments after detection: cursor filter, then truncation now or behind the speed filter. */
  method GetPage(detected: seq<Detected>, after: Option<int>, limit: Option<nat>, idling: bool)
      returns (page: seq<Detected>)
    ensures page == PageOf(if after.Some? then After(detected, after.value) else detected, limit, idling)
    ensures limit.Some? ==> |page| <= limit.value
    ensures forall s :: s in page ==> s in detected && (after.Some? ==> after.value < s.start) && (idling ==> Idle(s))
    ensures (limit.None? || |page| < limit.value) && (idling ==> |detected| <= 1600) ==>
              forall s :: s in detected && (after.Some? ==> after.value < s.start) && (idling ==> s.maxSpeed <= 0.0) ==>
                            s in page
  {
    page := detected;
    if after.Some? {
      page := SegmentsStartingAfter(page, after.value);
    }
    if idling {
      page := CapIdlingCandidates(page);
      page := FilterIdlingBySpeed(page);
    }
    page := TruncateToLimit(page, limit);
    forall s | s in page ensures s in detected && (after.Some? ==> after.value < s.start) && (idling ==> Idle(s)) {
      PageMembers(detected, after, limit, idling, s);
    }
    if (limit.None? || |page| < limit.value) && (idling ==> |detected| <= 1600) {
      forall s | s in detected && (after.Some? ==> after.value < s.start) && (idling ==> s.maxSpeed <= 0.0)
        ensures s in page
      {
        PageIsFull(detected, after, limit, idling, s);
      }
    }
  }

  /** A page that is not cut short leaves out nothing it could hold. */
  lemma PageIsFull(detected: seq<Detected>, after: Option<int>, limit: Option<nat>, idling: bool, s: Detected)
    requires s in detected && (after.Some? ==> after.value < s.start) && (idling ==> s.maxSpeed <= 0.0)
    requires
      var page := PageOf(if after.Some? then After(detected, after.value) else detected, limit, idling);
      (limit.None? || |page| < limit.value) && (idling ==> |detected| <= 1600)
    ensures s in PageOf(if after.Some? then After(detected, after.value) else detected, limit, idling)
  {
    var rest := if after.Some? then After(detected, after.value) else detected;
    if after.Some? {
      AfterMembers(detected, after.value, s);
      AfterIsShorter(detected, after.value);
    }
    if idling {
      IdleMembers(CapIdlingCandidates(rest), s);
    }
  }

  lemma {:induction false} AfterIsShorter(list: seq<Detected>, after: int)
    ensures |After(list, after)| <= |list|
  {
    if list != [] {
      AfterIsShorter(list[..|list| - 1], after);
    }
  }

  lemma PageMembers(detected: seq<Detected>, after: Option<int>, limit: Option<nat>, idling: bool, s: Detected)
    requires s in PageOf(if after.Some? then After(detected, after.value) else detected, limit, idling)
    ensures s in detected && (after.Some? ==> after.value < s.start) && (idling ==> Idle(s))
  {
    var rest := if after.Some? then After(detected, after.value) else detected;
    if idling {
      IdleMembers(CapIdlingCandidates(rest), s);
    }
    assert s in rest;
    if after.Some? {
      AfterMembers(detected, after.value, s);
    }
  }

  // ----- following the cursor

  lemma {:induction false} IdleAppend(a: seq<Detected>, b: seq<Detected>)
    ensures IdleOnes(a + b) == IdleOnes(a) + IdleOnes(b)
  {
    if b == [] {
      assert a + b == a;
    } else {
      assert (a + b)[..|a + b| - 1] == a + b[..|b| - 1];
      IdleAppend(a, b[..|b| - 1]);
    }
  }

  lemma {:induction false} NoneIdle(list: seq<Detected>)
    ensures IdleOnes(list) == [] <==> forall i :: 0 <= i < |list| ==> !Idle(list[i])
  {
    if list != [] {
      NoneIdle(list[..|list| - 1]);
      assert IdleOnes(list) == [] ==> !Idle(list[|list| - 1]);
    }
  }

  lemma {:induction false} NoneAfter(list: seq<Detected>, after: int)
    requires forall i :: 0 <= i < |list| ==> list[i].start <= after
    ensures After(list, after) == []
  {
    if list != [] {
      NoneAfter(list[..|list| - 1], after);
    }
  }

  /** With strictly increasing starts the cursor leaves exactly what follows its segment. */
  lemma {:induction false} CursorIsSuffix(list: seq<Detected>, i: nat)
    requires InStartOrder(list) && i < |list|
    ensures After(list, list[i].start) == list[i + 1..]
    decreases |list|
  {
    var front, last := list[..|list| - 1], list[|list| - 1];
    if i == |list| - 1 {
      NoneAfter(front, last.start);
    } else {
      CursorIsSuffix(front, i);
      assert list[i + 1..] == front[i + 1..] + [last];
    }
  }

  /** A truncated filter result is the filter of a prefix that ends at its last element. */
  lemma {:induction false} TruncatedFilter(list: seq<Detected>, n: nat) returns (m: nat)
    requires 0 < n && IdleOnes(list) != []
    ensures 0 < m <= |list| && Idle(list[m - 1]) && Take(IdleOnes(list), n) == IdleOnes(list[..m])
  {
    var front := list[..|list| - 1];
    if IdleOnes(front) == [] {
      m := |list|;
      assert list[..m] == list;
    } else if |IdleOnes(front)| < n && Idle(list[|list| - 1]) {
      m := |list|;
      assert list[..m] == list;
    } else {
      m := TruncatedFilter(front, n);
      assert front[..m] == list[..m];
    }
  }

  /**
   The candidate at `j` is reachable: another idle one, or the start of the list, lies
   at most a full cap before it.
   */
  ghost predicate Reachable(list: seq<Detected>, j: nat) {
    j < IDLING_CANDIDATE_CAP || exists k :: 0 <= k < j <= k + IDLING_CANDIDATE_CAP && k < |list| && Idle(list[k])
  }

  /** Every idle candidate before position `i` is reachable. */
  ghost predicate ReachableTo(list: seq<Detected>, i: nat) {
    forall j: nat {:trigger Reachable(list, j)} :: j < i && j < |list| && Idle(list[j]) ==> Reachable(list, j)
  }

  /** No idle candidate comes right after as many moving ones as the cap. */
  ghost predicate NoLongMovingStretch(list: seq<Detected>) {
    forall j: nat {:trigger Reachable(list, j)} :: j < |list| && Idle(list[j]) ==> Reachable(list, j)
  }

  /** A page of idle segments ends at an idle candidate within the cap. */
  lemma NextIdlePage(list: seq<Detected>, i: nat, limit: nat) returns (m: nat)
    requires i <= |list| && 0 < limit && PageOf(list[i..], Some(limit), true) != []
    ensures i < m <= |list| && Idle(list[m - 1]) && m <= i + IDLING_CANDIDATE_CAP
    ensures PageOf(list[i..], Some(limit), true) == IdleOnes(list[i..m])
  {
    var cand := CapIdlingCandidates(list[i..]);
    var k := TruncatedFilter(cand, limit);
    m := i + k;
    assert cand[k - 1] == list[m - 1];
    assert cand[..k] == list[i..m];
  }

  lemma LastIdle(list: seq<Detected>)
    requires list != [] && Idle(list[|list| - 1])
    ensures IdleOnes(list) != [] && IdleOnes(list)[|IdleOnes(list)| - 1] == list[|list| - 1]
  {
  }

  /** One step of a client at position `i`: the next page and the position behind its last segment. */
  lemma NextPage(list: seq<Detected>, i: nat, limit: nat, idling: bool, page: seq<Detected>) returns (m: nat)
    requires i <= |list| && 0 < limit && page == PageOf(list[i..], Some(limit), idling) && page != []
    ensures i < m <= |list| && page[|page| - 1] == list[m - 1]
    ensures !idling ==> page == list[i..m]
    ensures idling ==> Idle(list[m - 1]) && m <= i + IDLING_CANDIDATE_CAP && page == IdleOnes(list[i..m])
  {
    if idling {
      m := NextIdlePage(list, i, limit);
      LastIdle(list[i..m]);
    } else {
      m := if limit < |list[i..]| then i + limit else |list|;
      assert page == list[i..m];
    }
  }

  /** A client has consumed the first `i` detected segments: its cursor, and all it was given so far. */
  ghost predicate Followed(list: seq<Detected>, i: nat, after: Option<int>, all: seq<Detected>, idling: bool) {
    && i <= |list|
    && after == (if i == 0 then None else Some(list[i - 1].start))
    && all == (if idling then IdleOnes(list[..i]) else list[..i])
    && (idling && 0 < i ==> Idle(list[i - 1]))
    && (idling ==> ReachableTo(list, i))
  }

  lemma RestAfterCursor(list: seq<Detected>, i: nat, after: Option<int>)
    requires InStartOrder(list) && i <= |list| && after == (if i == 0 then None else Some(list[i - 1].start))
    ensures (if after.Some? then After(list, after.value) else list) == list[i..]
  {
    if 0 < i {
      CursorIsSuffix(list, i - 1);
    }
  }

  /** One request of such a client. */
  method FollowOne(detected: seq<Detected>, after: Option<int>, limit: nat, idling: bool, ghost all: seq<Detected>,
      ghost i: nat)
    returns (page: seq<Detected>, ghost m: nat)
    requires InStartOrder(detected) && 0 < limit && Followed(detected, i, after, all, idling)
    ensures page == PageOf(detected[i..], Some(limit), idling)
    ensures page != [] ==> i < m && Followed(detected, m, Some(page[|page| - 1].start), all + page, idling)
  {
    page := GetPage(detected, after, Some(limit), idling);
    RestAfterCursor(detected, i, after);
    m := i;
    if page != [] {
      m := NextPage(detected, i, limit, idling, page);
      StepForward(detected, i, m, idling);
    }
  }

  /** A client that follows the last start as its cursor until a page comes back empty. */
  method FollowCursor(detected: seq<Detected>, limit: nat, idling: bool) returns (all: seq<Detected>)
    requires InStartOrder(detected) && 0 < limit
    ensures !idling ==> all == detected
    ensures idling ==> (all == IdleOnes(detected) <==> NoLongMovingStretch(detected))
    ensures InStartOrder(all) && forall s :: s in all ==> s in detected && (idling ==> s.maxSpeed <= 0.0)
    ensures idling && NoLongMovingStretch(detected) ==> forall s :: s in detected && s.maxSpeed <= 0.0 ==> s in all
  {
    all := [];
    var after: Option<int> := None;
    ghost var i := 0;
    var page;
    while true
      invariant 0 <= i && Followed(detected, i, after, all, idling)
      decreases |detected| - i
    {
      ghost var m;
      page, m := FollowOne(detected, after, limit, idling, all, i);
      if page == [] {
        break;
      }
      all, after, i := all + page, Some(page[|page| - 1].start), m;
    }
    if idling {
      NothingIdleAhead(detected, i, limit);
      StuckIff(detected, i);
      IdleFollowed(detected, i);
    }
  }

  /** What an idling client has been given, in terms of the detected list. */
  lemma IdleFollowed(detected: seq<Detected>, i: nat)
    requires InStartOrder(detected) && i <= |detected|
    ensures InStartOrder(IdleOnes(detected[..i]))
    ensures forall s :: s in IdleOnes(detected[..i]) ==> s in detected && s.maxSpeed <= 0.0
    ensures forall s :: s in IdleOnes(detected) <==> s in detected && s.maxSpeed <= 0.0
  {
    IdleOnesInOrder(detected[..i]);
    forall s ensures s in IdleOnes(detected[..i]) ==> s in detected && s.maxSpeed <= 0.0 {
      IdleMembers(detected[..i], s);
    }
    forall s ensures s in IdleOnes(detected) <==> s in detected && s.maxSpeed <= 0.0 {
      IdleMembers(detected, s);
    }
  }

  lemma NothingIdleAhead(list: seq<Detected>, i: nat, limit: nat)
    requires i <= |list| && 0 < limit && PageOf(list[i..], Some(limit), true) == []
    ensures IdleOnes(CapIdlingCandidates(list[i..])) == []
  {
  }

  lemma StepForward(list: seq<Detected>, i: nat, m: nat, idling: bool)
    requires i < m <= |list|
    ensures list[..m] == list[..i] + list[i..m] && IdleOnes(list[..m]) == IdleOnes(list[..i]) + IdleOnes(list[i..m])
    ensures idling && m <= i + IDLING_CANDIDATE_CAP && (0 < i ==> Idle(list[i - 1])) && ReachableTo(list, i) ==>
        ReachableTo(list, m)
  {
    assert list[..m] == list[..i] + list[i..m];
    IdleAppend(list[..i], list[i..m]);
  }

  /** An empty page at `i` is the end of the idle segments exactly when no moving stretch was too long. */
  lemma StuckIff(list: seq<Detected>, i: nat)
    requires i <= |list| && IdleOnes(CapIdlingCandidates(list[i..])) == []
    requires ReachableTo(list, i)
    ensures IdleOnes(list[..i]) == IdleOnes(list) <==> NoLongMovingStretch(list)
  {
    var rest := list[i..];
    assert list == list[..i] + rest;
    IdleAppend(list[..i], rest);
    NoneIdle(rest);
    var cand := CapIdlingCandidates(rest);
    NoneIdle(cand);
    forall j: nat | i <= j < |list| && j < i + IDLING_CANDIDATE_CAP ensures !Idle(list[j]) {
      assert list[j] == cand[j - i];
    }
    if NoLongMovingStretch(list) {
      NoneLeft(list, i);
    } else {
      var j: nat :| j < |list| && Idle(list[j]) && !Reachable(list, j);
      assert rest[j - i] == list[j];
    }
  }

  lemma NoneLeft(list: seq<Detected>, i: nat)
    requires i <= |list| && NoLongMovingStretch(list)
    requires forall j: nat :: i <= j < |list| && j < i + IDLING_CANDIDATE_CAP ==> !Idle(list[j])
    ensures forall j: nat :: i <= j < |list| ==> !Idle(list[j])
  {
    var j: nat := i;
    while j < |list|
      invariant i <= j <= |list|
      invariant forall k: nat :: i <= k < j ==> !Idle(list[k])
    {
      assert Idle(list[j]) ==> Reachable(list, j);
      j := j + 1;
    }
  }

  /** At most as many candidates as the cap: nothing can be missed. */
  lemma FewCandidates(list: seq<Detected>)
    requires |list| <= IDLING_CANDIDATE_CAP
    ensures NoLongMovingStretch(list)
  {
    forall j: nat | j < |list| && Idle(list[j]) ensures Reachable(list, j) {
    }
  }
}
