/**
 Insertion sort by a total preorder, standing for the source's calls to its sort
 packages, and the order of strings.
 */
module Sorting {

  ghost predicate TotalPreorder<T(!new)>(le: (T, T) -> bool) {
    && (forall a, b :: le(a, b) || le(b, a))
    && (forall a, b, c :: le(a, b) && le(b, c) ==> le(a, c))
  }

  ghost predicate Sorted<T>(le: (T, T) -> bool, s: seq<T>) {
    forall i, j :: 0 <= i < j < |s| ==> le(s[i], s[j])
  }

  ghost function AsSet<T>(s: seq<T>): set<T> {
    set x | x in s
  }

  function InsertSorted<T>(le: (T, T) -> bool, x: T, s: seq<T>): seq<T> {
    if s == [] then [x]
    else if le(x, s[0]) then [x] + s
    else [s[0]] + InsertSorted(le, x, s[1..])
  }

  function Sort<T>(le: (T, T) -> bool, s: seq<T>): seq<T> {
    if s == [] then [] else InsertSorted(le, s[0], Sort(le, s[1..]))
  }

  lemma {:induction false} InsertPermutes<T>(le: (T, T) -> bool, x: T, s: seq<T>)
    ensures multiset(InsertSorted(le, x, s)) == multiset(s) + multiset{x}
  {
    if s != [] {
      assert s == [s[0]] + s[1..];
      InsertPermutes(le, x, s[1..]);
    }
  }

  lemma InsertMembers<T>(le: (T, T) -> bool, x: T, s: seq<T>, y: T)
    requires y in InsertSorted(le, x, s)
    ensures y == x || y in s
  {
    InsertPermutes(le, x, s);
    assert y in multiset(InsertSorted(le, x, s));
  }

  lemma {:induction false} InsertSorts<T(!new)>(le: (T, T) -> bool, x: T, s: seq<T>)
    requires TotalPreorder(le) && Sorted(le, s)
    ensures Sorted(le, InsertSorted(le, x, s))
  {
    if s != [] && !le(x, s[0]) {
      var r := InsertSorted(le, x, s[1..]);
      InsertSorts(le, x, s[1..]);
      forall j | 0 <= j < |r| ensures le(s[0], r[j]) {
        InsertMembers(le, x, s[1..], r[j]);
      }
    }
  }

  /** The result is sorted and has exactly the elements of the input. */
  lemma {:induction false} SortIsSorted<T(!new)>(le: (T, T) -> bool, s: seq<T>)
    requires TotalPreorder(le)
    ensures Sorted(le, Sort(le, s)) && multiset(Sort(le, s)) == multiset(s) && |Sort(le, s)| == |s|
  {
    if s != [] {
      SortIsSorted(le, s[1..]);
      InsertSorts(le, s[0], Sort(le, s[1..]));
      InsertPermutes(le, s[0], Sort(le, s[1..]));
      assert s == [s[0]] + s[1..];
    }
    assert |multiset(Sort(le, s))| == |multiset(s)|;
  }

  // ----- parts of a list

  /** `part` is the list's elements at the positions `idx`, in order. */
  ghost predicate Selects<T>(s: seq<T>, idx: seq<nat>, part: seq<T>) {
    && |idx| == |part| && (forall k :: 0 <= k < |idx| ==> idx[k] < |s| && part[k] == s[idx[k]])
    && forall k, l :: 0 <= k < l < |idx| ==> idx[k] < idx[l]
  }

  /** One element more, taken or not. */
  lemma SelectsNext<T>(s: seq<T>, n: nat, idx: seq<nat>, part: seq<T>)
    requires n < |s| && Selects(s[..n], idx, part)
    ensures Selects(s[..n + 1], idx, part) && Selects(s[..n + 1], idx + [n], part + [s[n]])
    ensures forall i: nat :: i in idx + [n] <==> i in idx || i == n
  {
  }

  /** `part` is the list's marked elements, in order, and nothing else. */
  ghost predicate IsMarkedPart<T>(s: seq<T>, keep: seq<bool>, part: seq<T>) {
    |keep| == |s| && exists idx :: Selects(s, idx, part) && forall i: nat :: i in idx <==> i < |s| && keep[i]
  }

  lemma NothingMarked<T>(s: seq<T>, keep: seq<bool>)
    requires s == [] && keep == []
    ensures IsMarkedPart(s, keep, [])
  {
    var idx: seq<nat> := [];
    assert Selects(s, idx, []);
  }

  /** One element more, taken if it is marked. */
  lemma MarkedNext<T>(s: seq<T>, keep: seq<bool>, n: nat, part: seq<T>)
    requires n < |s| == |keep| && IsMarkedPart(s[..n], keep[..n], part)
    ensures IsMarkedPart(s[..n + 1], keep[..n + 1], if keep[n] then part + [s[n]] else part)
  {
    var idx :| Selects(s[..n], idx, part) && forall i: nat :: i in idx <==> i < n && keep[..n][i];
    SelectsNext(s, n, idx, part);
    var next := if keep[n] then idx + [n] else idx;
    forall i: nat ensures i in next <==> i < n + 1 && keep[..n + 1][i] {
      assert i < n ==> keep[..n][i] == keep[..n + 1][i];
    }
  }

  /** `parts` collects the marked elements one by one. */
  ghost predicate Collects<T>(s: seq<T>, keep: seq<bool>, parts: seq<seq<T>>) {
    && |keep| == |s| && |parts| == |s| + 1 && parts[0] == []
    && forall n {:trigger keep[n]} :: 0 <= n < |s| ==> parts[n + 1] == if keep[n] then parts[n] + [s[n]] else parts[n]
  }

  lemma CollectedIsMarked<T>(s: seq<T>, keep: seq<bool>, parts: seq<seq<T>>)
    requires Collects(s, keep, parts)
    ensures IsMarkedPart(s, keep, parts[|s|])
  {
    NothingMarked(s[..0], keep[..0]);
    for n := 0 to |s|
      invariant IsMarkedPart(s[..n], keep[..n], parts[n])
    {
      MarkedNext(s, keep, n, parts[n]);
    }
    assert s[..|s|] == s && keep[..|s|] == keep;
  }

  // ----- strings in byte order

  predicate StringLE(a: string, b: string) {
    a == [] || (b != [] && (a[0] < b[0] || (a[0] == b[0] && StringLE(a[1..], b[1..]))))
  }

  lemma {:induction false} StringTotal(a: string, b: string)
    ensures StringLE(a, b) || StringLE(b, a)
  {
    if a != [] && b != [] && a[0] == b[0] {
      StringTotal(a[1..], b[1..]);
    }
  }

  lemma {:induction false} StringTransitive(a: string, b: string, c: string)
    requires StringLE(a, b) && StringLE(b, c)
    ensures StringLE(a, c)
  {
    if a != [] && a[0] == b[0] == c[0] {
      StringTransitive(a[1..], b[1..], c[1..]);
    }
  }

  /** The order is the lexicographic one: at the first difference the smaller character, or the end, comes first. */
  lemma {:induction false} StringLEIff(a: string, b: string)
    ensures StringLE(a, b) <==> exists i: nat :: DiffersAt(a, b, i)
  {
    if a == [] || b == [] || a[0] != b[0] {
      FirstDiffers(a, b);
    } else {
      StringLEIff(a[1..], b[1..]);
      if i: nat :| DiffersAt(a[1..], b[1..], i) {
        assert a[..i + 1] == [a[0]] + a[1..][..i] && b[..i + 1] == [b[0]] + b[1..][..i];
        assert DiffersAt(a, b, i + 1);
      }
      if i: nat :| DiffersAt(a, b, i) {
        assert 0 < i;
        assert a[1..][..i - 1] == a[..i][1..] && b[1..][..i - 1] == b[..i][1..];
        assert DiffersAt(a[1..], b[1..], i - 1);
      }
    }
  }

  lemma FirstDiffers(a: string, b: string)
    requires a == [] || b == [] || a[0] != b[0]
    ensures StringLE(a, b) <==> DiffersAt(a, b, 0)
    ensures forall i: nat :: DiffersAt(a, b, i) ==> i == 0
  {
    forall i: nat | 0 < i <= |a| && i <= |b| ensures a[..i] != b[..i] {
      assert a[..i][0] == a[0] && b[..i][0] == b[0];
    }
  }

  /** The two agree before `i`, where the first ends or has the smaller character. */
  predicate DiffersAt(a: string, b: string, i: nat) {
    i <= |a| && i <= |b| && a[..i] == b[..i] && (i == |a| || (i < |b| && a[i] < b[i]))
  }

  lemma StringOrder()
    ensures TotalPreorder(StringLE)
  {
    forall a, b ensures StringLE(a, b) || StringLE(b, a) {
      StringTotal(a, b);
    }
    forall a, b, c | StringLE(a, b) && StringLE(b, c) ensures StringLE(a, c) {
      StringTransitive(a, b, c);
    }
  }
}
