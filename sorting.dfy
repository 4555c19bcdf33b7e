/**
 * Sorting of coordinate arrays, as used by the trimmed bounding box.
 *
 * SortSeq (a functional insertion sort) is the specification: it is proved to
 * return a sorted permutation, and SortedUnique shows that the sorted
 * permutation of a sequence is unique, so any in-place sort that returns a
 * sorted permutation (SortInPlace) returns exactly SortSeq of its input.
 * Count and the lemmas about it say how many elements satisfy a predicate,
 * which is how the trimmed box's coverage is stated.
 */
module Sorting {

  predicate Sorted(s: seq<real>) {
    forall j, k :: 0 <= j < k < |s| ==> s[j] <= s[k]
  }

  /** A head no larger than any element of a sorted tail keeps the sequence sorted. */
  lemma SortedCons(h: real, t: seq<real>)
    requires Sorted(t)
    requires forall k :: 0 <= k < |t| ==> h <= t[k]
    ensures Sorted([h] + t)
  {
    var s := [h] + t;
    forall j, k | 0 <= j < k < |s| ensures s[j] <= s[k] {
      if j > 0 {
        assert s[j] == t[j - 1] && s[k] == t[k - 1];
      } else {
        assert s[k] == t[k - 1];
      }
    }
  }

  /** Inserts x into a sorted sequence, before the first element not below it. */
  function Insert(x: real, s: seq<real>): (r: seq<real>)
    requires Sorted(s)
    ensures Sorted(r)
    ensures multiset(r) == multiset(s) + multiset{x}
    ensures |r| == |s| + 1
  {
    if s == [] || x <= s[0] then
      SortedCons(x, s);
      [x] + s
    else
      var rest := Insert(x, s[1..]);
      InsertTailBound(x, s, rest);
      SortedCons(s[0], rest);
      [s[0]] + rest
  }

  /** Inserting x past the head: the head is below everything in the new tail, and no element is lost. */
  lemma InsertTailBound(x: real, s: seq<real>, rest: seq<real>)
    requires Sorted(s) && s != [] && x > s[0]
    requires multiset(rest) == multiset(s[1..]) + multiset{x}
    ensures forall k :: 0 <= k < |rest| ==> s[0] <= rest[k]
    ensures multiset([s[0]] + rest) == multiset(s) + multiset{x}
  {
    assert s == [s[0]] + s[1..];
    forall k | 0 <= k < |rest| ensures s[0] <= rest[k] {
      assert rest[k] in multiset(rest);
      assert rest[k] == x || rest[k] in multiset(s[1..]);
    }
  }

  /** The sorted permutation of s. */
  function SortSeq(s: seq<real>): (r: seq<real>)
    ensures Sorted(r)
    ensures multiset(r) == multiset(s)
    ensures |r| == |s|
  {
    if s == [] then
      []
    else
      assert s == [s[0]] + s[1..];
      Insert(s[0], SortSeq(s[1..]))
  }

  /** Two sorted sequences with the same elements are equal. */
  lemma {:induction false} SortedUnique(a: seq<real>, b: seq<real>)
    requires Sorted(a) && Sorted(b)
    requires multiset(a) == multiset(b)
    ensures a == b
  {
    assert |a| == |multiset(a)| == |multiset(b)| == |b|;
    if a != [] {
      assert a[0] in multiset(b);
      assert b[0] in multiset(a);
      assert a[0] == b[0] by {
        var i :| 0 <= i < |b| && b[i] == a[0];
        var j :| 0 <= j < |a| && a[j] == b[0];
        assert b[0] <= b[i] && a[0] <= a[j];
      }
      assert a == [a[0]] + a[1..];
      assert b == [b[0]] + b[1..];
      assert multiset(a[1..]) == multiset(a) - multiset{a[0]};
      assert multiset(b[1..]) == multiset(b) - multiset{b[0]};
      SortedUnique(a[1..], b[1..]);
    }
  }

  /** A sorted sequence is its own sorted permutation. */
  lemma SortSeqOfSorted(s: seq<real>)
    requires Sorted(s)
    ensures SortSeq(s) == s
  {
    SortedUnique(SortSeq(s), s);
  }

  /** Every element minus c. */
  function Shift(s: seq<real>, c: real): (r: seq<real>)
    ensures |r| == |s|
  {
    if s == [] then [] else [s[0] - c] + Shift(s[1..], c)
  }

  lemma {:induction false} ShiftAt(s: seq<real>, c: real, i: int)
    requires 0 <= i < |s|
    ensures Shift(s, c)[i] == s[i] - c
  {
    if i > 0 {
      ShiftAt(s[1..], c, i - 1);
    }
  }

  /** Shift subtracts c from every element, in place. */
  lemma ShiftPointwise(s: seq<real>, c: real)
    ensures forall i :: 0 <= i < |s| ==> Shift(s, c)[i] == s[i] - c
  {
    forall i | 0 <= i < |s| ensures Shift(s, c)[i] == s[i] - c {
      ShiftAt(s, c, i);
    }
  }

  lemma ShiftSorted(s: seq<real>, c: real)
    requires Sorted(s)
    ensures Sorted(Shift(s, c))
  {
    var r := Shift(s, c);
    forall j, k | 0 <= j < k < |r| ensures r[j] <= r[k] {
      ShiftAt(s, c, j);
      ShiftAt(s, c, k);
    }
  }

  lemma ShiftCons(h: real, t: seq<real>, c: real)
    ensures Shift([h] + t, c) == [h - c] + Shift(t, c)
  {
    assert ([h] + t)[1..] == t;
  }

  lemma SortedTail(s: seq<real>)
    requires Sorted(s) && s != []
    ensures Sorted(s[1..])
  {
  }

  /** Insert puts x in front when it is not above the first element. */
  lemma InsertFront(x: real, s: seq<real>)
    requires Sorted(s) && (s == [] || x <= s[0])
    ensures Insert(x, s) == [x] + s
  {
  }

  /** Otherwise the first element stays first and x goes into the tail. */
  lemma InsertPast(x: real, h: real, t: seq<real>, u: seq<real>)
    requires u == [h] + t && Sorted(u) && x > h
    ensures Sorted(t)
    ensures Insert(x, u) == [h] + Insert(x, t)
  {
    assert u[0] == h;
    assert u[1..] == t;
  }

  lemma ShiftTail(s: seq<real>, c: real)
    requires s != []
    ensures Shift(s, c) == [s[0] - c] + Shift(s[1..], c)
  {
  }

  lemma {:induction false} InsertShift(x: real, s: seq<real>, c: real)
    requires Sorted(s)
    ensures Sorted(Shift(s, c))
    ensures Insert(x - c, Shift(s, c)) == Shift(Insert(x, s), c)
  {
    ShiftSorted(s, c);
    if s == [] || x <= s[0] {
      InsertShiftFront(x, s, c);
    } else {
      SortedTail(s);
      InsertShift(x, s[1..], c);
      InsertShiftPast(x, s, c);
    }
  }

  lemma InsertShiftFront(x: real, s: seq<real>, c: real)
    requires Sorted(s) && Sorted(Shift(s, c)) && (s == [] || x <= s[0])
    ensures Insert(x - c, Shift(s, c)) == Shift(Insert(x, s), c)
  {
    InsertFront(x - c, Shift(s, c));
    InsertFront(x, s);
    ShiftCons(x, s, c);
  }

  lemma InsertShiftPast(x: real, s: seq<real>, c: real)
    requires Sorted(s) && Sorted(Shift(s, c)) && s != [] && x > s[0]
    requires Sorted(s[1..]) && Sorted(Shift(s[1..], c))
    requires Insert(x - c, Shift(s[1..], c)) == Shift(Insert(x, s[1..]), c)
    ensures Insert(x - c, Shift(s, c)) == Shift(Insert(x, s), c)
  {
    InsertPastShifted(x, s, c);
    ShiftInsertPast(x, s, c);
  }

  /** The left-hand side of InsertShift, one step down. */
  lemma InsertPastShifted(x: real, s: seq<real>, c: real)
    requires Sorted(s) && Sorted(Shift(s, c)) && s != [] && x > s[0]
    ensures Sorted(Shift(s[1..], c))
    ensures Insert(x - c, Shift(s, c)) == [s[0] - c] + Insert(x - c, Shift(s[1..], c))
  {
    ShiftTail(s, c);
    InsertPast(x - c, s[0] - c, Shift(s[1..], c), Shift(s, c));
  }

  /** The right-hand side of InsertShift, one step down. */
  lemma ShiftInsertPast(x: real, s: seq<real>, c: real)
    requires Sorted(s) && s != [] && x > s[0]
    ensures Sorted(s[1..])
    ensures Shift(Insert(x, s), c) == [s[0] - c] + Shift(Insert(x, s[1..]), c)
  {
    assert s == [s[0]] + s[1..];
    InsertPast(x, s[0], s[1..], s);
    ShiftEq(Insert(x, s), [s[0]] + Insert(x, s[1..]), c);
    ShiftCons(s[0], Insert(x, s[1..]), c);
  }

  lemma ShiftEq(a: seq<real>, b: seq<real>, c: real)
    requires a == b
    ensures Shift(a, c) == Shift(b, c)
  {
  }

  lemma SortSeqCons(h: real, t: seq<real>, u: seq<real>)
    requires u == [h] + t
    ensures SortSeq(u) == Insert(h, SortSeq(t))
  {
    assert u[0] == h && u[1..] == t;
  }

  /** Sorting commutes with a translation: the order of coordinates does not depend on the origin. */
  lemma {:induction false} SortShift(s: seq<real>, c: real)
    ensures SortSeq(Shift(s, c)) == Shift(SortSeq(s), c)
  {
    if s != [] {
      assert s == [s[0]] + s[1..];
      ShiftCons(s[0], s[1..], c);
      SortSeqCons(s[0] - c, Shift(s[1..], c), Shift(s, c));
      SortSeqCons(s[0], s[1..], s);
      SortShift(s[1..], c);
      InsertShift(s[0], SortSeq(s[1..]), c);
    }
  }

  /** Number of elements of s that satisfy p. */
  function Count(s: seq<real>, p: real -> bool): (n: nat)
    ensures n <= |s|
  {
    if s == [] then 0 else (if p(s[0]) then 1 else 0) + Count(s[1..], p)
  }

  lemma CountCons(s: seq<real>, h: real, t: seq<real>, p: real -> bool)
    requires s == [h] + t
    ensures Count(s, p) == (if p(h) then 1 else 0) + Count(t, p)
  {
    assert s[0] == h && s[1..] == t;
  }

  lemma {:induction false} CountAppend(a: seq<real>, b: seq<real>, p: real -> bool)
    ensures Count(a + b, p) == Count(a, p) + Count(b, p)
  {
    if a == [] {
      assert a + b == b;
    } else {
      assert a == [a[0]] + a[1..];
      CountCons(a, a[0], a[1..], p);
      CountCons(a + b, a[0], a[1..] + b, p);
      CountAppend(a[1..], b, p);
    }
  }

  lemma {:induction false} CountAll(s: seq<real>, p: real -> bool)
    requires forall i :: 0 <= i < |s| ==> p(s[i])
    ensures Count(s, p) == |s|
  {
    if s != [] {
      CountAll(s[1..], p);
    }
  }

  lemma {:induction false} CountNone(s: seq<real>, p: real -> bool)
    requires forall i :: 0 <= i < |s| ==> !p(s[i])
    ensures Count(s, p) == 0
  {
    if s != [] {
      CountNone(s[1..], p);
    }
  }

  lemma {:induction false} CountInsert(x: real, s: seq<real>, p: real -> bool)
    requires Sorted(s)
    ensures Count(Insert(x, s), p) == Count(s, p) + (if p(x) then 1 else 0)
  {
    if s != [] && x > s[0] {
      CountInsert(x, s[1..], p);
    }
  }

  /** Sorting does not change how many elements satisfy a predicate. */
  lemma {:induction false} CountSort(s: seq<real>, p: real -> bool)
    ensures Count(SortSeq(s), p) == Count(s, p)
  {
    if s != [] {
      CountSort(s[1..], p);
      CountInsert(s[0], SortSeq(s[1..]), p);
    }
  }

  /** The predicates counted by the order-statistics lemma. */
  function Within(lo: real, hi: real): real -> bool {
    v => lo <= v <= hi
  }

  function Below(b: real): real -> bool {
    v => v < b
  }

  function Above(b: real): real -> bool {
    v => v > b
  }

  function AtMost(b: real): real -> bool {
    v => v <= b
  }

  function AtLeast(b: real): real -> bool {
    v => v >= b
  }

  /** Counting over a concatenation adds the counts of the parts. */
  lemma CountConcat(u: seq<real>, a: seq<real>, b: seq<real>, p: real -> bool)
    requires u == a + b
    ensures Count(u, p) == Count(a, p) + Count(b, p)
  {
    CountAppend(a, b, p);
  }

  lemma CountSplit(t: seq<real>, lo: int, hi: int, p: real -> bool)
    requires 0 <= lo <= hi < |t|
    ensures Count(t, p) == Count(t[..lo], p) + Count(t[lo..hi + 1], p) + Count(t[hi + 1..], p)
  {
    SliceParts(t, lo, hi);
    CountConcat(t, t[..lo], t[lo..], p);
    CountConcat(t[lo..], t[lo..hi + 1], t[hi + 1..], p);
  }

  lemma SliceParts(t: seq<real>, lo: int, hi: int)
    requires 0 <= lo <= hi < |t|
    ensures t == t[..lo] + t[lo..]
    ensures t[lo..] == t[lo..hi + 1] + t[hi + 1..]
  {
  }

  /** In a sorted sequence every element between ranks lo and hi lies between the elements at those ranks. */
  lemma SortedBetween(t: seq<real>, lo: int, hi: int, mid: seq<real>)
    requires Sorted(t) && 0 <= lo <= hi < |t| && mid == t[lo..hi + 1]
    ensures forall i :: 0 <= i < |mid| ==> Within(t[lo], t[hi])(mid[i])
  {
    forall i | 0 <= i < |mid| ensures Within(t[lo], t[hi])(mid[i]) {
      assert mid[i] == t[lo + i];
      assert t[lo] <= t[lo + i] <= t[hi];
    }
  }

  lemma SortedWithin(t: seq<real>, lo: int, hi: int)
    requires Sorted(t) && 0 <= lo <= hi < |t|
    ensures Count(t, Within(t[lo], t[hi])) >= hi - lo + 1
  {
    CountSplit(t, lo, hi, Within(t[lo], t[hi]));
    SortedBetween(t, lo, hi, t[lo..hi + 1]);
    CountAll(t[lo..hi + 1], Within(t[lo], t[hi]));
  }

  lemma SortedBelow(t: seq<real>, lo: int, hi: int)
    requires Sorted(t) && 0 <= lo <= hi < |t|
    ensures Count(t, Below(t[lo])) <= lo
  {
    var p := Below(t[lo]);
    CountSplit(t, lo, hi, p);
    var mid, top := t[lo..hi + 1], t[hi + 1..];
    forall i | 0 <= i < |mid| ensures !p(mid[i]) {
      assert mid[i] == t[lo + i];
    }
    forall i | 0 <= i < |top| ensures !p(top[i]) {
      assert top[i] == t[hi + 1 + i];
    }
    CountNone(mid, p);
    CountNone(top, p);
  }

  lemma SortedAbove(t: seq<real>, lo: int, hi: int)
    requires Sorted(t) && 0 <= lo <= hi < |t|
    ensures Count(t, Above(t[hi])) <= |t| - 1 - hi
  {
    var p := Above(t[hi]);
    CountSplit(t, lo, hi, p);
    var bottom, mid := t[..lo], t[lo..hi + 1];
    forall i | 0 <= i < |bottom| ensures !p(bottom[i]) {
      assert bottom[i] == t[i];
    }
    forall i | 0 <= i < |mid| ensures !p(mid[i]) {
      assert mid[i] == t[lo + i];
    }
    CountNone(bottom, p);
    CountNone(mid, p);
  }

  /** In a sorted sequence the lo + 1 elements up to rank lo are at most the element there. */
  lemma SortedAtMost(t: seq<real>, lo: int)
    requires Sorted(t) && 0 <= lo < |t|
    ensures Count(t, AtMost(t[lo])) >= lo + 1
  {
    var p := AtMost(t[lo]);
    var bottom, rest := t[..lo + 1], t[lo + 1..];
    CountConcat(t, bottom, rest, p);
    forall i | 0 <= i < |bottom| ensures p(bottom[i]) {
      assert bottom[i] == t[i];
    }
    CountAll(bottom, p);
  }

  /** In a sorted sequence the |t| - hi elements from rank hi on are at least the element there. */
  lemma SortedAtLeast(t: seq<real>, hi: int)
    requires Sorted(t) && 0 <= hi < |t|
    ensures Count(t, AtLeast(t[hi])) >= |t| - hi
  {
    var p := AtLeast(t[hi]);
    var rest, top := t[..hi], t[hi..];
    CountConcat(t, rest, top, p);
    forall i | 0 <= i < |top| ensures p(top[i]) {
      assert top[i] == t[hi + i];
    }
    CountAll(top, p);
  }

  /**
   * The other half of the order statistics: at least lo + 1 elements of s are
   * at most the element of rank lo, and at least |s| - hi are at least the
   * element of rank hi. With OrderStatistics this pins both down as the
   * elements of those ranks.
   */
  lemma OrderTails(s: seq<real>, lo: int, hi: int)
    requires 0 <= lo <= hi < |s|
    ensures Count(s, AtMost(SortSeq(s)[lo])) >= lo + 1
    ensures Count(s, AtLeast(SortSeq(s)[hi])) >= |s| - hi
  {
    var t := SortSeq(s);
    CountSort(s, AtMost(t[lo]));
    SortedAtMost(t, lo);
    CountSort(s, AtLeast(t[hi]));
    SortedAtLeast(t, hi);
  }

  /**
   * Order statistics of s at ranks lo and hi: at least hi - lo + 1 elements lie
   * in the closed range between them, at most lo lie below it and at most
   * |s| - 1 - hi lie above it.
   */
  lemma OrderStatistics(s: seq<real>, lo: int, hi: int)
    requires 0 <= lo <= hi < |s|
    ensures SortSeq(s)[lo] <= SortSeq(s)[hi]
    ensures Count(s, Within(SortSeq(s)[lo], SortSeq(s)[hi])) >= hi - lo + 1
    ensures Count(s, Below(SortSeq(s)[lo])) <= lo
    ensures Count(s, Above(SortSeq(s)[hi])) <= |s| - 1 - hi
  {
    var t := SortSeq(s);
    CountSort(s, Within(t[lo], t[hi]));
    SortedWithin(t, lo, hi);
    CountSort(s, Below(t[lo]));
    SortedBelow(t, lo, hi);
    CountSort(s, Above(t[hi]));
    SortedAbove(t, lo, hi);
  }

  /** Index of a smallest element of a[from..]. */
  method MinIndex(a: array<real>, from: int) returns (m: int)
    requires 0 <= from < a.Length
    ensures from <= m < a.Length
    ensures forall k :: from <= k < a.Length ==> a[m] <= a[k]
  {
    m := from;
    var i := from + 1;
    while i < a.Length
      invariant from <= m < i <= a.Length
      invariant forall k :: from <= k < i ==> a[m] <= a[k]
    {
      if a[i] < a[m] {
        m := i;
      }
      i := i + 1;
    }
  }

  method Swap(a: array<real>, i: int, j: int)
    requires 0 <= i < a.Length && 0 <= j < a.Length
    modifies a
    ensures a[i] == old(a[j]) && a[j] == old(a[i])
    ensures forall k :: 0 <= k < a.Length && k != i && k != j ==> a[k] == old(a[k])
    ensures multiset(a[..]) == multiset(old(a[..]))
  {
    a[i], a[j] := a[j], a[i];
  }

  /** Sorts a in place (Array.Sort); the result is the sorted permutation of the input. */
  method SortInPlace(a: array<real>)
    modifies a
    ensures a[..] == SortSeq(old(a[..]))
  {
    var i := 0;
    while i < a.Length
      invariant 0 <= i <= a.Length
      invariant forall j, k :: 0 <= j < k < i ==> a[j] <= a[k]
      invariant forall j, k :: 0 <= j < i <= k < a.Length ==> a[j] <= a[k]
      invariant multiset(a[..]) == multiset(old(a[..]))
    {
      var m := MinIndex(a, i);
      Swap(a, i, m);
      i := i + 1;
    }
    SortedUnique(a[..], SortSeq(old(a[..])));
  }
}
