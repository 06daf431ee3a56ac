/** String order and insertion sort, as sort.Strings, sort.SliceStable and jsonenc's sortStrings use them. */
module Ordering {

  // Go compares strings byte by byte, which for UTF-8 is the order of the code points.
  predicate Less(a: string, b: string) {
    b != "" && (a == "" || a[0] < b[0] || (a[0] == b[0] && Less(a[1..], b[1..])))
  }

  lemma {:induction false} LessTransitive(a: string, b: string, c: string)
    requires Less(a, b) && Less(b, c)
    ensures Less(a, c)
  {
    if a != "" && a[0] == b[0] == c[0] {
      LessTransitive(a[1..], b[1..], c[1..]);
    }
  }

  lemma {:induction false} LessIrreflexive(a: string)
    ensures !Less(a, a)
  {
    if a != "" {
      LessIrreflexive(a[1..]);
    }
  }

  lemma {:induction false} LessTotal(a: string, b: string)
    ensures Less(a, b) || Less(b, a) || a == b
  {
    if a != "" && b != "" && a[0] == b[0] {
      LessTotal(a[1..], b[1..]);
      assert a == [a[0]] + a[1..] && b == [b[0]] + b[1..];
    }
  }

  function MapSeq<T, U>(f: T -> U, s: seq<T>): (r: seq<U>)
    ensures |r| == |s| && forall i :: 0 <= i < |s| ==> r[i] == f(s[i])
  {
    seq(|s|, i requires 0 <= i < |s| => f(s[i]))
  }

  lemma RemoveOne<T>(s: seq<T>, j: nat)
    requires j < |s|
    ensures multiset(s[..j] + s[j + 1..]) == multiset(s) - multiset{s[j]}
    ensures s[j] in multiset(s)
  {
    assert s == s[..j] + [s[j]] + s[j + 1..];
  }

  lemma SameAgain<T>(a: multiset<T>, b: multiset<T>, x: T)
    requires x in a && x in b && a - multiset{x} == b - multiset{x}
    ensures a == b
  {
    assert a == (a - multiset{x}) + multiset{x} && b == (b - multiset{x}) + multiset{x};
  }

  // Equal multisets stay equal when an element is taken out of both.
  lemma Matching<T>(a: seq<T>, b: seq<T>) returns (j: nat)
    requires multiset(a) == multiset(b) && a != []
    ensures j < |b| && b[j] == a[0] && multiset(a[..0] + a[1..]) == multiset(b[..j] + b[j + 1..])
  {
    assert a[0] in multiset(b);
    j :| 0 <= j < |b| && b[j] == a[0];
    RemoveOne(a, 0);
    RemoveOne(b, j);
  }

  lemma {:induction false} MapPermutes<T, U>(f: T -> U, a: seq<T>, b: seq<T>)
    requires multiset(a) == multiset(b)
    ensures multiset(MapSeq(f, a)) == multiset(MapSeq(f, b))
    decreases |a|
  {
    hide MapSeq;
    assert |multiset(a)| == |a| && |multiset(b)| == |b|;
    if a == [] {
      assert MapSeq(f, a) == [] == MapSeq(f, b);
    } else {
      var j := Matching(a, b);
      MapPermutes(f, a[..0] + a[1..], b[..j] + b[j + 1..]);
      MapWithout(f, a, 0);
      MapWithout(f, b, j);
      SameAgain(multiset(MapSeq(f, a)), multiset(MapSeq(f, b)), f(a[0]));
    }
  }

  lemma MapWithout<T, U>(f: T -> U, s: seq<T>, j: nat)
    requires j < |s|
    ensures multiset(MapSeq(f, s[..j] + s[j + 1..])) == multiset(MapSeq(f, s)) - multiset{f(s[j])}
    ensures f(s[j]) in multiset(MapSeq(f, s))
  {
    hide MapSeq;
    var m := MapSeq(f, s);
    assert m[j] == f(s[j]);
    RemoveOne(m, j);
    assert MapSeq(f, s[..j] + s[j + 1..]) == m[..j] + m[j + 1..];
  }

  // What the sorting functions ask of their less argument.
  ghost predicate StrictOrder<T(!new)>(less: (T, T) -> bool) {
    && (forall x :: !less(x, x))
    && (forall x, y, z :: less(x, y) && less(y, z) ==> less(x, z))
    && (forall x, y, z :: less(x, z) ==> less(x, y) || less(y, z))
  }

  lemma StringOrder()
    ensures StrictOrder(Less)
    ensures forall x, y :: !Less(x, y) && !Less(y, x) ==> x == y
  {
    forall x ensures !Less(x, x) { LessIrreflexive(x); }
    forall x, y, z | Less(x, y) && Less(y, z) ensures Less(x, z) { LessTransitive(x, y, z); }
    forall x, y | !Less(x, y) && !Less(y, x) ensures x == y { LessTotal(x, y); }
    forall x, y, z | Less(x, z) ensures Less(x, y) || Less(y, z) {
      LessTotal(x, y);
      if Less(y, x) {
        LessTransitive(y, x, z);
      }
    }
  }

  predicate Sorted<T>(s: seq<T>, less: (T, T) -> bool) {
    forall i, j :: 0 <= i < j < |s| ==> !less(s[j], s[i])
  }

  // Puts x behind every element it is not less than: the inner loop of an insertion sort.
  function Insert<T>(s: seq<T>, x: T, less: (T, T) -> bool): (r: seq<T>)
    ensures |r| == |s| + 1
  {
    if s == [] || !less(x, s[|s| - 1]) then s + [x] else Insert(s[..|s| - 1], x, less) + [s[|s| - 1]]
  }

  function InsertionSort<T>(s: seq<T>, less: (T, T) -> bool): (r: seq<T>)
    ensures |r| == |s|
  {
    if s == [] then [] else Insert(InsertionSort(s[..|s| - 1], less), s[|s| - 1], less)
  }

  lemma {:induction false} InsertPermutes<T>(s: seq<T>, x: T, less: (T, T) -> bool)
    ensures multiset(Insert(s, x, less)) == multiset(s) + multiset{x}
    decreases s
  {
    if s != [] && less(x, s[|s| - 1]) {
      var front, last := s[..|s| - 1], s[|s| - 1];
      InsertPermutes(front, x, less);
      assert s == front + [last];
    }
  }

  lemma {:induction false} SortPermutes<T>(s: seq<T>, less: (T, T) -> bool)
    ensures multiset(InsertionSort(s, less)) == multiset(s)
    decreases s
  {
    if s != [] {
      var front, last := s[..|s| - 1], s[|s| - 1];
      SortPermutes(front, less);
      InsertPermutes(InsertionSort(front, less), last, less);
      assert s == front + [last];
    }
  }

  lemma SortKeepsElements<T>(s: seq<T>, less: (T, T) -> bool)
    ensures forall x :: x in InsertionSort(s, less) <==> x in s
  {
    SortPermutes(s, less);
    forall x ensures x in InsertionSort(s, less) <==> x in s {
      assert x in multiset(InsertionSort(s, less)) <==> x in multiset(s);
    }
  }

  predicate Distinct<T(==)>(s: seq<T>) { forall i, j :: 0 <= i < j < |s| ==> s[i] != s[j] }

  // Each element of a sequence of different elements is there once, and any of its permutations has different elements.
  lemma DistinctOnce<T>(s: seq<T>, a: nat)
    requires Distinct(s) && a < |s|
    ensures multiset(s)[s[a]] == 1
  {
    assert s == s[..a] + [s[a]] + s[a + 1..];
    assert s[a] !in s[..a] && s[a] !in s[a + 1..];
  }

  lemma PresentTwice<T>(r: seq<T>, i: nat, j: nat)
    requires i < j < |r| && r[i] == r[j]
    ensures multiset(r)[r[i]] >= 2
  {
    assert r == r[..i] + [r[i]] + r[i + 1..j] + [r[j]] + r[j + 1..];
  }

  lemma PermutedDistinct<T>(s: seq<T>, r: seq<T>)
    requires Distinct(s) && multiset(s) == multiset(r)
    ensures Distinct(r)
  {
    forall i, j | 0 <= i < j < |r| ensures r[i] != r[j] {
      if r[i] == r[j] {
        PresentTwice(r, i, j);
        assert r[i] in multiset(s);
        var a :| 0 <= a < |s| && s[a] == r[i];
        DistinctOnce(s, a);
      }
    }
  }

  lemma {:induction false} InsertSorts<T(!new)>(s: seq<T>, x: T, less: (T, T) -> bool)
    requires StrictOrder(less) && Sorted(s, less)
    ensures Sorted(Insert(s, x, less), less)
    ensures forall y :: y in Insert(s, x, less) ==> y == x || y in s
    decreases s
  {
    if s != [] && less(x, s[|s| - 1]) {
      var front, last := s[..|s| - 1], s[|s| - 1];
      InsertSorts(front, x, less);
      var r := Insert(front, x, less);
      forall i | 0 <= i < |r| ensures !less(last, r[i]) {
        assert r[i] in r;
      }
    } else if s != [] {
      var last := s[|s| - 1];
      forall i | 0 <= i < |s| ensures !less(x, s[i]) {
        var y := s[i];
        assert less(x, y) ==> less(x, last) || less(last, y);
      }
    }
  }

  lemma {:induction false} SortSorts<T(!new)>(s: seq<T>, less: (T, T) -> bool)
    requires StrictOrder(less)
    ensures Sorted(InsertionSort(s, less), less)
    decreases s
  {
    if s != [] {
      SortSorts(s[..|s| - 1], less);
      InsertSorts(InsertionSort(s[..|s| - 1], less), s[|s| - 1], less);
    }
  }

  lemma SameLast<T(!new)>(s: seq<T>, t: seq<T>, less: (T, T) -> bool)
    requires StrictOrder(less) && Sorted(s, less) && Sorted(t, less) && multiset(s) == multiset(t) && s != [] && t != []
    ensures !less(s[|s| - 1], t[|t| - 1])
  {
    var a, b := s[|s| - 1], t[|t| - 1];
    assert a in multiset(t);
    var i :| 0 <= i < |t| && t[i] == a;
    assert !less(a, a);
    assert i < |t| - 1 ==> !less(b, a);
    var j :| 0 <= j < |s| && s[j] == b by {
      assert b in multiset(s);
    }
    assert j < |s| - 1 ==> !less(a, b);
  }

  // Sorted sequences with the same elements are equal when the order tells all elements apart.
  lemma {:induction false} SortedUnique<T(!new)>(s: seq<T>, t: seq<T>, less: (T, T) -> bool)
    requires StrictOrder(less) && Sorted(s, less) && Sorted(t, less) && multiset(s) == multiset(t)
    requires forall x, y :: x in s && y in s && !less(x, y) && !less(y, x) ==> x == y
    ensures s == t
    decreases s
  {
    hide Sorted, StrictOrder;
    assert |multiset(s)| == |s| && |multiset(t)| == |t|;
    if s != [] {
      var n := |s| - 1;
      var a, b := s[n], t[n];
      SameLast(s, t, less);
      SameLast(t, s, less);
      assert a in s && b in multiset(s) && b in s;
      assert a == b;
      FrontSorted(s, less);
      FrontSorted(t, less);
      SortedUnique(s[..n], t[..n], less);
      assert s == s[..n] + [a] && t == t[..n] + [b];
    }
  }

  lemma FrontSorted<T>(s: seq<T>, less: (T, T) -> bool)
    requires Sorted(s, less) && s != []
    ensures Sorted(s[..|s| - 1], less)
    ensures multiset(s[..|s| - 1]) == multiset(s) - multiset{s[|s| - 1]}
    ensures forall x :: x in s[..|s| - 1] ==> x in s
  {
    assert s == s[..|s| - 1] + [s[|s| - 1]];
  }

  // sort.Strings gives equal lists exactly for equal multisets.
  lemma SameMultisetExactly(s: seq<string>, t: seq<string>)
    ensures InsertionSort(s, Less) == InsertionSort(t, Less) <==> multiset(s) == multiset(t)
  {
    StringOrder();
    SortSorts(s, Less);
    SortSorts(t, Less);
    SortPermutes(s, Less);
    SortPermutes(t, Less);
    if multiset(s) == multiset(t) {
      SortedUnique(InsertionSort(s, Less), InsertionSort(t, Less), Less);
    }
  }

  function With<T>(s: seq<T>, j: nat, x: T): (r: seq<T>)
    requires j <= |s|
    ensures |r| == |s| + 1 && r[j] == x && (j > 0 ==> r[j - 1] == s[j - 1])
  {
    s[..j] + [x] + s[j..]
  }

  lemma {:induction false} InsertAt<T>(s: seq<T>, x: T, less: (T, T) -> bool, j: nat)
    requires j <= |s| && (j == 0 || !less(x, s[j - 1]))
    requires forall k :: j <= k < |s| ==> less(x, s[k])
    ensures Insert(s, x, less) == With(s, j, x)
    decreases s
  {
    if j == |s| {
      assert s[..j] == s && s[j..] == [];
    } else {
      var front, last := s[..|s| - 1], s[|s| - 1];
      InsertAt(front, x, less, j);
      assert less(x, last);
      assert front[..j] == s[..j] && front[j..] + [last] == s[j..];
    }
  }

  lemma SwapDown<T>(s: seq<T>, j: nat, x: T)
    requires 0 < j <= |s|
    ensures With(s, j, x)[j - 1 := x][j := s[j - 1]] == With(s, j - 1, x)
  {
  }

  // The inner loop of jsonenc's sortStrings: element i sinks to its place.
  method Sink(a: array<string>, i: nat)
    requires i < a.Length
    modifies a
    ensures a[..i + 1] == Insert(old(a[..i]), old(a[i]), Less)
    ensures a[i + 1..] == old(a[i + 1..])
  {
    ghost var s, x := a[..i], a[i];
    assert a[..i + 1] == With(s, i, x);
    hide Less, With, Insert;
    var j := i;
    while j > 0 && Less(a[j], a[j - 1])
      invariant 0 <= j <= i && a[..i + 1] == With(s, j, x)
      invariant forall k :: j <= k < i ==> Less(x, s[k])
      invariant a[i + 1..] == old(a[i + 1..])
    {
      ghost var before := a[..i + 1];
      assert a[j] == before[j] == x && a[j - 1] == before[j - 1] == s[j - 1];
      a[j - 1], a[j] := a[j], a[j - 1];
      assert a[..i + 1] == before[j - 1 := x][j := s[j - 1]];
      SwapDown(s, j, x);
      j := j - 1;
    }
    assert a[j] == a[..i + 1][j] == x && (j > 0 ==> a[j - 1] == a[..i + 1][j - 1] == s[j - 1]);
    InsertAt(s, x, Less, j);
  }

  method SortStrings(a: array<string>)
    modifies a
    ensures a[..] == InsertionSort(old(a[..]), Less)
  {
    ghost var s := a[..];
    for i := 0 to a.Length
      invariant a[..i] == InsertionSort(s[..i], Less)
      invariant a[i..] == s[i..]
    {
      assert s[..i + 1][..i] == s[..i] && a[i] == a[i..][0] == s[i];
      assert a[i + 1..] == a[i..][1..] == s[i + 1..];
      Sink(a, i);
    }
    assert a[..a.Length] == a[..] && s[..a.Length] == s;
  }
}
