/** Sorting by a strict total order, as sort.Slice does in place. */
module Ordering {

  ghost predicate StrictTotal<T(!new)>(less: (T, T) -> bool) {
    && (forall a :: !less(a, a))
    && (forall a, b, c :: less(a, b) && less(b, c) ==> less(a, c))
    && (forall a, b :: a == b || less(a, b) || less(b, a))
  }

  ghost predicate Sorted<T>(less: (T, T) -> bool, s: seq<T>) {
    forall i, j :: 0 <= i < j < |s| ==> !less(s[j], s[i])
  }

  function Insert<T>(less: (T, T) -> bool, x: T, s: seq<T>): (r: seq<T>) {
    if s == [] || !less(s[0], x) then [x] + s else [s[0]] + Insert(less, x, s[1..])
  }

  function Sort<T>(less: (T, T) -> bool, s: seq<T>): (r: seq<T>) {
    if s == [] then [] else Insert(less, s[0], Sort(less, s[1..]))
  }

  lemma {:induction false} InsertKeeps<T>(less: (T, T) -> bool, x: T, s: seq<T>)
    ensures multiset(Insert(less, x, s)) == multiset{x} + multiset(s)
  {
    if !(s == [] || !less(s[0], x)) {
      InsertKeeps(less, x, s[1..]);
      assert s == [s[0]] + s[1..];
    }
  }

  lemma {:induction false} InsertSorts<T(!new)>(less: (T, T) -> bool, x: T, s: seq<T>)
    requires StrictTotal(less) && Sorted(less, s)
    ensures Sorted(less, Insert(less, x, s))
  {
    if s == [] {
    } else if !less(s[0], x) {
      forall j | 0 <= j < |s| ensures !less(s[j], x) {
        assert j > 0 ==> !less(s[j], s[0]);
      }
    } else {
      InsertSorts(less, x, s[1..]);
      var r := Insert(less, x, s[1..]);
      forall j | 0 <= j < |r| ensures !less(r[j], s[0]) {
        InsertKeeps(less, x, s[1..]);
        assert r[j] in multiset(r);
        assert r[j] == x || r[j] in s[1..];
      }
    }
  }

  lemma {:induction false} SortSorts<T(!new)>(less: (T, T) -> bool, s: seq<T>)
    requires StrictTotal(less)
    ensures Sorted(less, Sort(less, s)) && multiset(Sort(less, s)) == multiset(s)
  {
    if s != [] {
      SortSorts(less, s[1..]);
      InsertSorts(less, s[0], Sort(less, s[1..]));
      InsertKeeps(less, s[0], Sort(less, s[1..]));
      assert s == [s[0]] + s[1..];
    }
  }

  lemma SortedStartsAlike<T(!new)>(less: (T, T) -> bool, a: seq<T>, b: seq<T>)
    requires StrictTotal(less) && Sorted(less, a) && Sorted(less, b) && a != [] && b != [] && multiset(a) == multiset(b)
    ensures a[0] == b[0]
  {
    assert a[0] in multiset(b) && b[0] in multiset(a);
    var i :| 0 <= i < |a| && a[i] == b[0];
    var j :| 0 <= j < |b| && b[j] == a[0];
  }

  lemma RestsAlike<T>(a: seq<T>, b: seq<T>)
    requires a != [] && b != [] && multiset(a) == multiset(b) && a[0] == b[0]
    ensures multiset(a[1..]) == multiset(b[1..])
  {
    assert a == [a[0]] + a[1..] && b == [b[0]] + b[1..];
    assert multiset(a[1..]) == multiset(a) - multiset{a[0]};
    assert multiset(b[1..]) == multiset(b) - multiset{b[0]};
  }

  /** A multiset has one sorted sequence. */
  lemma {:induction false} SortedIsUnique<T(!new)>(less: (T, T) -> bool, a: seq<T>, b: seq<T>)
    requires StrictTotal(less) && Sorted(less, a) && Sorted(less, b) && multiset(a) == multiset(b)
    ensures a == b
  {
    assert |a| == |multiset(a)| == |multiset(b)| == |b|;
    if a != [] {
      SortedStartsAlike(less, a, b);
      RestsAlike(a, b);
      SortedIsUnique(less, a[1..], b[1..]);
      assert a == [a[0]] + a[1..] && b == [b[0]] + b[1..];
    }
  }

  /** Sorting forgets exactly the order. */
  lemma SortsAgree<T(!new)>(less: (T, T) -> bool, a: seq<T>, b: seq<T>)
    requires StrictTotal(less)
    ensures Sort(less, a) == Sort(less, b) <==> multiset(a) == multiset(b)
  {
    SortSorts(less, a);
    SortSorts(less, b);
    if multiset(a) == multiset(b) { SortedIsUnique(less, Sort(less, a), Sort(less, b)); }
  }

  /** The part up to and including `last` is in order, but for the item at `j`, which may come too late. */
  ghost predicate SortedBut<T>(less: (T, T) -> bool, s: seq<T>, last: nat, j: nat)
    requires j <= last < |s|
  {
    forall p, q :: 0 <= p < q <= last && q != j ==> !less(s[q], s[p])
  }

  lemma SwapKeepsSortedBut<T(!new)>(less: (T, T) -> bool, s: seq<T>, last: nat, j: nat)
    requires StrictTotal(less) && 0 < j <= last < |s| && SortedBut(less, s, last, j) && less(s[j], s[j - 1])
    ensures SortedBut(less, s[j := s[j - 1]][j - 1 := s[j]], last, j - 1)
    ensures multiset(s[j := s[j - 1]][j - 1 := s[j]]) == multiset(s)
  {
  }

  lemma PlacedIsSorted<T(!new)>(less: (T, T) -> bool, s: seq<T>, last: nat, j: nat)
    requires StrictTotal(less) && j <= last < |s| && SortedBut(less, s, last, j)
    requires j > 0 ==> !less(s[j], s[j - 1])
    ensures Sorted(less, s[..last + 1])
  {
    forall p, q | 0 <= p < q <= last ensures !less(s[q], s[p]) {
      if q == j && p < j - 1 { assert !less(s[j - 1], s[p]); }
    }
  }

  /** Moves item `last` down to its place among the sorted items before it. */
  method Place<T(!new)>(less: (T, T) -> bool, a: array<T>, last: nat)
    requires StrictTotal(less) && last < a.Length && Sorted(less, a[..last])
    modifies a
    ensures Sorted(less, a[..last + 1])
    ensures multiset(a[..]) == old(multiset(a[..]))
  {
    var j: nat := last;
    while j > 0 && less(a[j], a[j - 1])
      invariant j <= last
      invariant SortedBut(less, a[..], last, j)
      invariant multiset(a[..]) == old(multiset(a[..]))
    {
      SwapKeepsSortedBut(less, a[..], last, j);
      ghost var before := a[..];
      a[j], a[j - 1] := a[j - 1], a[j];
      assert a[..] == before[j := before[j - 1]][j - 1 := before[j]];
      j := j - 1;
    }
    PlacedIsSorted(less, a[..], last, j);
    assert a[..last + 1] == a[..][..last + 1];
  }

  /** sort.Slice */
  method SortInPlace<T(!new)>(less: (T, T) -> bool, a: array<T>)
    requires StrictTotal(less)
    modifies a
    ensures a[..] == Sort(less, old(a[..]))
  {
    for i := 0 to a.Length
      invariant Sorted(less, a[..i])
      invariant multiset(a[..]) == old(multiset(a[..]))
    {
      Place(less, a, i);
    }
    SortSorts(less, old(a[..]));
    assert a[..a.Length] == a[..];
    SortedIsUnique(less, a[..], Sort(less, old(a[..])));
  }

  // ---- Listings without repetition ----

  ghost predicate Distinct<T>(s: seq<T>) {
    forall i, j :: 0 <= i < j < |s| ==> s[i] != s[j]
  }

  ghost predicate StrictlySorted<T>(less: (T, T) -> bool, s: seq<T>) {
    forall i, j :: 0 <= i < j < |s| ==> less(s[i], s[j])
  }

  lemma {:induction false} OnceEach<T>(s: seq<T>, x: T)
    requires Distinct(s)
    ensures multiset(s)[x] <= 1
  {
    if s != [] {
      var n := |s| - 1;
      OnceEach(s[..n], x);
      assert s == s[..n] + [s[n]];
      if x == s[n] { assert x !in s[..n]; }
    }
  }

  lemma Twice<T>(s: seq<T>, i: nat, j: nat)
    requires i < j < |s| && s[i] == s[j]
    ensures multiset(s)[s[i]] >= 2
  {
    assert s == s[..i] + [s[i]] + s[i + 1..j] + [s[j]] + s[j + 1..];
  }

  /** Distinct items, sorted, are strictly sorted. */
  lemma SortedOnce<T(!new)>(less: (T, T) -> bool, taken: seq<T>, listing: seq<T>)
    requires StrictTotal(less) && Sorted(less, listing) && multiset(listing) == multiset(taken) && Distinct(taken)
    ensures StrictlySorted(less, listing) && |listing| == |taken|
    ensures forall x :: x in listing <==> x in taken
  {
    assert |multiset(listing)| == |listing|;
    forall x ensures x in listing <==> x in taken {
      assert x in listing <==> x in multiset(listing);
    }
    forall i, j | 0 <= i < j < |listing| ensures less(listing[i], listing[j]) {
      OnceEach(taken, listing[i]);
      if listing[i] == listing[j] { Twice(listing, i, j); }
    }
  }

  lemma StillThere<T(!new)>(less: (T, T) -> bool, s: seq<T>, x: T)
    requires StrictTotal(less) && s != [] && StrictlySorted(less, s)
    ensures x in s[1..] <==> x in s && x != s[0]
  {
  }

  /** A set has one strictly sorted listing. */
  lemma {:induction false} ListingIsUnique<T(!new)>(less: (T, T) -> bool, a: seq<T>, b: seq<T>)
    requires StrictTotal(less) && StrictlySorted(less, a) && StrictlySorted(less, b)
    requires forall x :: x in a <==> x in b
    ensures a == b
  {
    assert a == [] <==> b == [] by {
      if a != [] { assert a[0] in b; }
      if b != [] { assert b[0] in a; }
    }
    if a != [] {
      assert a[0] in b && b[0] in a;
      assert a[0] == b[0];
      forall x ensures x in a[1..] <==> x in b[1..] {
        StillThere(less, a, x);
        StillThere(less, b, x);
      }
      ListingIsUnique(less, a[1..], b[1..]);
      assert a == [a[0]] + a[1..] && b == [b[0]] + b[1..];
    }
  }

  // ---- Strings ----

  /** Byte order of strings. */
  predicate StringLess(a: string, b: string) {
    b != [] && (a == [] || a[0] < b[0] || (a[0] == b[0] && StringLess(a[1..], b[1..])))
  }

  /** The texts are equal up to position `k`, where the first one ends or has the smaller character. */
  predicate LessAt(a: string, b: string, k: nat) {
    k <= |a| && k < |b| && a[..k] == b[..k] && (k == |a| || a[k] < b[k])
  }

  lemma LessAtNext(a: string, b: string, k: nat)
    requires a != [] && b != []
    ensures LessAt(a, b, k + 1) <==> a[0] == b[0] && LessAt(a[1..], b[1..], k)
  {
    if k + 1 <= |a| && k + 1 <= |b| {
      assert a[..k + 1] == [a[0]] + a[1..][..k] && b[..k + 1] == [b[0]] + b[1..][..k];
    }
  }

  lemma {:induction false} StringLessExactly(a: string, b: string)
    ensures StringLess(a, b) <==> exists k: nat :: LessAt(a, b, k)
  {
    if b != [] {
      if a == [] || a[0] < b[0] {
        assert LessAt(a, b, 0);
      } else {
        StringLessExactly(a[1..], b[1..]);
        if k: nat :| LessAt(a[1..], b[1..], k) { LessAtNext(a, b, k); }
        if k: nat :| LessAt(a, b, k) {
          assert k > 0 ==> a[..k][0] == b[..k][0];
          LessAtNext(a, b, k - 1);
        }
      }
    }
  }

  lemma {:induction false} StringLessTotal(a: string, b: string)
    ensures !StringLess(a, a)
    ensures a == b || StringLess(a, b) || StringLess(b, a)
  {
    if a != [] {
      StringLessTotal(a[1..], if b == [] then [] else b[1..]);
      if b != [] && a[0] == b[0] { assert a == [a[0]] + a[1..] && b == [b[0]] + b[1..]; }
    }
  }

  lemma {:induction false} StringLessTransitive(a: string, b: string, c: string)
    requires StringLess(a, b) && StringLess(b, c)
    ensures StringLess(a, c)
  {
    if a != [] && a[0] == b[0] && b[0] == c[0] { StringLessTransitive(a[1..], b[1..], c[1..]); }
  }
  /** By one text, and by another where the first ones are equal. */
  function KeyedLess<T>(first: T -> string, second: T -> string): (T, T) -> bool {
    (a: T, b: T) => if first(a) == first(b) then StringLess(second(a), second(b)) else StringLess(first(a), first(b))
  }

  ghost predicate Keyed<T(!new)>(first: T -> string, second: T -> string) {
    forall a: T, b: T :: first(a) == first(b) && second(a) == second(b) ==> a == b
  }

  lemma KeyedTransitive<T>(first: T -> string, second: T -> string, a: T, b: T, c: T)
    requires KeyedLess(first, second)(a, b) && KeyedLess(first, second)(b, c)
    ensures KeyedLess(first, second)(a, c)
  {
    StringLessTotal(first(a), first(b));
    if first(a) != first(b) && first(b) != first(c) {
      StringLessTransitive(first(a), first(b), first(c));
      StringLessTotal(first(c), first(a));
    } else if first(a) == first(b) == first(c) {
      StringLessTransitive(second(a), second(b), second(c));
    }
  }

  /** Ordering by two texts that together determine an item is a strict total order. */
  lemma KeyedOrdered<T(!new)>(first: T -> string, second: T -> string)
    requires Keyed(first, second)
    ensures StrictTotal(KeyedLess(first, second))
  {
    var less := KeyedLess(first, second);
    forall a: T, b: T ensures !less(a, a) && (a == b || less(a, b) || less(b, a)) {
      StringLessTotal(second(a), second(b));
      StringLessTotal(first(a), first(b));
    }
    forall a: T, b: T, c: T | less(a, b) && less(b, c) ensures less(a, c) {
      KeyedTransitive(first, second, a, b, c);
    }
  }
}
