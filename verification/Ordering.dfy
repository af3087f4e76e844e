/** Sorting by a total order. The sorted form of a sequence depends only on its elements. */
module Ordering {

  ghost predicate TotalOrder<T(!new)>(leq: (T, T) -> bool) {
    && (forall a, b :: leq(a, b) || leq(b, a))
    && (forall a, b :: leq(a, b) && leq(b, a) ==> a == b)
    && (forall a, b, c :: leq(a, b) && leq(b, c) ==> leq(a, c))
  }

  ghost predicate Sorted<T(!new)>(s: seq<T>, leq: (T, T) -> bool) {
    forall i, j :: 0 <= i < j < |s| ==> leq(s[i], s[j])
  }

  function Insert<T>(x: T, s: seq<T>, leq: (T, T) -> bool): (r: seq<T>) {
    if s == [] then [x]
    else if leq(x, s[0]) then [x] + s
    else [s[0]] + Insert(x, s[1..], leq)
  }

  function Sort<T>(s: seq<T>, leq: (T, T) -> bool): (r: seq<T>) {
    if s == [] then [] else Insert(s[0], Sort(s[1..], leq), leq)
  }

  lemma {:induction false} InsertElements<T>(x: T, s: seq<T>, leq: (T, T) -> bool)
    ensures multiset(Insert(x, s, leq)) == multiset{x} + multiset(s)
  {
    if s != [] {
      assert s == [s[0]] + s[1..];
      InsertElements(x, s[1..], leq);
    }
  }

  lemma {:induction false} SortElements<T>(s: seq<T>, leq: (T, T) -> bool)
    ensures multiset(Sort(s, leq)) == multiset(s)
    ensures |Sort(s, leq)| == |s|
  {
    if s != [] {
      assert s == [s[0]] + s[1..];
      SortElements(s[1..], leq);
      InsertElements(s[0], Sort(s[1..], leq), leq);
    }
    SameSize(Sort(s, leq), s);
  }

  lemma SameSize<T>(a: seq<T>, b: seq<T>)
    requires multiset(a) == multiset(b)
    ensures |a| == |b|
  {
    assert |multiset(a)| == |a| && |multiset(b)| == |b|;
  }

  lemma InSeqIffInMultiset<T>(s: seq<T>, x: T)
    ensures x in s <==> x in multiset(s)
  {}

  lemma {:induction false} InsertSorted<T(!new)>(x: T, s: seq<T>, leq: (T, T) -> bool)
    requires TotalOrder(leq) && Sorted(s, leq)
    ensures Sorted(Insert(x, s, leq), leq)
  {
    if s != [] && !leq(x, s[0]) {
      var rest := Insert(x, s[1..], leq);
      InsertSorted(x, s[1..], leq);
      InsertElements(x, s[1..], leq);
      forall i | 0 <= i < |rest| ensures leq(s[0], rest[i]) {
        InSeqIffInMultiset(rest, rest[i]);
        assert rest[i] in multiset{x} + multiset(s[1..]);
        assert rest[i] == x || rest[i] in s[1..];
      }
    }
  }

  lemma {:induction false} SortSorted<T(!new)>(s: seq<T>, leq: (T, T) -> bool)
    requires TotalOrder(leq)
    ensures Sorted(Sort(s, leq), leq)
  {
    if s != [] {
      SortSorted(s[1..], leq);
      InsertSorted(s[0], Sort(s[1..], leq), leq);
    }
  }

  /** Two sorted sequences with the same elements are the same sequence. */
  lemma {:induction false} SortedUnique<T(!new)>(a: seq<T>, b: seq<T>, leq: (T, T) -> bool)
    requires TotalOrder(leq) && Sorted(a, leq) && Sorted(b, leq)
    requires multiset(a) == multiset(b)
    ensures a == b
  {
    SameSize(a, b);
    if a != [] {
      SortedHeads(a, b, leq);
      TailElements(a);
      TailElements(b);
      SortedUnique(a[1..], b[1..], leq);
      assert a == [a[0]] + a[1..] && b == [b[0]] + b[1..];
    }
  }

  lemma SortedHeads<T(!new)>(a: seq<T>, b: seq<T>, leq: (T, T) -> bool)
    requires TotalOrder(leq) && Sorted(a, leq) && Sorted(b, leq)
    requires a != [] && b != [] && multiset(a) == multiset(b)
    ensures a[0] == b[0]
  {
    InSeqIffInMultiset(a, b[0]);
    InSeqIffInMultiset(b, a[0]);
    assert a[0] in multiset(a) && b[0] in multiset(b);
    assert leq(a[0], b[0]) && leq(b[0], a[0]);
  }

  lemma TailElements<T>(s: seq<T>)
    requires s != []
    ensures multiset(s[1..]) == multiset(s) - multiset{s[0]}
  {
    assert s == [s[0]] + s[1..];
  }

  lemma SortPermutation<T(!new)>(a: seq<T>, b: seq<T>, leq: (T, T) -> bool)
    requires TotalOrder(leq) && multiset(a) == multiset(b)
    ensures Sort(a, leq) == Sort(b, leq)
  {
    SortElements(a, leq);
    SortElements(b, leq);
    SortSorted(a, leq);
    SortSorted(b, leq);
    SortedUnique(Sort(a, leq), Sort(b, leq), leq);
  }

  lemma SortOfSorted<T(!new)>(a: seq<T>, leq: (T, T) -> bool)
    requires TotalOrder(leq) && Sorted(a, leq)
    ensures Sort(a, leq) == a
  {
    SortElements(a, leq);
    SortSorted(a, leq);
    SortedUnique(Sort(a, leq), a, leq);
  }

  lemma SortMembers<T>(s: seq<T>, leq: (T, T) -> bool)
    ensures forall x :: x in Sort(s, leq) <==> x in s
  {
    SortElements(s, leq);
    forall x ensures x in Sort(s, leq) <==> x in s {
      InSeqIffInMultiset(s, x);
      InSeqIffInMultiset(Sort(s, leq), x);
    }
  }

  /** The elements of a set in ascending order, as a query with ORDER BY lists them. */
  ghost function Ascending<T(!new)>(s: set<T>, leq: (T, T) -> bool): (r: seq<T>)
    requires TotalOrder(leq)
    ensures Sorted(r, leq) && multiset(r) == multiset(s)
    decreases |s|
  {
    if s == {} then []
    else
      var x :| x in s;
      var rest := Ascending(s - {x}, leq);
      InsertSorted(x, rest, leq);
      InsertElements(x, rest, leq);
      assert multiset(s) == multiset(s - {x}) + multiset{x};
      Insert(x, rest, leq)
  }

  lemma AscendingMembers<T(!new)>(s: set<T>, leq: (T, T) -> bool)
    requires TotalOrder(leq)
    ensures forall x :: x in Ascending(s, leq) <==> x in s
  {
    var r := Ascending(s, leq);
    forall x ensures x in r <==> x in s {
      InSeqIffInMultiset(r, x);
    }
  }

  /** A listing of a set repeats nothing. */
  lemma DistinctElements<T>(r: seq<T>, s: set<T>, a: nat, b: nat)
    requires multiset(r) == multiset(s) && a < b < |r|
    ensures r[a] != r[b]
  {
    assert r == r[..a] + [r[a]] + r[a + 1..b] + [r[b]] + r[b + 1..];
    assert multiset(r)[r[a]] >= (if r[a] == r[b] then 2 else 1);
    assert multiset(s)[r[a]] <= 1;
  }

  function FirstElements<T>(r: seq<T>, i: nat): (s: set<T>)
    requires i <= |r|
  {
    if i == 0 then {} else FirstElements(r, i - 1) + {r[i - 1]}
  }

  lemma {:induction false} InFirstElements<T>(r: seq<T>, i: nat, x: T)
    requires i <= |r|
    ensures x in FirstElements(r, i) <==> exists j :: 0 <= j < i && r[j] == x
  {
    if i > 0 { InFirstElements(r, i - 1, x); }
  }

  lemma {:induction false} FirstElementsCount<T>(r: seq<T>, s: set<T>, i: nat)
    requires multiset(r) == multiset(s) && i <= |r|
    ensures |FirstElements(r, i)| == i
  {
    if i > 0 {
      FirstElementsCount(r, s, i - 1);
      InFirstElements(r, i - 1, r[i - 1]);
      if r[i - 1] in FirstElements(r, i - 1) {
        var j :| 0 <= j < i - 1 && r[j] == r[i - 1];
        DistinctElements(r, s, j, i - 1);
      }
    }
  }

  /** Lists a set in ascending order. */
  method SortSet<T(!new, ==)>(s: set<T>, leq: (T, T) -> bool) returns (r: seq<T>)
    requires TotalOrder(leq)
    ensures r == Ascending(s, leq)
  {
    r := [];
    var rest := s;
    while rest != {}
      invariant rest <= s
      invariant Sorted(r, leq) && multiset(r) == multiset(s - rest)
      decreases rest
    {
      var x :| x in rest;
      InsertSorted(x, r, leq);
      InsertElements(x, r, leq);
      assert s - (rest - {x}) == (s - rest) + {x};
      assert multiset(s - (rest - {x})) == multiset(s - rest) + multiset{x};
      r := Insert(x, r, leq);
      rest := rest - {x};
    }
    assert s - rest == s;
    SortedUnique(r, Ascending(s, leq), leq);
  }
}
