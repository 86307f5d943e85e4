/** The order of names in sorted maps and sets, and the stable sort of a list.

    The source keeps names in ordered maps, so iteration follows the
    lexicographic order of code points; lists are sorted by a key. */
module Order {

  predicate Leq(a: string, b: string) {
    if a == [] then true
    else if b == [] then false
    else if a[0] != b[0] then a[0] < b[0]
    else Leq(a[1..], b[1..])
  }

  lemma {:induction false} LeqTotal(a: string, b: string)
    ensures Leq(a, b) || Leq(b, a)
  {
    if a != [] && b != [] && a[0] == b[0] {
      LeqTotal(a[1..], b[1..]);
    }
  }

  lemma {:induction false} LeqAntisymmetric(a: string, b: string)
    requires Leq(a, b) && Leq(b, a)
    ensures a == b
  {
    if a != [] && b != [] {
      LeqAntisymmetric(a[1..], b[1..]);
      assert a == [a[0]] + a[1..] && b == [b[0]] + b[1..];
    }
  }

  lemma {:induction false} LeqTransitive(a: string, b: string, c: string)
    requires Leq(a, b) && Leq(b, c)
    ensures Leq(a, c)
  {
    if a != [] && b != [] && c != [] && a[0] == b[0] && b[0] == c[0] {
      LeqTransitive(a[1..], b[1..], c[1..]);
    }
  }

  /** One name precedes another if it is a prefix of it, or smaller where they first differ. */
  lemma {:induction false} LeqExact(a: string, b: string, k: nat)
    requires k <= |a| && k <= |b| && a[..k] == b[..k]
    requires k < |a| && k < |b| ==> a[k] != b[k]
    ensures Leq(a, b) <==> k == |a| || (k < |b| && a[k] < b[k])
  {
    if k > 0 {
      assert a[0] == a[..k][0] == b[..k][0] == b[0];
      assert a[1..][..k - 1] == a[..k][1..] && b[1..][..k - 1] == b[..k][1..];
      LeqExact(a[1..], b[1..], k - 1);
    }
  }

  lemma LeqIsTotalOrder()
    ensures TotalOrder(Leq)
  {
    forall a: string, b: string ensures Leq(a, b) || Leq(b, a) { LeqTotal(a, b); }
    forall a: string, b: string, c: string | Leq(a, b) && Leq(b, c) ensures Leq(a, c) { LeqTransitive(a, b, c); }
    forall a: string, b: string | Leq(a, b) && Leq(b, a) ensures a == b { LeqAntisymmetric(a, b); }
  }

  /** A nonempty set of names has a first one. */
  lemma {:induction false} FirstExists(s: set<string>)
    requires s != {}
    ensures exists x :: IsFirst(x, s)
  {
    LeqIsTotalOrder();
    var x :| x in s;
    if s == {x} {
      assert IsFirst(x, s);
    } else {
      var rest := s - {x};
      FirstExists(rest);
      var y :| IsFirst(y, rest);
      if Leq(y, x) {
        assert IsFirst(y, s);
      } else {
        assert IsFirst(x, s);
      }
    }
  }

  predicate IsFirst(x: string, s: set<string>) {
    x in s && forall y :: y in s ==> Leq(x, y)
  }

  lemma FirstUnique(x: string, y: string, s: set<string>)
    requires IsFirst(x, s) && IsFirst(y, s)
    ensures x == y
  {
    LeqAntisymmetric(x, y);
  }

  /** The elements of a set in ascending order: the iteration order of an ordered set. */
  ghost function Ascending(s: set<string>): seq<string> {
    if s == {} then []
    else
      FirstExists(s);
      var x :| IsFirst(x, s);
      [x] + Ascending(s - {x})
  }

  lemma {:induction false} AscendingFacts(s: set<string>)
    ensures Distinct(Ascending(s)) && forall x :: x in Ascending(s) <==> x in s
  {
    if s != {} {
      FirstExists(s);
      var x :| IsFirst(x, s) && Ascending(s) == [x] + Ascending(s - {x});
      AscendingFacts(s - {x});
    }
  }

  /** Each name precedes the later ones. */
  lemma {:induction false} AscendingIsSorted(s: set<string>)
    ensures Sorted(Ascending(s), Leq)
  {
    if s != {} {
      FirstExists(s);
      var x :| IsFirst(x, s) && Ascending(s) == [x] + Ascending(s - {x});
      AscendingIsSorted(s - {x});
      AscendingFacts(s - {x});
      assert forall j :: 0 <= j < |Ascending(s - {x})| ==> Ascending(s - {x})[j] in Ascending(s - {x});
    }
  }

  lemma AscendingStep(s: set<string>, x: string)
    requires IsFirst(x, s)
    ensures Ascending(s) == [x] + Ascending(s - {x})
  {
    FirstExists(s);
    var y :| IsFirst(y, s) && Ascending(s) == [y] + Ascending(s - {y});
    FirstUnique(x, y, s);
  }

  method First(s: set<string>) returns (x: string)
    requires s != {}
    ensures IsFirst(x, s)
  {
    FirstExists(s);
    x :| IsFirst(x, s);
  }

  /** The walk over an ordered set: take the first name until none is left. */
  method InOrder(s: set<string>) returns (r: seq<string>)
    ensures r == Ascending(s)
  {
    var rest := s;
    r := [];
    while rest != {}
      invariant r + Ascending(rest) == Ascending(s)
    {
      var x := First(rest);
      AscendingStep(rest, x);
      assert r + Ascending(rest) == (r + [x]) + Ascending(rest - {x});
      r := r + [x];
      rest := rest - {x};
    }
  }

  /** A list without repetitions over a set is no longer than the set. */
  lemma {:induction false} DistinctFits<T>(xs: seq<T>, s: set<T>)
    requires Distinct(xs) && forall x :: x in xs ==> x in s
    ensures |xs| <= |s|
  {
    if xs != [] {
      DistinctFits(xs[1..], s - {xs[0]});
    }
  }

  ghost predicate Distinct<T>(xs: seq<T>) {
    forall i, j :: 0 <= i < j < |xs| ==> xs[i] != xs[j]
  }

  lemma DistinctConcat<T>(a: seq<T>, b: seq<T>)
    requires Distinct(a) && Distinct(b) && forall x :: x in a ==> x !in b
    ensures Distinct(a + b)
  {
    forall i, j | 0 <= i < j < |a + b| ensures (a + b)[i] != (a + b)[j] {
      if i < |a| <= j {
        assert a[i] in a && b[j - |a|] in b;
      }
    }
  }

  // ----- sorting

  ghost predicate TotalPreorder<T(!new)>(le: (T, T) -> bool) {
    (forall a, b :: le(a, b) || le(b, a)) &&
    (forall a, b, c :: le(a, b) && le(b, c) ==> le(a, c))
  }

  ghost predicate TotalOrder<T(!new)>(le: (T, T) -> bool) {
    TotalPreorder(le) && forall a, b :: le(a, b) && le(b, a) ==> a == b
  }

  ghost predicate Sorted<T>(xs: seq<T>, le: (T, T) -> bool) {
    forall i, j :: 0 <= i < j < |xs| ==> le(xs[i], xs[j])
  }

  function Insert<T>(x: T, xs: seq<T>, le: (T, T) -> bool): (r: seq<T>)
    ensures multiset(r) == multiset{x} + multiset(xs)
  {
    if xs == [] then [x]
    else if le(x, xs[0]) then [x] + xs
    else
      assert xs == [xs[0]] + xs[1..];
      [xs[0]] + Insert(x, xs[1..], le)
  }

  /** A stable sort: equal keys keep their order. */
  function Sort<T>(xs: seq<T>, le: (T, T) -> bool): (r: seq<T>)
    ensures multiset(r) == multiset(xs)
    ensures |r| == |xs|
  {
    if xs == [] then []
    else
      assert xs == [xs[0]] + xs[1..];
      var r := Insert(xs[0], Sort(xs[1..], le), le);
      assert |multiset(r)| == |multiset(xs)|;
      r
  }

  lemma {:induction false} InsertSorted<T(!new)>(x: T, xs: seq<T>, le: (T, T) -> bool)
    requires TotalPreorder(le) && Sorted(xs, le)
    ensures Sorted(Insert(x, xs, le), le)
  {
    if xs != [] && !le(x, xs[0]) {
      InsertSorted(x, xs[1..], le);
      var r := Insert(x, xs[1..], le);
      forall y | y in r ensures le(xs[0], y) {
        assert y in multiset(r);
        assert y == x || y in xs[1..];
      }
      assert Insert(x, xs, le) == [xs[0]] + r;
    } else if xs != [] {
      forall j | 0 <= j < |xs| ensures le(x, xs[j]) {
        assert le(xs[0], xs[j]) || j == 0;
      }
    }
  }

  lemma {:induction false} SortSorted<T(!new)>(xs: seq<T>, le: (T, T) -> bool)
    requires TotalPreorder(le)
    ensures Sorted(Sort(xs, le), le)
  {
    if xs != [] {
      SortSorted(xs[1..], le);
      InsertSorted(xs[0], Sort(xs[1..], le), le);
    }
  }

  lemma SortMembers<T(!new)>(xs: seq<T>, le: (T, T) -> bool)
    ensures forall x :: x in Sort(xs, le) <==> x in xs
  {
    forall x ensures x in Sort(xs, le) <==> x in xs {
      assert x in Sort(xs, le) <==> x in multiset(Sort(xs, le));
    }
  }

  /** Under a total order there is only one sorted arrangement, so it does not
      matter which sorting algorithm is used. */
  lemma {:induction false} SortedArrangementUnique<T(!new)>(a: seq<T>, b: seq<T>, le: (T, T) -> bool)
    requires TotalOrder(le) && Sorted(a, le) && Sorted(b, le) && multiset(a) == multiset(b)
    ensures a == b
  {
    assert |a| == |multiset(a)| == |multiset(b)| == |b|;
    if a != [] {
      SameFirst(a, b, le);
      MultisetTail(a);
      MultisetTail(b);
      SortedArrangementUnique(a[1..], b[1..], le);
    }
  }

  lemma MultisetTail<T>(xs: seq<T>)
    requires xs != []
    ensures xs == [xs[0]] + xs[1..]
    ensures multiset(xs[1..]) == multiset(xs) - multiset{xs[0]}
  {
    assert xs == [xs[0]] + xs[1..];
  }

  lemma SameFirst<T(!new)>(a: seq<T>, b: seq<T>, le: (T, T) -> bool)
    requires TotalOrder(le) && Sorted(a, le) && Sorted(b, le) && multiset(a) == multiset(b)
    requires a != [] && b != []
    ensures a[0] == b[0]
  {
    assert a[0] in multiset(b) && b[0] in multiset(a);
    var i :| 0 <= i < |b| && b[i] == a[0];
    var j :| 0 <= j < |a| && a[j] == b[0];
    assert i == 0 || le(b[0], a[0]);
    assert j == 0 || le(a[0], b[0]);
  }
}
