/**
 * `Stream.sorted(comparator)` on an ordered stream: a stable sort. The comparator is a
 * function value `le`, where `le(a, b)` means `compare(a, b) <= 0`; the sort itself is an
 * insertion sort, and `StableSortUnique` shows that every stable sort (the library's
 * merge sort included) produces the same sequence.
 */
module StableSort {

  /** What a consistent Comparator promises: any two elements compare, and the order is transitive. */
  ghost predicate TotalPreorder<T(!new)>(le: (T, T) -> bool) {
    (forall a, b :: le(a, b) || le(b, a)) &&
    (forall a, b, c :: le(a, b) && le(b, c) ==> le(a, c))
  }

  /** Every element is `le` every later one. */
  predicate Sorted<T>(le: (T, T) -> bool, s: seq<T>) {
    forall i, j :: 0 <= i < j < |s| ==> le(s[i], s[j])
  }

  /** The elements of `s` that compare equal to `x` (compare returns 0), in the order of `s`. */
  function Ties<T>(le: (T, T) -> bool, x: T, s: seq<T>): seq<T>
    decreases |s|
  {
    if s == [] then []
    else (if le(s[0], x) && le(x, s[0]) then [s[0]] else []) + Ties(le, x, s[1..])
  }

  /**
   * `r` is `s` sorted stably by `le`: ordered, a permutation of `s`, and the elements that
   * compare equal keep their relative order from `s`.
   */
  ghost predicate IsStableSortOf<T(!new)>(le: (T, T) -> bool, s: seq<T>, r: seq<T>) {
    Sorted(le, r) && multiset(r) == multiset(s) &&
    forall x :: Ties(le, x, r) == Ties(le, x, s)
  }

  /** A stable sort holds the same elements as its input. */
  lemma StableSortMembers<T(!new)>(le: (T, T) -> bool, s: seq<T>, r: seq<T>)
    requires IsStableSortOf(le, s, r)
    ensures forall x :: x in r <==> x in s
  {
    forall x
      ensures x in r <==> x in s
    {
      assert x in r <==> x in multiset(r);
      assert x in s <==> x in multiset(s);
    }
  }

  /** Place `x` before the first element it is `le`, after everything strictly smaller. */
  function Insert<T>(le: (T, T) -> bool, x: T, s: seq<T>): seq<T>
    decreases |s|
  {
    if s == [] || le(x, s[0]) then [x] + s else [s[0]] + Insert(le, x, s[1..])
  }

  /** Insertion sort: sort the tail, then insert the head in front of its equals. */
  function SortBy<T>(le: (T, T) -> bool, s: seq<T>): seq<T>
    decreases |s|
  {
    if s == [] then [] else Insert(le, s[0], SortBy(le, s[1..]))
  }

  lemma {:induction false} TiesAppend<T>(le: (T, T) -> bool, x: T, a: seq<T>, b: seq<T>)
    ensures Ties(le, x, a + b) == Ties(le, x, a) + Ties(le, x, b)
    decreases |a|
  {
    if a != [] {
      assert (a + b)[0] == a[0];
      assert (a + b)[1..] == a[1..] + b;
      TiesAppend(le, x, a[1..], b);
      var h := if le(a[0], x) && le(x, a[0]) then [a[0]] else [];
      assert Ties(le, x, a + b) == h + Ties(le, x, a[1..] + b);
      assert Ties(le, x, a) == h + Ties(le, x, a[1..]);
    } else {
      assert a + b == b;
    }
  }

  /** The ties of `x` in `s` are exactly the elements of `s` that compare equal to `x`. */
  lemma {:induction false} TiesMembers<T>(le: (T, T) -> bool, x: T, s: seq<T>, y: T)
    ensures y in Ties(le, x, s) <==> y in s && le(y, x) && le(x, y)
    decreases |s|
  {
    if s != [] {
      TiesMembers(le, x, s[1..], y);
      assert s == [s[0]] + s[1..];
    }
  }

  lemma {:induction false} InsertMultiset<T>(le: (T, T) -> bool, x: T, s: seq<T>)
    ensures multiset(Insert(le, x, s)) == multiset([x] + s)
    decreases |s|
  {
    if s != [] && !le(x, s[0]) {
      InsertMultiset(le, x, s[1..]);
      assert s == [s[0]] + s[1..];
    }
  }

  lemma {:induction false} InsertSorted<T(!new)>(le: (T, T) -> bool, x: T, s: seq<T>)
    requires TotalPreorder(le)
    requires Sorted(le, s)
    ensures Sorted(le, Insert(le, x, s))
    decreases |s|
  {
    if s != [] && !le(x, s[0]) {
      var t := Insert(le, x, s[1..]);
      InsertSorted(le, x, s[1..]);
      InsertMultiset(le, x, s[1..]);
      forall j | 0 <= j < |t|
        ensures le(s[0], t[j])
      {
        assert t[j] in multiset([x] + s[1..]);
        if t[j] != x {
          var k :| 0 <= k < |s[1..]| && s[1..][k] == t[j];
          assert s[k + 1] == t[j];
        }
      }
    }
  }

  lemma TiesCons<T>(le: (T, T) -> bool, y: T, x: T, s: seq<T>)
    ensures Ties(le, y, [x] + s) == (if le(x, y) && le(y, x) then [x] else []) + Ties(le, y, s)
  {
    assert ([x] + s)[1..] == s;
  }

  /** Inserting `x` where `Insert` puts it keeps every class of equal elements in order, `x` first. */
  lemma {:induction false} InsertTies<T(!new)>(le: (T, T) -> bool, y: T, x: T, s: seq<T>)
    requires TotalPreorder(le)
    ensures Ties(le, y, Insert(le, x, s)) == Ties(le, y, [x] + s)
    decreases |s|
  {
    if s != [] && !le(x, s[0]) {
      var rest := s[1..];
      var hx := if le(x, y) && le(y, x) then [x] else [];
      var h0 := if le(s[0], y) && le(y, s[0]) then [s[0]] else [];
      assert Ties(le, y, Insert(le, x, s)) == h0 + (hx + Ties(le, y, rest)) by {
        InsertTies(le, y, x, rest);
        TiesCons(le, y, s[0], Insert(le, x, rest));
        TiesCons(le, y, x, rest);
      }
      assert Ties(le, y, [x] + s) == hx + (h0 + Ties(le, y, rest)) by {
        TiesCons(le, y, x, s);
        assert s == [s[0]] + rest;
        TiesCons(le, y, s[0], rest);
      }
      // s[0] is strictly below x, so x and s[0] are never both tied with y.
      assert h0 == [] || hx == [];
    }
  }

  /** The insertion sort is a stable sort. */
  lemma {:induction false} SortByIsStableSort<T(!new)>(le: (T, T) -> bool, s: seq<T>)
    requires TotalPreorder(le)
    ensures IsStableSortOf(le, s, SortBy(le, s))
    decreases |s|
  {
    if s != [] {
      var t := SortBy(le, s[1..]);
      SortByIsStableSort(le, s[1..]);
      InsertSorted(le, s[0], t);
      InsertMultiset(le, s[0], t);
      assert s == [s[0]] + s[1..];
      forall y
        ensures Ties(le, y, SortBy(le, s)) == Ties(le, y, s)
      {
        InsertTies(le, y, s[0], t);
        TiesAppend(le, y, [s[0]], t);
        TiesAppend(le, y, [s[0]], s[1..]);
      }
    }
  }

  /** Two sorted permutations of one sequence start with elements that tie. */
  lemma SortedPermutationsHeadsTie<T(!new)>(le: (T, T) -> bool, a: seq<T>, b: seq<T>)
    requires TotalPreorder(le)
    requires Sorted(le, a) && Sorted(le, b)
    requires multiset(a) == multiset(b)
    requires a != []
    ensures b != [] && le(a[0], b[0]) && le(b[0], a[0])
  {
    assert a[0] in multiset(b);
    assert b != [] && b[0] in multiset(a);
    var k :| 0 <= k < |b| && b[k] == a[0];
    var m :| 0 <= m < |a| && a[m] == b[0];
    assert le(b[0], a[0]) by { if k > 0 { assert le(b[0], b[k]); } }
    assert le(a[0], b[0]) by { if m > 0 { assert le(a[0], a[m]); } }
  }

  /** With equal first elements, equal ties of the whole sequences give equal ties of the tails. */
  lemma TiesOfTails<T(!new)>(le: (T, T) -> bool, a: seq<T>, b: seq<T>)
    requires a != [] && b != [] && a[0] == b[0]
    requires forall x :: Ties(le, x, a) == Ties(le, x, b)
    ensures forall y :: Ties(le, y, a[1..]) == Ties(le, y, b[1..])
  {
    forall y
      ensures Ties(le, y, a[1..]) == Ties(le, y, b[1..])
    {
      var h := if le(a[0], y) && le(y, a[0]) then [a[0]] else [];
      assert Ties(le, y, a) == h + Ties(le, y, a[1..]);
      assert Ties(le, y, b) == h + Ties(le, y, b[1..]);
      assert Ties(le, y, a) == Ties(le, y, b);
      assert Ties(le, y, a[1..]) == Ties(le, y, a)[|h|..];
      assert Ties(le, y, b[1..]) == Ties(le, y, b)[|h|..];
    }
  }

  /**
   * A stable sort is unique: two sorted permutations of one sequence whose classes of
   * equal elements appear in the same order are the same sequence.
   */
  lemma {:induction false} SortedWithSameTiesEqual<T(!new)>(le: (T, T) -> bool, a: seq<T>, b: seq<T>)
    requires TotalPreorder(le)
    requires Sorted(le, a) && Sorted(le, b)
    requires multiset(a) == multiset(b)
    requires forall x :: Ties(le, x, a) == Ties(le, x, b)
    ensures a == b
    decreases |a|
  {
    if a == [] {
      assert |b| == |multiset(b)| == 0;
    } else {
      SortedPermutationsHeadsTie(le, a, b);
      var x := a[0];
      assert Ties(le, x, a)[0] == a[0];
      assert Ties(le, x, b)[0] == b[0];
      TiesOfTails(le, a, b);
      assert a == [a[0]] + a[1..];
      assert b == [b[0]] + b[1..];
      assert multiset(a[1..]) == multiset(a) - multiset{a[0]};
      assert multiset(b[1..]) == multiset(b) - multiset{b[0]};
      SortedWithSameTiesEqual(le, a[1..], b[1..]);
    }
  }

  /** So any stable sort of `s` by `le` is exactly `SortBy(le, s)`. */
  lemma StableSortUnique<T(!new)>(le: (T, T) -> bool, s: seq<T>, r: seq<T>)
    requires TotalPreorder(le)
    requires IsStableSortOf(le, s, r)
    ensures r == SortBy(le, s)
  {
    SortByIsStableSort(le, s);
    SortedWithSameTiesEqual(le, r, SortBy(le, s));
  }

  /** Elements that tie under `le1` keep any `le2` order the sequence had: the ties of a sorted sequence are sorted. */
  lemma {:induction false} TiesOfSorted<T>(le1: (T, T) -> bool, le2: (T, T) -> bool, x: T, s: seq<T>)
    requires Sorted(le2, s)
    ensures Sorted(le2, Ties(le1, x, s))
    decreases |s|
  {
    if s != [] {
      TiesOfSorted(le1, le2, x, s[1..]);
      var t := Ties(le1, x, s[1..]);
      forall j | 0 <= j < |t|
        ensures le2(s[0], t[j])
      {
        TiesMembers(le1, x, s[1..], t[j]);
        var k :| 0 <= k < |s[1..]| && s[1..][k] == t[j];
        assert s[k + 1] == t[j];
      }
    }
  }

  /**
   * If the ties of `x` are sorted by `le2`, then any two elements of the sequence tied
   * with `x` are in `le2` order.
   */
  lemma {:induction false} TiedPairOrdered<T>(le1: (T, T) -> bool, le2: (T, T) -> bool, x: T, s: seq<T>, i: nat, j: nat)
    requires Sorted(le2, Ties(le1, x, s))
    requires i < j < |s|
    requires le1(s[i], x) && le1(x, s[i]) && le1(s[j], x) && le1(x, s[j])
    ensures le2(s[i], s[j])
    decreases i
  {
    var head := if le1(s[0], x) && le1(x, s[0]) then [s[0]] else [];
    var t := Ties(le1, x, s[1..]);
    assert Ties(le1, x, s) == head + t;
    TiesMembers(le1, x, s[1..], s[j]);
    assert s[j] == s[1..][j - 1];
    if i == 0 {
      var k :| 0 <= k < |t| && t[k] == s[j];
      assert Ties(le1, x, s)[0] == s[0];
      assert Ties(le1, x, s)[k + 1] == s[j];
    } else {
      assert Sorted(le2, t) by {
        forall p, q | 0 <= p < q < |t|
          ensures le2(t[p], t[q])
        {
          assert t[p] == Ties(le1, x, s)[p + |head|];
          assert t[q] == Ties(le1, x, s)[q + |head|];
        }
      }
      TiedPairOrdered(le1, le2, x, s[1..], i - 1, j - 1);
    }
  }
}
