/**
 * `Stream.filter(...).toList()` and `Stream.filter(...).findAny()` over member records,
 * for the predicates the query layer filters by.
 */
module Streams {
  import opened Wrappers
  import opened Got
  import opened JavaStrings

  /** The filter predicates of the query layer, one constructor per lambda shape. */
  datatype Criterion =
    | HasId(id: int)
    | HasName(name: string)
    | InHouse(house: House)
    | NameStartsWith(prefix: string)
    | SalaryBelow(max: int)
    | HasTitle(title: Title)
    | Royal
    | NotRoyal

  predicate Matches(c: Criterion, m: Member) {
    match c
    case HasId(id) => m.id == id
    case HasName(name) => m.name == name
    case InHouse(h) => m.house == h
    case NameStartsWith(p) => StartsWith(m.name, p)
    case SalaryBelow(max) => m.salary < max
    case HasTitle(t) => m.title == t
    case Royal => IsRoyal(m)
    case NotRoyal => !IsRoyal(m)
  }

  /** The matching members, in stream order. */
  function Filter(c: Criterion, s: seq<Member>): (r: seq<Member>)
    ensures |r| <= |s|
    ensures forall m :: m in r ==> m in s && Matches(c, m)
    decreases |s|
  {
    if s == [] then []
    else (if Matches(c, s[0]) then [s[0]] else []) + Filter(c, s[1..])
  }

  /** Nothing dropped, nothing duplicated: each matching member occurs as often as in `s`, any other not at all. */
  lemma {:induction false} FilterMultiset(c: Criterion, s: seq<Member>)
    ensures forall m :: multiset(Filter(c, s))[m] == if Matches(c, m) then multiset(s)[m] else 0
    decreases |s|
  {
    if s != [] {
      FilterMultiset(c, s[1..]);
      assert s == [s[0]] + s[1..];
    }
  }

  /** A member is in the filtered list exactly when it is in the stream and matches. */
  lemma FilterMembers(c: Criterion, s: seq<Member>)
    ensures forall m :: m in Filter(c, s) <==> m in s && Matches(c, m)
  {
    FilterMultiset(c, s);
    forall m | m in s && Matches(c, m)
      ensures m in Filter(c, s)
    {
      assert multiset(Filter(c, s))[m] == multiset(s)[m] > 0;
    }
  }

  /** Two complementary filters split the stream: together they hold every member as often as it does. */
  lemma {:induction false} ComplementaryFilters(c: Criterion, d: Criterion, s: seq<Member>)
    requires forall m :: Matches(d, m) <==> !Matches(c, m)
    ensures multiset(Filter(c, s)) + multiset(Filter(d, s)) == multiset(s)
    decreases |s|
  {
    if s != [] {
      ComplementaryFilters(c, d, s[1..]);
      ComplementaryHead(c, d, s);
      assert multiset(s) == multiset{s[0]} + multiset(s[1..]) by {
        assert s == [s[0]] + s[1..];
      }
    }
  }

  /** The first element of the stream goes to exactly one of two complementary filters. */
  lemma ComplementaryHead(c: Criterion, d: Criterion, s: seq<Member>)
    requires s != []
    requires Matches(d, s[0]) <==> !Matches(c, s[0])
    ensures multiset(Filter(c, s)) + multiset(Filter(d, s))
         == multiset{s[0]} + (multiset(Filter(c, s[1..])) + multiset(Filter(d, s[1..])))
  {
    var t, f := Filter(c, s[1..]), Filter(d, s[1..]);
    if Matches(c, s[0]) {
      assert Filter(c, s) == [s[0]] + t;
      assert Filter(d, s) == f;
    } else {
      assert Filter(c, s) == t;
      assert Filter(d, s) == [s[0]] + f;
    }
  }

  /** `r` is `s` with some elements dropped and the rest in their original order. */
  predicate Subsequence(r: seq<Member>, s: seq<Member>)
    decreases |s|
  {
    if r == [] then true
    else if s == [] then false
    else (r[0] == s[0] && Subsequence(r[1..], s[1..])) || Subsequence(r, s[1..])
  }

  /** Filtering keeps the original order. */
  lemma {:induction false} FilterSubsequence(c: Criterion, s: seq<Member>)
    ensures Subsequence(Filter(c, s), s)
    decreases |s|
  {
    if s != [] {
      FilterSubsequence(c, s[1..]);
      var f := Filter(c, s);
      if Matches(c, s[0]) {
        assert f == [s[0]] + Filter(c, s[1..]);
        assert f[1..] == Filter(c, s[1..]);
      } else {
        assert f == Filter(c, s[1..]);
      }
    }
  }

  /** A subsequence of matching members has at most as many elements as the filter. */
  lemma {:induction false} SubsequenceOfMatchesBounded(c: Criterion, r: seq<Member>, s: seq<Member>)
    requires Subsequence(r, s)
    requires forall m :: m in r ==> Matches(c, m)
    ensures |r| <= |Filter(c, s)|
    decreases |s|
  {
    if r != [] {
      if r[0] == s[0] && Subsequence(r[1..], s[1..]) {
        assert forall m :: m in r[1..] ==> m in r;
        SubsequenceOfMatchesBounded(c, r[1..], s[1..]);
        assert Matches(c, s[0]);
      } else {
        SubsequenceOfMatchesBounded(c, r, s[1..]);
      }
    }
  }

  /**
   * The filter is the only order-preserving selection of matching members as long as
   * it: "exactly the matching members, in original order" determines it.
   */
  lemma {:induction false} FilterUnique(c: Criterion, s: seq<Member>, r: seq<Member>)
    requires Subsequence(r, s)
    requires forall m :: m in r ==> Matches(c, m)
    requires |r| == |Filter(c, s)|
    ensures r == Filter(c, s)
    decreases |s|
  {
    if r == [] {
    } else if r[0] == s[0] && Subsequence(r[1..], s[1..]) {
      assert Filter(c, s) == [s[0]] + Filter(c, s[1..]) by {
        assert Matches(c, r[0]);
      }
      assert forall m :: m in r[1..] ==> Matches(c, m) by {
        assert forall m :: m in r[1..] ==> m in r;
      }
      FilterUnique(c, s[1..], r[1..]);
      assert r == [r[0]] + r[1..];
    } else {
      assert Subsequence(r, s[1..]);
      SubsequenceOfMatchesBounded(c, r, s[1..]);
      if Matches(c, s[0]) {
        assert false;
      }
      assert Filter(c, s) == Filter(c, s[1..]);
      FilterUnique(c, s[1..], r);
    }
  }

  lemma {:induction false} FilterAppend(c: Criterion, a: seq<Member>, b: seq<Member>)
    ensures Filter(c, a + b) == Filter(c, a) + Filter(c, b)
    decreases |a|
  {
    if a == [] {
      assert a + b == b;
    } else {
      assert (a + b)[0] == a[0];
      assert (a + b)[1..] == a[1..] + b;
      FilterAppend(c, a[1..], b);
    }
  }

  /** The positions of `s` holding a matching member. */
  function Positions(c: Criterion, s: seq<Member>): set<nat> {
    set i: nat | i < |s| && Matches(c, s[i])
  }

  /** One more element at the end adds its own position when it matches. */
  lemma PositionsSnoc(c: Criterion, init: seq<Member>, last: Member)
    ensures Positions(c, init + [last]) == Positions(c, init) + (if Matches(c, last) then {|init|} else {})
  {
    var s := init + [last];
    var p, q := Positions(c, s), Positions(c, init);
    forall i: nat | i in p
      ensures i in q || (i == |init| && Matches(c, last))
    {
      if i < |init| {
        assert s[i] == init[i];
      }
    }
    forall i: nat | i in q
      ensures i in p
    {
      assert s[i] == init[i];
    }
    assert Matches(c, last) ==> s[|init|] == last && |init| in p;
  }

  /** The filtered list has one element per matching position of the stream. */
  lemma {:induction false} FilterLengthIsPositions(c: Criterion, s: seq<Member>)
    ensures |Filter(c, s)| == |Positions(c, s)|
    decreases |s|
  {
    if s != [] {
      var init, last := s[..|s| - 1], s[|s| - 1];
      assert s == init + [last];
      FilterLengthIsPositions(c, init);
      FilterAppend(c, init, [last]);
      assert Filter(c, [last]) == (if Matches(c, last) then [last] else []) + Filter(c, []);
      PositionsSnoc(c, init, last);
      assert |init| !in Positions(c, init);
    }
  }

  /** `filter(...).findAny()`, resolved as the first match. */
  function FindAny(c: Criterion, s: seq<Member>): (r: Option<Member>)
    ensures r.Some? ==> r.value in s && Matches(c, r.value)
    ensures r.None? <==> forall m :: m in s ==> !Matches(c, m)
    decreases |s|
  {
    if s == [] then None
    else if Matches(c, s[0]) then Some(s[0])
    else
      assert forall m :: m in s ==> m == s[0] || m in s[1..];
      FindAny(c, s[1..])
  }
}
