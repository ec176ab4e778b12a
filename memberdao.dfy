/**
 * The read-only query layer over a fixed snapshot of member records. The snapshot,
 * which the Java class loads once from a process-wide member database, is the
 * parameter `all` of every query here; no query changes it.
 */
module InMemoryMemberDAO {
  import opened Wrappers
  import opened Got
  import opened JavaStrings
  import opened StableSort
  import opened Streams
  import opened Comparators

  // ---------------------------------------------------------------- lookups

  /** `findById`: some member with that id, or empty exactly when there is none. */
  function FindById(all: seq<Member>, id: int): (r: Option<Member>)
    ensures r.Some? ==> r.value in all && r.value.id == id
    ensures r.None? <==> forall m :: m in all ==> m.id != id
  {
    FindAny(HasId(id), all)
  }

  /** `findByName`: some member with that name, or empty exactly when there is none. */
  function FindByName(all: seq<Member>, name: string): (r: Option<Member>)
    ensures r.Some? ==> r.value in all && r.value.name == name
    ensures r.None? <==> forall m :: m in all ==> m.name != name
  {
    FindAny(HasName(name), all)
  }

  /**
   * `findAllByHouse`: the members of house `h`, each as often as in the snapshot, no
   * other member, in snapshot order.
   */
  function FindAllByHouse(all: seq<Member>, h: House): (r: seq<Member>)
    ensures forall m :: m in r <==> m in all && m.house == h
    ensures forall m :: multiset(r)[m] == if m.house == h then multiset(all)[m] else 0
    ensures Subsequence(r, all)
  {
    FilterMembers(InHouse(h), all);
    FilterMultiset(InHouse(h), all);
    FilterSubsequence(InHouse(h), all);
    Filter(InHouse(h), all)
  }

  /** Those three properties pin `findAllByHouse` down: no other list of house members in snapshot order has its length. */
  lemma FindAllByHouseUnique(all: seq<Member>, h: House, r: seq<Member>)
    requires Subsequence(r, all)
    requires forall m :: m in r ==> m.house == h
    requires |r| == HowMany(all, h)
    ensures r == FindAllByHouse(all, h)
  {
    FilterUnique(InHouse(h), all, r);
  }

  /** `getAll`: a copy of the whole snapshot, same members in the same order. */
  function GetAll(all: seq<Member>): (r: seq<Member>)
    ensures |r| == |all| && forall i :: 0 <= i < |r| ==> r[i] == all[i]
  {
    all[..]
  }

  // ------------------------------------------------------ filter-and-sort

  /** `startWithSandSortAlphabetically`: the members whose name starts with "S", stably sorted by id. */
  function StartWithSandSortAlphabetically(all: seq<Member>): (r: seq<Member>)
    ensures IsStableSortOf(IdLe, Filter(NameStartsWith("S"), all), r)
    ensures forall m :: m in r <==> m in all && StartsWith(m.name, "S")
    ensures forall i, j :: 0 <= i < j < |r| ==> r[i].id <= r[j].id
  {
    var selected := Filter(NameStartsWith("S"), all);
    ComparatorsArePreorders();
    SortByIsStableSort(IdLe, selected);
    StableSortMembers(IdLe, selected, SortBy(IdLe, selected));
    FilterMembers(NameStartsWith("S"), all);
    SortBy(IdLe, selected)
  }

  /** `lannisters_alphabeticallyByName`: the Lannisters, stably sorted by name. */
  function LannistersAlphabeticallyByName(all: seq<Member>): (r: seq<Member>)
    ensures IsStableSortOf(NameLe, FindAllByHouse(all, LANNISTER), r)
    ensures forall m :: m in r <==> m in all && m.house == LANNISTER
    ensures forall i, j :: 0 <= i < j < |r| ==> LexLe(r[i].name, r[j].name)
  {
    var selected := FindAllByHouse(all, LANNISTER);
    ComparatorsArePreorders();
    SortByIsStableSort(NameLe, selected);
    SortBy(NameLe, selected)
  }

  /** `salaryLessThanAndSortByHouse`: the members paid less than `max`, stably sorted by house. */
  function SalaryLessThanAndSortByHouse(all: seq<Member>, max: int): (r: seq<Member>)
    ensures IsStableSortOf(HouseLe, Filter(SalaryBelow(max), all), r)
    ensures forall m :: m in r <==> m in all && m.salary < max
    ensures forall i, j :: 0 <= i < j < |r| ==> Ordinal(r[i].house) <= Ordinal(r[j].house)
  {
    var selected := Filter(SalaryBelow(max), all);
    ComparatorsArePreorders();
    SortByIsStableSort(HouseLe, selected);
    StableSortMembers(HouseLe, selected, SortBy(HouseLe, selected));
    FilterMembers(SalaryBelow(max), all);
    SortBy(HouseLe, selected)
  }

  /**
   * `sortByHouseNameThenSortByNameDesc`: sort by house, then stably by name. The result
   * is every member in ascending name order, and members with equal names stay in house
   * order from the first sort.
   */
  function SortByHouseNameThenSortByNameDesc(all: seq<Member>): (r: seq<Member>)
    ensures IsStableSortOf(NameLe, SortBy(HouseLe, all), r)
    ensures multiset(r) == multiset(all)
    ensures forall x :: Sorted(HouseLe, Ties(NameLe, x, r))
  {
    var byHouse := SortBy(HouseLe, all);
    ComparatorsArePreorders();
    SortByIsStableSort(HouseLe, all);
    SortByIsStableSort(NameLe, byHouse);
    var r := SortBy(NameLe, byHouse);
    assert forall x :: Sorted(HouseLe, Ties(NameLe, x, r)) by {
      forall x
        ensures Sorted(HouseLe, Ties(NameLe, x, r))
      {
        TiesOfSorted(NameLe, HouseLe, x, byHouse);
      }
    }
    r
  }

  /** The two-sort query orders by name first and, among equal names, by house. */
  lemma SortByHouseThenNameOrder(all: seq<Member>)
    ensures var r := SortByHouseNameThenSortByNameDesc(all);
      forall i, j :: 0 <= i < j < |r| ==>
        LexLe(r[i].name, r[j].name) &&
        (r[i].name == r[j].name ==> Ordinal(r[i].house) <= Ordinal(r[j].house))
  {
    var r := SortByHouseNameThenSortByNameDesc(all);
    forall i, j | 0 <= i < j < |r|
      ensures LexLe(r[i].name, r[j].name)
      ensures r[i].name == r[j].name ==> Ordinal(r[i].house) <= Ordinal(r[j].house)
    {
      if r[i].name == r[j].name {
        NameTiesAreEqualNames(r[i], r[j]);
        LexLeReflexive(r[j].name);
        TiedPairOrdered(NameLe, HouseLe, r[i], r, i, j);
      }
    }
  }

  /** `houseByDob`: the members of house `h`, stably sorted by date of birth. */
  function HouseByDob(all: seq<Member>, h: House): (r: seq<Member>)
    ensures IsStableSortOf(DobLe, FindAllByHouse(all, h), r)
    ensures forall m :: m in r <==> m in all && m.house == h
    ensures forall i, j :: 0 <= i < j < |r| ==> r[i].dob <= r[j].dob
  {
    var selected := FindAllByHouse(all, h);
    ComparatorsArePreorders();
    SortByIsStableSort(DobLe, selected);
    SortBy(DobLe, selected)
  }

  /** `kingsByNameDesc`: the members titled KING, stably sorted by descending name. */
  function KingsByNameDesc(all: seq<Member>): (r: seq<Member>)
    ensures IsStableSortOf(NameDescLe, Filter(HasTitle(KING), all), r)
    ensures forall m :: m in r <==> m in all && m.title == KING
    ensures forall i, j :: 0 <= i < j < |r| ==> LexLe(r[j].name, r[i].name)
  {
    var selected := Filter(HasTitle(KING), all);
    ComparatorsArePreorders();
    SortByIsStableSort(NameDescLe, selected);
    StableSortMembers(NameDescLe, selected, SortBy(NameDescLe, selected));
    FilterMembers(HasTitle(KING), all);
    SortBy(NameDescLe, selected)
  }

  /** `.map(Member::name)`: the names, position by position. */
  function Names(s: seq<Member>): (r: seq<string>)
    ensures |r| == |s| && forall i :: 0 <= i < |s| ==> r[i] == s[i].name
    decreases |s|
  {
    if s == [] then [] else [s[0].name] + Names(s[1..])
  }

  /** `namesSorted`: the names of house `h` in natural (`compareTo`) order. */
  function NamesSorted(all: seq<Member>, h: House): (r: seq<string>)
    ensures Sorted(LexLe, r)
    ensures multiset(r) == multiset(Names(FindAllByHouse(all, h)))
  {
    var names := Names(FindAllByHouse(all, h));
    ComparatorsArePreorders();
    SortByIsStableSort(LexLe, names);
    SortBy(LexLe, names)
  }

  lemma {:induction false} NamesOfInsert(x: Member, s: seq<Member>)
    ensures Names(Insert(NameLe, x, s)) == Insert(LexLe, x.name, Names(s))
    decreases |s|
  {
    if s != [] && !NameLe(x, s[0]) {
      NamesOfInsert(x, s[1..]);
      assert Names(s)[1..] == Names(s[1..]);
    }
  }

  /** Sorting members by name and taking the names is the same as sorting the names. */
  lemma {:induction false} NamesOfSortByName(s: seq<Member>)
    ensures Names(SortBy(NameLe, s)) == SortBy(LexLe, Names(s))
    decreases |s|
  {
    if s != [] {
      NamesOfSortByName(s[1..]);
      NamesOfInsert(s[0], SortBy(NameLe, s[1..]));
      assert Names(s)[1..] == Names(s[1..]);
    }
  }

  /** `namesSorted(h)` lists the names of the members of `h` sorted by name. */
  lemma NamesSortedAreSortedMembersNames(all: seq<Member>, h: House)
    ensures NamesSorted(all, h) == Names(SortBy(NameLe, FindAllByHouse(all, h)))
  {
    NamesOfSortByName(FindAllByHouse(all, h));
  }

  // ------------------------------------------------------ counts and tests

  /** `anyMembers`: whether some member belongs to house `h`. */
  function AnyMembers(all: seq<Member>, h: House): (r: bool)
    ensures r <==> exists m :: m in all && m.house == h
  {
    var members := FindAllByHouse(all, h);
    assert members != [] ==> members[0] in members;
    members != []
  }

  /** `howMany`: the size of `findAllByHouse(h)`, at most the snapshot size. */
  function HowMany(all: seq<Member>, h: House): (r: nat)
    ensures r <= |all|
  {
    |FindAllByHouse(all, h)|
  }

  /** `howMany(h)` counts the snapshot positions that hold a member of house `h`. */
  lemma HowManyCountsPositions(all: seq<Member>, h: House)
    ensures HowMany(all, h) == |set i: nat | i < |all| && all[i].house == h|
  {
    FilterLengthIsPositions(InHouse(h), all);
    var p := Positions(InHouse(h), all);
    var q := set i: nat | i < |all| && all[i].house == h;
    assert p == q by {
      forall i: nat
        ensures i in p <==> i in q
      {
      }
    }
  }

  /** A house has members exactly when its count is positive. */
  lemma AnyMembersIffHowManyPositive(all: seq<Member>, h: House)
    ensures AnyMembers(all, h) <==> HowMany(all, h) > 0
  {
  }

  /** The per-house counts over a list of houses, added up. */
  function CountOver(all: seq<Member>, hs: seq<House>): nat
    decreases |hs|
  {
    if hs == [] then 0 else HowMany(all, hs[0]) + CountOver(all, hs[1..])
  }

  /** How many times a house occurs in a list of houses. */
  function Occurrences(h: House, hs: seq<House>): nat
    decreases |hs|
  {
    if hs == [] then 0 else (if hs[0] == h then 1 else 0) + Occurrences(h, hs[1..])
  }

  /** Each member is counted once for each time its house occurs in the list. */
  lemma {:induction false} CountOverCons(all: seq<Member>, hs: seq<House>)
    requires all != []
    ensures CountOver(all, hs) == CountOver(all[1..], hs) + Occurrences(all[0].house, hs)
    decreases |hs|
  {
    if hs != [] {
      CountOverCons(all, hs[1..]);
      assert HowMany(all, hs[0]) == (if all[0].house == hs[0] then 1 else 0) + HowMany(all[1..], hs[0]) by {
        assert Filter(InHouse(hs[0]), all)
            == (if all[0].house == hs[0] then [all[0]] else []) + Filter(InHouse(hs[0]), all[1..]);
      }
    }
  }

  lemma {:induction false} OccurrencesInDistinct(h: House, hs: seq<House>, k: nat)
    requires k < |hs| && hs[k] == h
    requires forall i, j :: 0 <= i < j < |hs| ==> hs[i] != hs[j]
    ensures Occurrences(h, hs) == 1
    decreases |hs|
  {
    if k == 0 {
      assert forall i :: 0 <= i < |hs[1..]| ==> hs[1..][i] != h by {
        forall i | 0 <= i < |hs[1..]|
          ensures hs[1..][i] != h
        {
          assert hs[1..][i] == hs[i + 1];
        }
      }
      OccurrencesAbsent(h, hs[1..]);
    } else {
      OccurrencesInDistinct(h, hs[1..], k - 1);
    }
  }

  lemma {:induction false} OccurrencesAbsent(h: House, hs: seq<House>)
    requires forall i :: 0 <= i < |hs| ==> hs[i] != h
    ensures Occurrences(h, hs) == 0
    decreases |hs|
  {
    if hs != [] {
      OccurrencesAbsent(h, hs[1..]);
    }
  }

  /** Every member belongs to exactly one declared house, so the house counts add up to the snapshot size. */
  lemma HouseCountsSum(all: seq<Member>)
    ensures CountOver(all, AllHouses()) == |all|
  {
    forall h
      ensures Occurrences(h, AllHouses()) == 1
    {
      OccursOnce(h);
    }
    CountOverEachOnce(all, AllHouses());
  }

  /** Over a list holding every house once, the house counts add up to the snapshot size. */
  lemma {:induction false} CountOverEachOnce(all: seq<Member>, hs: seq<House>)
    requires forall h :: Occurrences(h, hs) == 1
    ensures CountOver(all, hs) == |all|
    decreases |all|
  {
    if all == [] {
      CountOverEmpty(hs);
    } else {
      CountOverEachOnce(all[1..], hs);
      CountOverCons(all, hs);
    }
  }

  /** `House.values()` holds each house once. */
  lemma OccursOnce(h: House)
    ensures Occurrences(h, AllHouses()) == 1
  {
    AllHousesIndexed();
    OccurrencesInDistinct(h, AllHouses(), Ordinal(h));
  }

  lemma {:induction false} CountOverEmpty(hs: seq<House>)
    ensures CountOver([], hs) == 0
    decreases |hs|
  {
    if hs != [] {
      CountOverEmpty(hs[1..]);
    }
  }

  /** `highestSalary`: empty for an empty snapshot, otherwise a member no one out-earns. */
  function HighestSalary(all: seq<Member>): (r: Option<Member>)
    ensures r.None? <==> all == []
    ensures r.Some? ==> r.value in all && forall m :: m in all ==> m.salary <= r.value.salary
    ensures r.Some? ==>
      exists k :: 0 <= k < |all| && all[k] == r.value && (forall j :: 0 <= j < k ==> all[j].salary < r.value.salary)
  {
    if all == [] then None
    else
      var k := MaxBySalaryFrom(all, 0, 1);
      Some(all[k])
  }

  /**
   * `reduce(BinaryOperator.maxBy(comparingDouble(Member::salary)))` from position `i` on,
   * with `best` the answer so far: a later member replaces it only when strictly richer,
   * so the first of the richest wins.
   */
  function MaxBySalaryFrom(s: seq<Member>, best: nat, i: nat): (k: nat)
    requires best < i <= |s|
    requires forall j :: 0 <= j < i ==> s[j].salary <= s[best].salary
    requires forall j :: 0 <= j < best ==> s[j].salary < s[best].salary
    ensures k < |s|
    ensures forall j :: 0 <= j < |s| ==> s[j].salary <= s[k].salary
    ensures forall j :: 0 <= j < k ==> s[j].salary < s[k].salary
    decreases |s| - i
  {
    if i == |s| then best
    else MaxBySalaryFrom(s, if s[best].salary >= s[i].salary then best else i, i + 1)
  }

  // ---------------------------------------------------------------- string join

  /** The exception `StringBuilder.setLength` throws for a negative length. */
  datatype Exception = StringIndexOutOfBounds(newLength: int)

  /**
   * `houseMemberNames`: append each name of house `h` and ", " to a builder, then cut the
   * last two characters off. With no member the builder is empty and `setLength(-2)` throws.
   */
  method HouseMemberNames(all: seq<Member>, h: House) returns (r: Result<string, Exception>)
    ensures AnyMembers(all, h) ==> r == Success(Join(Names(FindAllByHouse(all, h)), ", "))
    ensures !AnyMembers(all, h) ==> r == Failure(StringIndexOutOfBounds(-2))
  {
    var members := FindAllByHouse(all, h);
    var names := "";
    for i := 0 to |members|
      invariant names == Terminated(Names(members[..i]), ", ")
    {
      NamesSnoc(members, i);
      TerminatedSnoc(Names(members[..i]), members[i].name, ", ");
      names := names + members[i].name + ", ";
    }
    assert members[..|members|] == members;
    var newLength := |names| - 2;
    if members == [] {
      assert names == "";
      r := Failure(StringIndexOutOfBounds(newLength));
    } else {
      assert members[0] in members;
      TerminatedIsJoinThenSep(Names(members), ", ");
      r := Success(names[..newLength]);
    }
  }

  lemma NamesSnoc(members: seq<Member>, i: nat)
    requires i < |members|
    ensures Names(members[..i + 1]) == Names(members[..i]) + [members[i].name]
  {
  }

  // ---------------------------------------------------------------- partition and grouping

  /**
   * `royaltyPartition`: a map with both keys; `true` holds the KINGs and QUEENs, `false`
   * everyone else, each in snapshot order. No member is in both, and together the two
   * lists hold every member as often as the snapshot does.
   */
  method RoyaltyPartition(all: seq<Member>) returns (partition: map<bool, seq<Member>>)
    ensures partition.Keys == {true, false}
    ensures forall m :: m in partition[true] <==> m in all && IsRoyal(m)
    ensures forall m :: m in partition[false] <==> m in all && !IsRoyal(m)
    ensures forall m :: !(m in partition[true] && m in partition[false])
    ensures Subsequence(partition[true], all) && Subsequence(partition[false], all)
    ensures multiset(partition[true]) + multiset(partition[false]) == multiset(all)
  {
    partition := map[];
    partition := partition[true := Filter(Royal, all)];
    partition := partition[false := Filter(NotRoyal, all)];
    assert forall m :: m in partition[true] <==> m in all && IsRoyal(m) by {
      FilterMembers(Royal, all);
    }
    assert forall m :: m in partition[false] <==> m in all && !IsRoyal(m) by {
      FilterMembers(NotRoyal, all);
    }
    assert Subsequence(partition[true], all) && Subsequence(partition[false], all) by {
      FilterSubsequence(Royal, all);
      FilterSubsequence(NotRoyal, all);
    }
    assert multiset(partition[true]) + multiset(partition[false]) == multiset(all) by {
      ComplementaryFilters(Royal, NotRoyal, all);
    }
  }

  /** A map filled for every entry of `House.values()` has every house as a key. */
  lemma EveryHouseIsKey<V>(m: map<House, V>)
    requires forall j :: 0 <= j < |AllHouses()| ==> AllHouses()[j] in m
    ensures forall h :: h in m
  {
    forall h
      ensures h in m
    {
      assert AllHouses()[Ordinal(h)] == h;
    }
  }

  /** The sizes of the lists in a grouping. */
  function Sizes(groups: map<House, seq<Member>>): map<House, nat> {
    map h | h in groups :: |groups[h]|
  }

  /** The values of a count map for a list of houses, added up. */
  function SumOver(counts: map<House, nat>, hs: seq<House>): nat
    decreases |hs|
  {
    if hs == [] then 0 else (if hs[0] in counts then counts[hs[0]] else 0) + SumOver(counts, hs[1..])
  }

  lemma {:induction false} SumOverCounts(all: seq<Member>, counts: map<House, nat>, hs: seq<House>)
    requires forall h :: h in counts && counts[h] == HowMany(all, h)
    ensures SumOver(counts, hs) == CountOver(all, hs)
    decreases |hs|
  {
    if hs != [] {
      SumOverCounts(all, counts, hs[1..]);
    }
  }

  /**
   * `membersByHouse`: one entry for every declared house, empty houses included, each the
   * members of that house in snapshot order; the group sizes add up to the snapshot size.
   */
  method MembersByHouse(all: seq<Member>) returns (houses: map<House, seq<Member>>)
    ensures forall h :: h in houses && houses[h] == FindAllByHouse(all, h)
    ensures SumOver(Sizes(houses), AllHouses()) == |all|
  {
    houses := map[];
    for i := 0 to |AllHouses()|
      invariant forall j :: 0 <= j < i ==> AllHouses()[j] in houses
      invariant forall h :: h in houses ==> houses[h] == Filter(InHouse(h), all)
    {
      var house := AllHouses()[i];
      houses := houses[house := Filter(InHouse(house), all)];
    }
    EveryHouseIsKey(houses);
    GroupSizesSum(all, houses);
  }

  /** A grouping that holds `findAllByHouse(h)` under every house has sizes adding up to the snapshot size. */
  lemma GroupSizesSum(all: seq<Member>, houses: map<House, seq<Member>>)
    requires forall h :: h in houses && houses[h] == FindAllByHouse(all, h)
    ensures SumOver(Sizes(houses), AllHouses()) == |all|
  {
    SumOverCounts(all, Sizes(houses), AllHouses());
    HouseCountsSum(all);
  }

  /**
   * `numberOfMembersByHouse`: one count for every declared house, 0 for an empty one;
   * the counts add up to the snapshot size.
   */
  method NumberOfMembersByHouse(all: seq<Member>) returns (membersPerHouse: map<House, nat>)
    ensures forall h :: h in membersPerHouse && membersPerHouse[h] == HowMany(all, h)
    ensures SumOver(membersPerHouse, AllHouses()) == |all|
  {
    membersPerHouse := map[];
    for i := 0 to |AllHouses()|
      invariant forall j :: 0 <= j < i ==> AllHouses()[j] in membersPerHouse
      invariant forall h :: h in membersPerHouse ==> membersPerHouse[h] == |Filter(InHouse(h), all)|
    {
      var house := AllHouses()[i];
      membersPerHouse := membersPerHouse[house := |Filter(InHouse(house), all)|];
    }
    EveryHouseIsKey(membersPerHouse);
    CountsSum(all, membersPerHouse);
  }

  /** A count map that holds `howMany(h)` under every house adds up to the snapshot size. */
  lemma CountsSum(all: seq<Member>, counts: map<House, nat>)
    requires forall h :: h in counts && counts[h] == HowMany(all, h)
    ensures SumOver(counts, AllHouses()) == |all|
  {
    SumOverCounts(all, counts, AllHouses());
    HouseCountsSum(all);
  }
}
