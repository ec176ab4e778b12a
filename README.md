# Game-of-Thrones member queries, modelled in Dafny

This project models `InMemoryMemberDAO`, the read-only query layer of a small Java program over a fixed
collection of `Member` records. Each member has an id, a name, a house, a title, a date of birth and a
salary. Every query is a pure projection of that snapshot: lookups by id or name, stable filters,
filter-then-sort pipelines (`Stream.sorted` with a `Comparator`), counts and existence tests, the
highest salary, a comma-separated join of names, a royal / non-royal partition, and per-house maps
filled for every declared `House`.

Layout, one module per concern:

- `wrappers.dfy` (`Wrappers`): `Option` for `java.util.Optional`, `Result` for a call that may throw.
- `got.dfy` (`Got`): the `House` and `Title` enumerations, the `Member` record, `House.values()` and the ordinal.
- `javastrings.dfy` (`JavaStrings`): `String.compareTo` as a lexicographic order, `startsWith`, and what a
  `StringBuilder` holds after the append loop.
- `stablesort.dfy` (`StableSort`): a stable insertion sort over any comparator given as a function value,
  its specification (`IsStableSortOf`: sorted, a permutation, and equal elements in their input order), and
  the proof that a stable sort is unique. So any stable sort gives the same list, including the merge
  sort that `Stream.sorted` runs.
- `comparators.dfy` (`Comparators`): the five comparators the queries use, each proved consistent.
- `streams.dfy` (`Streams`): `filter(...).toList()` and `filter(...).findAny()` for the predicates the
  queries filter by, with their characterisation (only matching members, each as often as in the stream,
  in stream order, and unique with those properties).
- `memberdao.dfy` (`InMemoryMemberDAO`): the queries. The snapshot that the Java class loads from the
  singleton `MemberDB` is the parameter `all` of every query. The stream pipelines are functions.
  `houseMemberNames`, `royaltyPartition`, `membersByHouse` and `numberOfMembersByHouse` build their results
  step by step, so they are methods; `membersByHouse` and `numberOfMembersByHouse` loop over `House.values()`.

Modelling decisions:

- The Java declarations of `House`, `Title` and `Member` are not among the modelled source files.
  `got.dfy` declares all three, with the constants and their order assumed: the house constants are
  ARRYN ... TYRELL, in that order, and the title constants are SIR, LORD, LADY, KING, QUEEN. Only two
  facts about them matter to the proofs. `House.values()` lists every house once in declaration order.
  KING and QUEEN are the royal titles.
- The id (`Long`) and the salary (`double`) are unbounded integers, because the queries only compare
  them. The date of birth is a day number, and comparing two day numbers gives `LocalDate` order.
- `findAny` is resolved as the first match. The contracts promise only what the Java API promises: some
  matching member, and empty exactly when none matches.
- `highestSalary` is `Stream.max`, which is `reduce(BinaryOperator.maxBy(c))`. `maxBy` keeps the left
  operand when `compare >= 0`, so on ties the earliest richest member wins. The model proves this.
- `houseMemberNames` on a house without members calls `setLength(-2)`, which throws
  `StringIndexOutOfBoundsException`. The model returns `Failure(StringIndexOutOfBounds(-2))` in that case.
- `sortByHouseNameThenSortByNameDesc` sorts by house and then, stably, by name ascending (despite
  its name). The model proves what the code does: the final order is by name, and members with equal
  names stay in house order.

## Model

| member | source | states |
|---|---|---|
| `InMemoryMemberDAO.FindById` | src/main/java/edu/trinity/got/InMemoryMemberDAO.java:12-16 | the result, when present, is a snapshot member with that id; it is empty exactly when no member has that id |
| `InMemoryMemberDAO.FindByName` | src/main/java/edu/trinity/got/InMemoryMemberDAO.java:19-23 | the result, when present, is a snapshot member with that name; it is empty exactly when no member has that name |
| `InMemoryMemberDAO.FindAllByHouse` | src/main/java/edu/trinity/got/InMemoryMemberDAO.java:26-30 | a member is in the result iff it is in the snapshot with house h; each occurs as often as in the snapshot and no other member occurs; the result is a subsequence of the snapshot (original order) |
| `InMemoryMemberDAO.FindAllByHouseUnique` | src/main/java/edu/trinity/got/InMemoryMemberDAO.java:26-30 | any in-order selection of house-h members as long as `howMany(h)` equals `findAllByHouse(h)`: the three properties determine the list |
| `InMemoryMemberDAO.GetAll` | src/main/java/edu/trinity/got/InMemoryMemberDAO.java:33-36 | the copy has the snapshot's length and the same member at every position |
| `InMemoryMemberDAO.StartWithSandSortAlphabetically` | src/main/java/edu/trinity/got/InMemoryMemberDAO.java:42-47 | the result is a stable sort by id of the members whose name starts with "S": exactly those members, in ascending id order, ties in snapshot order |
| `InMemoryMemberDAO.LannistersAlphabeticallyByName` | src/main/java/edu/trinity/got/InMemoryMemberDAO.java:53-58 | the result is a stable sort by name of the LANNISTER members: exactly those, names in `compareTo` order, equal names in snapshot order |
| `InMemoryMemberDAO.SalaryLessThanAndSortByHouse` | src/main/java/edu/trinity/got/InMemoryMemberDAO.java:64-69 | the result is a stable sort by house ordinal of the members paid less than max: exactly those, in house declaration order, same-house members in snapshot order |
| `InMemoryMemberDAO.SortByHouseNameThenSortByNameDesc` | src/main/java/edu/trinity/got/InMemoryMemberDAO.java:75-80 | the result is a stable sort by name of the house-sorted snapshot, a permutation of all members, and every group of equal names is sorted by house |
| `InMemoryMemberDAO.SortByHouseThenNameOrder` | src/main/java/edu/trinity/got/InMemoryMemberDAO.java:75-80 | for any two positions i < j of the result, name i precedes or equals name j, and when the names are equal house i's ordinal is at most house j's |
| `InMemoryMemberDAO.HouseByDob` | src/main/java/edu/trinity/got/InMemoryMemberDAO.java:86-91 | the result is a stable sort by date of birth of `findAllByHouse(h)`: exactly the house members, oldest first, equal dates in snapshot order |
| `InMemoryMemberDAO.KingsByNameDesc` | src/main/java/edu/trinity/got/InMemoryMemberDAO.java:97-102 | the result is a stable sort by the reversed name comparator of the KING members: exactly those, names non-increasing, equal names in snapshot order |
| `InMemoryMemberDAO.Names` | src/main/java/edu/trinity/got/InMemoryMemberDAO.java:123 | `map(Member::name)` keeps the length and puts member i's name at position i |
| `InMemoryMemberDAO.NamesSorted` | src/main/java/edu/trinity/got/InMemoryMemberDAO.java:120-126 | the result is in `compareTo` order and is a permutation of the names of house h |
| `InMemoryMemberDAO.NamesSortedAreSortedMembersNames` | src/main/java/edu/trinity/got/InMemoryMemberDAO.java:120-126 | sorting the projected names equals projecting the names of the house members sorted by name |
| `InMemoryMemberDAO.NamesOfSortByName` | src/main/java/edu/trinity/got/InMemoryMemberDAO.java:123-124 | for any list, the names of the list sorted by name are the sorted names of the list |
| `InMemoryMemberDAO.AnyMembers` | src/main/java/edu/trinity/got/InMemoryMemberDAO.java:143-148 | true iff some snapshot member has house h |
| `InMemoryMemberDAO.HowMany` | src/main/java/edu/trinity/got/InMemoryMemberDAO.java:154-159 | the count never exceeds the snapshot size (it is defined as the size of `findAllByHouse(h)`; `HowManyCountsPositions` characterises it independently) |
| `InMemoryMemberDAO.HowManyCountsPositions` | src/main/java/edu/trinity/got/InMemoryMemberDAO.java:154-159 | the count equals the number of snapshot positions holding a member of house h |
| `InMemoryMemberDAO.AnyMembersIffHowManyPositive` | src/main/java/edu/trinity/got/InMemoryMemberDAO.java:143-159 | `anyMembers(h)` holds iff `howMany(h) > 0` |
| `InMemoryMemberDAO.HouseMemberNames` | src/main/java/edu/trinity/got/InMemoryMemberDAO.java:177-184 | for a house with members, the result is their names in snapshot order joined by ", " with no trailing separator; for an empty house, the `setLength(-2)` failure |
| `InMemoryMemberDAO.HighestSalary` | src/main/java/edu/trinity/got/InMemoryMemberDAO.java:190-193 | empty iff the snapshot is empty; otherwise a snapshot member whom no one out-earns, and no earlier member earns as much |
| `InMemoryMemberDAO.MaxBySalaryFrom` | src/main/java/edu/trinity/got/InMemoryMemberDAO.java:191-192 | the left fold of `maxBy` ends at a position of maximal salary with every earlier salary strictly smaller |
| `InMemoryMemberDAO.RoyaltyPartition` | src/main/java/edu/trinity/got/InMemoryMemberDAO.java:200-209 | both keys are present; `true` holds exactly the KING/QUEEN members and `false` exactly the rest, each in snapshot order; no member is in both; together they are the snapshot as a multiset |
| `InMemoryMemberDAO.MembersByHouse` | src/main/java/edu/trinity/got/InMemoryMemberDAO.java:215-222 | every declared house is a key, including empty houses, mapped to `findAllByHouse(h)`; the group sizes add up to the snapshot size |
| `InMemoryMemberDAO.NumberOfMembersByHouse` | src/main/java/edu/trinity/got/InMemoryMemberDAO.java:229-237 | every declared house is a key mapped to `howMany(h)`, 0 for an empty house; the counts add up to the snapshot size |
| `InMemoryMemberDAO.HouseCountsSum` | src/main/java/edu/trinity/got/InMemoryMemberDAO.java:231-235 | summed over `House.values()`, the per-house counts equal the snapshot size |
| `InMemoryMemberDAO.GroupSizesSum` | src/main/java/edu/trinity/got/InMemoryMemberDAO.java:217-220 | any grouping holding `findAllByHouse(h)` under every house has sizes summing to the snapshot size |
| `InMemoryMemberDAO.CountsSum` | src/main/java/edu/trinity/got/InMemoryMemberDAO.java:231-235 | any count map holding `howMany(h)` under every house sums to the snapshot size |
| `InMemoryMemberDAO.EveryHouseIsKey` | src/main/java/edu/trinity/got/InMemoryMemberDAO.java:217-218 | a map with a key for every entry of `House.values()` has every house as a key |
| `StableSort.SortByIsStableSort` | src/main/java/edu/trinity/got/InMemoryMemberDAO.java:45 | for a consistent comparator, the sort is ordered, a permutation of its input, and keeps equal elements in input order |
| `StableSort.StableSortUnique` | src/main/java/edu/trinity/got/InMemoryMemberDAO.java:77-78 | every stable sort of a list by a consistent comparator is the same list |
| `StableSort.StableSortMembers` | src/main/java/edu/trinity/got/InMemoryMemberDAO.java:89 | a stable sort holds exactly the elements of its input |
| `StableSort.TiesOfSorted` | src/main/java/edu/trinity/got/InMemoryMemberDAO.java:77-78 | in a list sorted by one comparator, each group of elements that tie under another comparator stays sorted by the first |
| `StableSort.TiedPairOrdered` | src/main/java/edu/trinity/got/InMemoryMemberDAO.java:77-78 | two tied elements of a list whose tie group is sorted by a second comparator appear in that comparator's order |
| `Comparators.ComparatorsArePreorders` | src/main/java/edu/trinity/got/InMemoryMemberDAO.java:100 | the id, house, date-of-birth, name and reversed-name comparators and `compareTo` are total and transitive |
| `Comparators.LexLeIsTotalPreorder` | src/main/java/edu/trinity/got/InMemoryMemberDAO.java:124 | `String.compareTo` is total and transitive |
| `Comparators.NameTiesAreEqualNames` | src/main/java/edu/trinity/got/InMemoryMemberDAO.java:56 | two members compare equal by name (forward or reversed) iff their names are equal |
| `JavaStrings.LexLeReflexive` | src/main/java/edu/trinity/got/InMemoryMemberDAO.java:56 | every string compares equal to itself |
| `JavaStrings.LexLeTotal` | src/main/java/edu/trinity/got/InMemoryMemberDAO.java:56 | any two strings compare one way or the other |
| `JavaStrings.LexLeTransitive` | src/main/java/edu/trinity/got/InMemoryMemberDAO.java:56 | `compareTo <= 0` is transitive |
| `JavaStrings.LexLeAntisymmetric` | src/main/java/edu/trinity/got/InMemoryMemberDAO.java:78 | two strings that compare both ways are equal |
| `JavaStrings.TerminatedSnoc` | src/main/java/edu/trinity/got/InMemoryMemberDAO.java:180 | each `append(name).append(", ")` extends the builder by the name and the separator |
| `JavaStrings.TerminatedIsJoinThenSep` | src/main/java/edu/trinity/got/InMemoryMemberDAO.java:180-181 | for at least one name the builder is the joined names plus one trailing separator |
| `JavaStrings.JoinLength` | src/main/java/edu/trinity/got/InMemoryMemberDAO.java:180-182 | the joined text is as long as all names together plus one separator between each pair |
| `JavaStrings.JoinEnds` | src/main/java/edu/trinity/got/InMemoryMemberDAO.java:180-182 | the joined text starts with the first name and ends with the last name |
| `Streams.Filter` | src/main/java/edu/trinity/got/InMemoryMemberDAO.java:27-29 | the filtered list is no longer than the stream and holds only stream members that match |
| `Streams.FilterMultiset` | src/main/java/edu/trinity/got/InMemoryMemberDAO.java:27-29 | each matching member occurs as often as in the stream, any other not at all |
| `Streams.FilterMembers` | src/main/java/edu/trinity/got/InMemoryMemberDAO.java:27-29 | a member is in the filtered list iff it is in the stream and matches |
| `Streams.FilterSubsequence` | src/main/java/edu/trinity/got/InMemoryMemberDAO.java:27-29 | the filtered list is a subsequence of the stream |
| `Streams.FilterUnique` | src/main/java/edu/trinity/got/InMemoryMemberDAO.java:27-29 | an in-order selection of matching members as long as the filter is the filter |
| `Streams.FilterLengthIsPositions` | src/main/java/edu/trinity/got/InMemoryMemberDAO.java:155-158 | the filtered list has one element per matching stream position |
| `Streams.ComplementaryFilters` | src/main/java/edu/trinity/got/InMemoryMemberDAO.java:202-207 | two filters by complementary predicates together hold the stream as a multiset |
| `Streams.FindAny` | src/main/java/edu/trinity/got/InMemoryMemberDAO.java:13-15 | the result, when present, is a matching stream member; empty iff no member matches |
| `Got.Ordinal` | src/main/java/edu/trinity/got/InMemoryMemberDAO.java:67 | every house sits at its ordinal in `House.values()` |
| `Got.AllHouses` | src/main/java/edu/trinity/got/InMemoryMemberDAO.java:217 | `House.values()`: the fourteen houses in declaration order, no house twice |
| `Got.AllHousesIndexed` | src/main/java/edu/trinity/got/InMemoryMemberDAO.java:231 | the house at index i of `House.values()` has ordinal i |
| `Got.IsRoyal` | src/main/java/edu/trinity/got/InMemoryMemberDAO.java:203-206 | the royalty test of both partition filters: the title is KING or QUEEN |
| `JavaStrings.LexLe` | src/main/java/edu/trinity/got/InMemoryMemberDAO.java:124 | `a.compareTo(b) <= 0`: compared character by character, the smaller character at the first difference comes first, and a proper prefix comes before the longer string |
| `JavaStrings.LexLeIsCompareTo` | src/main/java/edu/trinity/got/InMemoryMemberDAO.java:56 | at the first index where the strings differ, the smaller character decides; when no index within both differs, the shorter string comes first |
| `JavaStrings.StartsWith` | src/main/java/edu/trinity/got/InMemoryMemberDAO.java:44 | `name.startsWith(prefix)`: the prefix is no longer than the name and equals its first characters |
| `JavaStrings.StartsWithIsConcatenation` | src/main/java/edu/trinity/got/InMemoryMemberDAO.java:44 | a string starts with a prefix iff it is that prefix followed by some rest |
| `JavaStrings.Join` | src/main/java/edu/trinity/got/InMemoryMemberDAO.java:181-182 | the text left after the trailing separator is cut: the names separated by the separator, none after the last |
| `JavaStrings.Terminated` | src/main/java/edu/trinity/got/InMemoryMemberDAO.java:180 | the builder after `append(name).append(sep)` for each name in order |
| `StableSort.Insert` | src/main/java/edu/trinity/got/InMemoryMemberDAO.java:56 | one insertion step of the stable sort: the element goes before the first element it is less than or equal to, so after every strictly smaller element and before every equal one |
| `StableSort.SortBy` | src/main/java/edu/trinity/got/InMemoryMemberDAO.java:77-78 | `Stream.sorted(c)` for a comparator given as `compare <= 0`: insert the head into the sorted tail |
| `Comparators.IdLe` | src/main/java/edu/trinity/got/InMemoryMemberDAO.java:45 | `Comparator.comparingLong(Member::id)`: ascending id |
| `Comparators.NameLe` | src/main/java/edu/trinity/got/InMemoryMemberDAO.java:56 | `Comparator.comparing(Member::name)`: names in `compareTo` order |
| `Comparators.NameDescLe` | src/main/java/edu/trinity/got/InMemoryMemberDAO.java:100 | `comparing(Member::name).reversed()`: names in reversed `compareTo` order |
| `Comparators.HouseLe` | src/main/java/edu/trinity/got/InMemoryMemberDAO.java:67 | `Comparator.comparing(Member::house)`: house ordinal order (`Enum.compareTo`) |
| `Comparators.DobLe` | src/main/java/edu/trinity/got/InMemoryMemberDAO.java:89 | `Comparator.comparing(Member::dob)`: dates of birth ascending |
| `Streams.Matches` | src/main/java/edu/trinity/got/InMemoryMemberDAO.java:14-206 | the filter lambdas: `HasId` (line 14), `HasName` (21), `InHouse` (28, 55, 88, 122, 145, 156, 219, 233), `NameStartsWith` (44), `SalaryBelow` (66), `HasTitle` (99), `Royal` (203) and `NotRoyal`, its negation (206) |

## Left out

- `averageSalary`, `avgNameLenOfHouse`, `houseStats` and `salariesGreaterThan` are not modelled. They are built on `DoubleSummaryStatistics`: double division, NaN for an empty input, and infinite min/max for an empty group.
- The singleton load `MemberDB.getInstance().getAllMembers()` is not modelled. The snapshot is the parameter `all` of every query.
- Salaries are integers, not `double`s, and so is the threshold `max` of `SalaryLessThanAndSortByHouse`. For an integer salary, `salary < t` holds exactly when `salary` is below the ceiling of `t`, so an integer threshold loses no case. NaN, infinities and rounding are not modelled in `SalaryLessThanAndSortByHouse` or `HighestSalary`.
- FindById, FindByName: `findAny` may return any match. The model returns the first match, and its contract promises only some match.
- `String.compareTo` compares UTF-16 code units. A Dafny `char` is a Unicode scalar value, so strings with characters outside the Basic Multilingual Plane may compare differently.
- `HashMap` hashing and iteration order are not modelled, nor the identity of the `Optional`, `List` and `Map` objects. Maps are Dafny `map`s, and lists are sequences compared by value.
- `null` arguments are not modelled: `findById(null)` and `findByName(null)` return empty in Java.
- The sort's running time is not modelled. The model sorts by insertion, and `StableSortUnique` shows its result equals the library's stable merge sort.
