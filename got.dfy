/**
 * The record and enumeration types the query layer reads: a member of a noble house
 * with an id, a name, a house, a title, a date of birth and a salary.
 */
module Got {

  /** The houses, in declaration order. */
  datatype House =
    | ARRYN | BARATHEON | BOLTON | FREY | GREYJOY | LANNISTER | MARTELL
    | MORMONT | SNOW | TARLY | STARK | TARGARYEN | TULLY | TYRELL

  /** The titles, in declaration order. */
  datatype Title = SIR | LORD | LADY | KING | QUEEN

  /**
   * A member record. The Java `Long` id is only compared, so it is an unbounded `int`;
   * the date of birth is a day number; the `double` salary is an integer that is only
   * compared.
   */
  datatype Member = Member(id: int, title: Title, name: string, dob: int, salary: int, house: House)

  /** `Enum.ordinal()`: the position of a house in its declaration. */
  function Ordinal(h: House): (n: nat)
    ensures n < |AllHouses()| && AllHouses()[n] == h
  {
    match h
    case ARRYN => 0
    case BARATHEON => 1
    case BOLTON => 2
    case FREY => 3
    case GREYJOY => 4
    case LANNISTER => 5
    case MARTELL => 6
    case MORMONT => 7
    case SNOW => 8
    case TARLY => 9
    case STARK => 10
    case TARGARYEN => 11
    case TULLY => 12
    case TYRELL => 13
  }

  /** `House.values()`: every house once, in declaration order. */
  function AllHouses(): (r: seq<House>)
    ensures |r| == 14
    ensures forall i, j :: 0 <= i < j < |r| ==> r[i] != r[j]
  {
    [ARRYN, BARATHEON, BOLTON, FREY, GREYJOY, LANNISTER, MARTELL,
     MORMONT, SNOW, TARLY, STARK, TARGARYEN, TULLY, TYRELL]
  }

  /** `House.values()` lists each house at its ordinal. */
  lemma AllHousesIndexed()
    ensures forall i :: 0 <= i < |AllHouses()| ==> Ordinal(AllHouses()[i]) == i
  {
  }

  /** Royalty: the KING and QUEEN titles and no others. */
  predicate IsRoyal(m: Member) {
    m.title == KING || m.title == QUEEN
  }
}
