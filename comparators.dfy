/**
 * The comparators the queries sort with, as "compares <= 0" relations on members, and
 * the proof that each is a consistent comparator (a total preorder).
 */
module Comparators {
  import opened Got
  import opened JavaStrings
  import opened StableSort

  /** `Comparator.comparingLong(Member::id)`. */
  predicate IdLe(a: Member, b: Member) { a.id <= b.id }

  /** `Comparator.comparing(Member::name)`: `String.compareTo` on the names. */
  predicate NameLe(a: Member, b: Member) { LexLe(a.name, b.name) }

  /** `Comparator.comparing(Member::name).reversed()`. */
  predicate NameDescLe(a: Member, b: Member) { LexLe(b.name, a.name) }

  /** `Comparator.comparing(Member::house)`: enum constants compare by ordinal. */
  predicate HouseLe(a: Member, b: Member) { Ordinal(a.house) <= Ordinal(b.house) }

  /** `Comparator.comparing(Member::dob)`: chronological order of the dates. */
  predicate DobLe(a: Member, b: Member) { a.dob <= b.dob }

  /** `String.compareTo` is a total order on strings. */
  lemma LexLeIsTotalPreorder()
    ensures TotalPreorder(LexLe)
  {
    forall a: string, b: string
      ensures LexLe(a, b) || LexLe(b, a)
    {
      LexLeTotal(a, b);
    }
    forall a: string, b: string, c: string | LexLe(a, b) && LexLe(b, c)
      ensures LexLe(a, c)
    {
      LexLeTransitive(a, b, c);
    }
  }

  /** Every comparator the queries use is consistent, so the stable-sort lemmas apply to each. */
  lemma ComparatorsArePreorders()
    ensures TotalPreorder(IdLe) && TotalPreorder(HouseLe) && TotalPreorder(DobLe)
    ensures TotalPreorder(NameLe) && TotalPreorder(NameDescLe) && TotalPreorder(LexLe)
  {
    LexLeIsTotalPreorder();
    forall a: Member, b: Member
      ensures NameLe(a, b) || NameLe(b, a)
    {
      LexLeTotal(a.name, b.name);
    }
    forall a: Member, b: Member, c: Member | NameLe(a, b) && NameLe(b, c)
      ensures NameLe(a, c)
    {
      LexLeTransitive(a.name, b.name, c.name);
    }
    forall a: Member, b: Member, c: Member | NameDescLe(a, b) && NameDescLe(b, c)
      ensures NameDescLe(a, c)
    {
      LexLeTransitive(c.name, b.name, a.name);
    }
  }

  /** Two members tie under the name comparator exactly when their names are equal. */
  lemma NameTiesAreEqualNames(a: Member, b: Member)
    ensures NameLe(a, b) && NameLe(b, a) <==> a.name == b.name
    ensures NameDescLe(a, b) && NameDescLe(b, a) <==> a.name == b.name
  {
    if a.name == b.name {
      LexLeReflexive(a.name);
    }
    if NameLe(a, b) && NameLe(b, a) {
      LexLeAntisymmetric(a.name, b.name);
    }
  }
}
