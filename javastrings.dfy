/**
 * The pieces of java.lang.String and java.lang.StringBuilder the query layer uses:
 * `compareTo` (lexicographic by character code), `startsWith`, and the names joined
 * with a separator.
 */
module JavaStrings {

  /**
   * `a.compareTo(b) <= 0`: compare character by character; at the first difference the
   * smaller character wins, and a proper prefix comes before the longer string.
   */
  predicate LexLe(a: string, b: string)
    decreases |a|
  {
    if a == [] then true
    else if b == [] then false
    else if a[0] != b[0] then a[0] < b[0]
    else LexLe(a[1..], b[1..])
  }

  /**
   * The two cases of `compareTo`: at the first index where the strings differ the smaller
   * character decides, and when one string is a prefix of the other the shorter comes first.
   */
  lemma {:induction false} LexLeIsCompareTo(a: string, b: string)
    ensures (forall k :: 0 <= k < |a| && k < |b| ==> a[k] == b[k]) ==> (LexLe(a, b) <==> |a| <= |b|)
    ensures forall k :: 0 <= k < |a| && k < |b| && a[..k] == b[..k] && a[k] != b[k] ==>
      (LexLe(a, b) <==> a[k] < b[k])
    decreases |a|
  {
    if a != [] && b != [] {
      forall k | 0 < k <= |a| && k <= |b| && a[..k] == b[..k]
        ensures a[0] == b[0]
      {
        assert a[0] == a[..k][0] && b[0] == b[..k][0];
      }
      if a[0] == b[0] {
        LexLeIsCompareTo(a[1..], b[1..]);
        forall k | 0 <= k < |a| && k < |b| && a[..k] == b[..k] && a[k] != b[k]
          ensures LexLe(a, b) <==> a[k] < b[k]
        {
          assert a[1..][..k - 1] == a[1..k] == a[..k][1..];
          assert b[1..][..k - 1] == b[1..k] == b[..k][1..];
          assert a[1..][k - 1] == a[k] && b[1..][k - 1] == b[k];
        }
        if forall k :: 0 <= k < |a| && k < |b| ==> a[k] == b[k] {
          assert forall k :: 0 <= k < |a[1..]| && k < |b[1..]| ==> a[1..][k] == b[1..][k];
        }
      }
    }
  }

  lemma {:induction false} LexLeReflexive(a: string)
    ensures LexLe(a, a)
    decreases |a|
  {
    if a != [] {
      LexLeReflexive(a[1..]);
    }
  }

  lemma {:induction false} LexLeTotal(a: string, b: string)
    ensures LexLe(a, b) || LexLe(b, a)
    decreases |a|
  {
    if a != [] && b != [] && a[0] == b[0] {
      LexLeTotal(a[1..], b[1..]);
    }
  }

  lemma {:induction false} LexLeTransitive(a: string, b: string, c: string)
    requires LexLe(a, b) && LexLe(b, c)
    ensures LexLe(a, c)
    decreases |a|
  {
    if a != [] && b != [] && c != [] && a[0] == b[0] && b[0] == c[0] {
      LexLeTransitive(a[1..], b[1..], c[1..]);
    }
  }

  lemma {:induction false} LexLeAntisymmetric(a: string, b: string)
    requires LexLe(a, b) && LexLe(b, a)
    ensures a == b
    decreases |a|
  {
    if a != [] && b != [] {
      LexLeAntisymmetric(a[1..], b[1..]);
      assert a == [a[0]] + a[1..];
      assert b == [b[0]] + b[1..];
    }
  }

  /** `s.startsWith(prefix)`. */
  predicate StartsWith(s: string, prefix: string) {
    |prefix| <= |s| && s[..|prefix|] == prefix
  }

  /** `s.startsWith(prefix)` holds exactly when `s` is `prefix` followed by some rest. */
  lemma StartsWithIsConcatenation(s: string, prefix: string)
    ensures StartsWith(s, prefix) <==> exists rest :: s == prefix + rest
  {
    if StartsWith(s, prefix) {
      assert s == prefix + s[|prefix|..];
    }
    forall rest | s == prefix + rest
      ensures StartsWith(s, prefix)
    {
      assert s[..|prefix|] == prefix;
    }
  }

  /** The names separated by `sep`, with no separator after the last one. */
  function Join(names: seq<string>, sep: string): string
    decreases |names|
  {
    if names == [] then ""
    else if |names| == 1 then names[0]
    else names[0] + sep + Join(names[1..], sep)
  }

  /** What a StringBuilder holds after `append(n).append(sep)` for every name n in turn. */
  function Terminated(names: seq<string>, sep: string): string
    decreases |names|
  {
    if names == [] then "" else names[0] + sep + Terminated(names[1..], sep)
  }

  /** Appending one more name and separator to the builder. */
  lemma {:induction false} TerminatedSnoc(names: seq<string>, n: string, sep: string)
    ensures Terminated(names + [n], sep) == Terminated(names, sep) + n + sep
    decreases |names|
  {
    if names == [] {
      assert Terminated([n], sep) == n + sep + Terminated([], sep);
    } else {
      assert (names + [n])[1..] == names[1..] + [n];
      TerminatedSnoc(names[1..], n, sep);
    }
  }

  /**
   * For at least one name the builder holds the joined names followed by one separator,
   * so cutting `|sep|` characters off its end leaves exactly the joined names.
   */
  lemma {:induction false} TerminatedIsJoinThenSep(names: seq<string>, sep: string)
    requires names != []
    ensures Terminated(names, sep) == Join(names, sep) + sep
    decreases |names|
  {
    if |names| > 1 {
      TerminatedIsJoinThenSep(names[1..], sep);
    }
  }

  /** The total length of some names. */
  function TotalLength(names: seq<string>): nat
    decreases |names|
  {
    if names == [] then 0 else |names[0]| + TotalLength(names[1..])
  }

  /** A join of k names holds every character of the names and exactly k - 1 separators. */
  lemma {:induction false} JoinLength(names: seq<string>, sep: string)
    requires names != []
    ensures |Join(names, sep)| == TotalLength(names) + (|names| - 1) * |sep|
    decreases |names|
  {
    if |names| > 1 {
      JoinLength(names[1..], sep);
    }
  }

  /** A join starts with the first name and ends with the last name: no trailing separator. */
  lemma {:induction false} JoinEnds(names: seq<string>, sep: string)
    requires names != []
    ensures |names[0]| <= |Join(names, sep)| && Join(names, sep)[..|names[0]|] == names[0]
    ensures |names[|names| - 1]| <= |Join(names, sep)|
    ensures Join(names, sep)[|Join(names, sep)| - |names[|names| - 1]|..] == names[|names| - 1]
    decreases |names|
  {
    if |names| > 1 {
      JoinEnds(names[1..], sep);
      var j := Join(names, sep);
      var rest := Join(names[1..], sep);
      var last := names[|names| - 1];
      assert j == names[0] + sep + rest;
      assert names[1..][|names[1..]| - 1] == last;
      assert j[|j| - |last|..] == rest[|rest| - |last|..];
    }
  }
}
