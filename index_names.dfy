/**
 * How the tool names the index it creates for a foreign-key constraint:
 * "fki_" is put in front of the constraint name and the result is cut
 * where the last "_fkey" in it begins, provided that position is above zero.
 */
module IndexNames {
  import opened JavaStrings

  const IndexPrefix := "fki_"
  const ConstraintSuffix := "_fkey"

  /** The index name derived from a constraint name */
  function IndexName(constraintName: string): (r: string)
    // the result starts with "fki" and is a prefix of the prefixed name
    ensures StartsWith(r, "fki")
    ensures StartsWith(IndexPrefix + constraintName, r)
    // it is cut exactly when "_fkey" occurs in the prefixed name ...
    ensures r == IndexPrefix + constraintName <==>
      forall i :: !OccursAt(IndexPrefix + constraintName, ConstraintSuffix, i)
    // ... and then right before the last occurrence
    ensures r != IndexPrefix + constraintName ==>
      OccursAt(IndexPrefix + constraintName, ConstraintSuffix, |r|) &&
      forall i :: |r| < i ==> !OccursAt(IndexPrefix + constraintName, ConstraintSuffix, i)
  {
    var name := IndexPrefix + constraintName;
    var at := LastIndexOf(name, ConstraintSuffix);
    NoSuffixInPrefix(constraintName);
    if at > 0 then name[..at] else name
  }

  /**
   * "_fkey" cannot begin at any of the first three positions of a name that
   * starts with "fki_", so the guard `> 0` never holds back a cut.
   */
  lemma NoSuffixInPrefix(constraintName: string)
    ensures forall i :: 0 <= i < 3 ==> !OccursAt(IndexPrefix + constraintName, ConstraintSuffix, i)
    ensures LastIndexOf(IndexPrefix + constraintName, ConstraintSuffix) != 0
  {
    var name := IndexPrefix + constraintName;
    assert name[0] == 'f' && name[1] == 'k' && name[2] == 'i';
    forall i | 0 <= i < 3 ensures !OccursAt(name, ConstraintSuffix, i) {
    }
  }

  /** An occurrence begins with the pattern's first two characters */
  lemma OccursAtStartsWith(s: string, p: string, i: int)
    requires |p| >= 2
    ensures OccursAt(s, p, i) ==> s[i] == p[0] && s[i + 1] == p[1]
  {
    if OccursAt(s, p, i) {
      assert s[i..i + |p|][0] == s[i] && s[i..i + |p|][1] == s[i + 1];
    }
  }

  /**
   * A constraint name made of a base, "_fkey" and a tail without '_' (such
   * as the digits PostgreSQL appends to tell clashing names apart) loses
   * the "_fkey" and the tail.
   */
  lemma SuffixIsCut(base: string, tail: string)
    requires '_' !in tail
    ensures IndexName(base + ConstraintSuffix + tail) == IndexPrefix + base
  {
    var n := IndexPrefix + (base + ConstraintSuffix + tail);
    var at := |IndexPrefix + base|;
    assert n == (IndexPrefix + base) + ConstraintSuffix + tail;
    assert OccursAt(n, ConstraintSuffix, at);
    forall i | at < i ensures !OccursAt(n, ConstraintSuffix, i) {
      OccursAtStartsWith(n, ConstraintSuffix, i);
      if i < at + |ConstraintSuffix| {
        assert n[i] == ConstraintSuffix[i - at];
      } else if i < |n| {
        assert n[i] == tail[i - at - |ConstraintSuffix|];
      }
    }
    assert n[..at] == IndexPrefix + base;
  }

  /** A conventional constraint name loses its "_fkey" suffix */
  lemma ConventionalNameIsCut(base: string)
    ensures IndexName(base + ConstraintSuffix) == IndexPrefix + base
  {
    SuffixIsCut(base, "");
    assert base + ConstraintSuffix + "" == base + ConstraintSuffix;
  }

  /** A name without "_fkey" is kept whole */
  lemma UnconventionalNameIsKept()
    ensures IndexName("custom_constraint") == "fki_custom_constraint"
  {
    var n := "fki_custom_constraint";
    assert IndexPrefix + "custom_constraint" == n;
    forall i | 0 <= i < |n| - 1 ensures n[i] != '_' || n[i + 1] != 'f' {
    }
    forall i ensures !OccursAt(n, ConstraintSuffix, i) {
      OccursAtStartsWith(n, ConstraintSuffix, i);
    }
  }

  /** "x_fkey" and a numbered "x_fkey1", "x_fkey2", ... lead to the same index name */
  lemma NumberedConstraintsShareName(base: string, digits: string)
    requires '_' !in digits
    ensures IndexName(base + ConstraintSuffix + digits) == IndexName(base + ConstraintSuffix) == IndexPrefix + base
  {
    SuffixIsCut(base, digits);
    ConventionalNameIsCut(base);
  }

  /** A cut may land on the underscore of the prefix itself */
  lemma CutInsidePrefix()
    ensures IndexName("fkey") == "fki"
  {
    assert OccursAt("fki_fkey", ConstraintSuffix, 3);
  }
}
