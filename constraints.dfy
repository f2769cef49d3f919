/**
 * A foreign-key constraint as read from the catalog, and the order in which
 * the tool visits constraints (ForeignKeyConstraint.compareTo): larger row
 * count first when both counts are known, then table, column and
 * constraint name in ascending string order.
 */
module Constraints {
  import opened Wrappers
  import opened JavaStrings

  /** One constraint row; `tuples` stays None until a row-count estimate is attached. */
  datatype ForeignKeyConstraint = ForeignKeyConstraint(
    tableName: string,
    columnName: string,
    constraintName: string,
    tuples: Option<int>)

  /** `Long.compare(x, y)` */
  function CompareLongs(x: int, y: int): int {
    if x < y then -1 else if x == y then 0 else 1
  }

  /** `a.compareTo(b)` */
  function Compare(a: ForeignKeyConstraint, b: ForeignKeyConstraint): int {
    var byTuples :=
      if a.tuples.Some? && b.tuples.Some? then CompareLongs(b.tuples.value, a.tuples.value) else 0;
    if byTuples != 0 then byTuples
    else
      var byTable := CompareStrings(a.tableName, b.tableName);
      if byTable != 0 then byTable
      else
        var byColumn := CompareStrings(a.columnName, b.columnName);
        if byColumn != 0 then byColumn
        else CompareStrings(a.constraintName, b.constraintName)
  }

  predicate HasTuples(fk: ForeignKeyConstraint) {
    fk.tuples.Some?
  }

  /** `a` ranks strictly before `b`: it has more rows, or as many and smaller names */
  lemma RankedByTuplesFirst(a: ForeignKeyConstraint, b: ForeignKeyConstraint)
    requires HasTuples(a) && HasTuples(b)
    ensures a.tuples.value > b.tuples.value ==> Compare(a, b) < 0
    ensures a.tuples.value < b.tuples.value ==> Compare(a, b) > 0
    ensures a.tuples == b.tuples && CompareStrings(a.tableName, b.tableName) < 0 ==> Compare(a, b) < 0
  {
  }

  /** Without both counts, only the names decide */
  lemma UnknownTuplesCompareByNames(a: ForeignKeyConstraint, b: ForeignKeyConstraint)
    requires !HasTuples(a) || !HasTuples(b)
    ensures Compare(a, b) == Compare(a.(tuples := None), b.(tuples := None))
  {
  }

  /** Swapping the operands negates the comparison, whatever counts are known */
  lemma {:induction false} CompareAntisymmetric(a: ForeignKeyConstraint, b: ForeignKeyConstraint)
    ensures Compare(a, b) == -Compare(b, a)
  {
    CompareStringsAntisymmetric(a.tableName, b.tableName);
    CompareStringsAntisymmetric(a.columnName, b.columnName);
    CompareStringsAntisymmetric(a.constraintName, b.constraintName);
  }

  /**
   * The comparison is zero exactly when the names agree and, if both counts
   * are known, the counts agree too; with both counts known it is zero only
   * on equal constraints.
   */
  lemma {:induction false} CompareZero(a: ForeignKeyConstraint, b: ForeignKeyConstraint)
    ensures Compare(a, b) == 0 <==>
      a.tableName == b.tableName && a.columnName == b.columnName &&
      a.constraintName == b.constraintName &&
      (HasTuples(a) && HasTuples(b) ==> a.tuples == b.tuples)
    ensures HasTuples(a) && HasTuples(b) ==> (Compare(a, b) == 0 <==> a == b)
  {
    CompareStringsZero(a.tableName, b.tableName);
    CompareStringsZero(a.columnName, b.columnName);
    CompareStringsZero(a.constraintName, b.constraintName);
  }

  /** With every count known the comparison is transitive */
  lemma {:induction false} CompareTransitive(a: ForeignKeyConstraint, b: ForeignKeyConstraint, c: ForeignKeyConstraint)
    requires HasTuples(a) && HasTuples(b) && HasTuples(c)
    requires Compare(a, b) <= 0 && Compare(b, c) <= 0
    ensures Compare(a, c) <= 0
  {
    CompareStringsTransitive(a.tableName, b.tableName, c.tableName);
    CompareStringsTransitive(a.columnName, b.columnName, c.columnName);
    CompareStringsTransitive(a.constraintName, b.constraintName, c.constraintName);
    CompareStringsZero(a.tableName, b.tableName);
    CompareStringsZero(b.tableName, c.tableName);
    CompareStringsZero(a.columnName, b.columnName);
    CompareStringsZero(b.columnName, c.columnName);
  }

  /**
   * When known and unknown counts are mixed the comparison is not
   * transitive: these three constraints each rank before the next, and the
   * last before the first.
   */
  lemma MixedTuplesCycle()
    ensures
      var x := ForeignKeyConstraint("a", "id", "a_fkey", Some(1));
      var y := ForeignKeyConstraint("b", "id", "b_fkey", None);
      var z := ForeignKeyConstraint("c", "id", "c_fkey", Some(2));
      Compare(x, y) < 0 && Compare(y, z) < 0 && Compare(z, x) < 0
  {
  }

  /** Every pair of entries is in order */
  ghost predicate Sorted(s: seq<ForeignKeyConstraint>) {
    forall i, j :: 0 <= i < j < |s| ==> Compare(s[i], s[j]) <= 0
  }

  ghost predicate AllHaveTuples(s: seq<ForeignKeyConstraint>) {
    forall fk :: fk in s ==> HasTuples(fk)
  }

  /** `x` put before the first entry it does not rank after */
  function Insert(x: ForeignKeyConstraint, s: seq<ForeignKeyConstraint>): (r: seq<ForeignKeyConstraint>)
    ensures multiset(r) == multiset(s) + multiset{x}
  {
    if s == [] then [x]
    else if Compare(x, s[0]) <= 0 then [x] + s
    else
      assert s == [s[0]] + s[1..];
      [s[0]] + Insert(x, s[1..])
  }

  /**
   * The order the constraints are visited in. The tool hands the list to
   * Collections.sort; this insertion sort stands for it and is stated only
   * as what that call promises: a permutation, sorted when every count is
   * known.
   */
  function Sort(s: seq<ForeignKeyConstraint>): (r: seq<ForeignKeyConstraint>)
    ensures multiset(r) == multiset(s)
  {
    if s == [] then []
    else
      assert s == [s[0]] + s[1..];
      Insert(s[0], Sort(s[1..]))
  }

  /** Putting in front an entry that ranks before every entry keeps a list sorted */
  lemma SortedCons(y: ForeignKeyConstraint, r: seq<ForeignKeyConstraint>)
    requires Sorted(r)
    requires forall k :: 0 <= k < |r| ==> Compare(y, r[k]) <= 0
    ensures Sorted([y] + r)
  {
    var yr := [y] + r;
    forall i, j | 0 <= i < j < |yr| ensures Compare(yr[i], yr[j]) <= 0 {
      assert yr[j] == r[j - 1];
      if i > 0 {
        assert yr[i] == r[i - 1];
      }
    }
  }

  lemma {:induction false} InsertSorted(x: ForeignKeyConstraint, s: seq<ForeignKeyConstraint>)
    requires Sorted(s) && AllHaveTuples(s) && HasTuples(x)
    ensures Sorted(Insert(x, s))
  {
    if s == [] {
    } else if Compare(x, s[0]) <= 0 {
      forall k | 0 <= k < |s| ensures Compare(x, s[k]) <= 0 {
        if k > 0 {
          CompareTransitive(x, s[0], s[k]);
        }
      }
      SortedCons(x, s);
    } else {
      var t := s[1..];
      assert AllHaveTuples(t) by {
        forall fk | fk in t ensures HasTuples(fk) {
          assert fk in s;
        }
      }
      InsertSorted(x, t);
      var ins := Insert(x, t);
      CompareAntisymmetric(x, s[0]);
      forall k | 0 <= k < |ins| ensures Compare(s[0], ins[k]) <= 0 {
        assert ins[k] in multiset(ins);
        if ins[k] != x {
          assert ins[k] in t;
          var j :| 0 <= j < |t| && t[j] == ins[k];
          assert s[j + 1] == ins[k];
        }
      }
      SortedCons(s[0], ins);
    }
  }

  /** With every count known, the visiting order is sorted */
  lemma {:induction false} SortSorted(s: seq<ForeignKeyConstraint>)
    requires AllHaveTuples(s)
    ensures Sorted(Sort(s))
  {
    if s != [] {
      var t := s[1..];
      assert AllHaveTuples(t) by {
        forall fk | fk in t ensures HasTuples(fk) {
          assert fk in s;
        }
      }
      SortSorted(t);
      var st := Sort(t);
      assert AllHaveTuples(st) by {
        forall fk | fk in st ensures HasTuples(fk) {
          assert fk in multiset(st);
          assert fk in t;
        }
      }
      InsertSorted(s[0], st);
    }
  }

  /** Row counts 500, 9000, 9000 on tables b, a, a: both 9000-row entries come first, table a before b */
  lemma RankingExample()
    ensures
      var p := ForeignKeyConstraint("b", "id", "b_id_fkey", Some(500));
      var q := ForeignKeyConstraint("a", "id", "a_id_fkey", Some(9000));
      var r := ForeignKeyConstraint("a", "ref", "a_ref_fkey", Some(9000));
      Sort([p, q, r]) == [q, r, p]
  {
    var p := ForeignKeyConstraint("b", "id", "b_id_fkey", Some(500));
    var q := ForeignKeyConstraint("a", "id", "a_id_fkey", Some(9000));
    var r := ForeignKeyConstraint("a", "ref", "a_ref_fkey", Some(9000));
    assert CompareStrings(q.columnName, r.columnName) < 0;
    assert Compare(q, r) < 0 && Compare(p, q) > 0 && Compare(p, r) > 0;
    assert Sort([r]) == [r];
    assert [q, r][1..] == [r];
    assert Sort([q, r]) == Insert(q, [r]) == [q, r];
    assert Insert(p, [r]) == [r, p];
    assert Insert(p, [q, r]) == [q, r, p];
    assert [p, q, r][1..] == [q, r];
  }
}
