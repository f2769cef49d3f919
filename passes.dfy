/**
 * What one reconciliation does to the set of relation names in schema
 * public, stated as functions of that set: the loop over the sorted
 * constraints, the loop over the override map, and the facts the tool's
 * behaviour rests on (threshold, first name wins, a second run is quiet).
 */
module Passes {
  import opened Wrappers
  import opened IndexNames
  import opened Constraints
  import opened Overrides

  /** One DDL statement the tool issued, and whether it went through */
  datatype Event =
    | Dropped(name: string)
    | Created(name: string, tableName: string, columnName: string)
    | CreateFailed(name: string, tableName: string, columnName: string)

  /** The exceptions that end the constraint loop */
  datatype Abort =
    | NullTuples(constraintName: string)  // a missing row count unboxed in the threshold test
    | CreateRejected(name: string)        // a CREATE INDEX for a constraint failed

  /** The relation names after a loop, the statements it issued, and the exception that ended it, if any */
  datatype Pass = Pass(relations: set<string>, events: seq<Event>, abort: Option<Abort>)

  /**
   * Whether the database refuses CREATE INDEX name ON public.table (column)
   * for a reason other than the name being taken (no such table or column,
   * a null column, ...).
   */
  type Rejects = (string, string, string) -> bool

  /** The names the successful creates in `events` introduced */
  ghost function CreatedNames(events: seq<Event>): set<string> {
    set e | e in events && e.Created? :: e.name
  }

  /** No two statements are about the same name */
  ghost predicate DistinctNames(events: seq<Event>) {
    forall i, j :: 0 <= i < j < |events| ==> events[i].name != events[j].name
  }

  /** The count is known and reaches the threshold */
  predicate Eligible(fk: ForeignKeyConstraint, minTuples: int) {
    fk.tuples.Some? && fk.tuples.value >= minTuples
  }

  /** Every constraint has a count, and every eligible one's index name is among `rels` */
  ghost predicate Covered(order: seq<ForeignKeyConstraint>, minTuples: int, rels: set<string>) {
    forall fk :: fk in order ==>
      fk.tuples.Some? && (Eligible(fk, minTuples) ==> IndexName(fk.constraintName) in rels)
  }

  /**
   * The loop over the sorted constraints, starting from the relation names
   * `rels`. A missing count raises at once; an eligible constraint whose
   * index name is not yet a relation gets a CREATE INDEX, which adds the
   * name for every later existence check or, when refused, ends the loop.
   */
  function ConstraintPass(order: seq<ForeignKeyConstraint>, minTuples: int, rels: set<string>, rejects: Rejects): (p: Pass)
    ensures rels <= p.relations
    ensures forall e :: e in p.events ==> !e.Dropped? && e.name !in rels
    decreases |order|
  {
    if order == [] then Pass(rels, [], None)
    else
      var fk := order[0];
      var name := IndexName(fk.constraintName);
      if fk.tuples.None? then Pass(rels, [], Some(NullTuples(fk.constraintName)))
      else if fk.tuples.value >= minTuples && name !in rels then
        if rejects(name, fk.tableName, fk.columnName) then
          Pass(rels, [CreateFailed(name, fk.tableName, fk.columnName)], Some(CreateRejected(name)))
        else
          var rest := ConstraintPass(order[1..], minTuples, rels + {name}, rejects);
          Pass(rest.relations, [Created(name, fk.tableName, fk.columnName)] + rest.events, rest.abort)
      else ConstraintPass(order[1..], minTuples, rels, rejects)
  }

  /** What one turn of that loop does with one constraint */
  function ConstraintStep(fk: ForeignKeyConstraint, minTuples: int, rels: set<string>, rejects: Rejects): (s: Pass)
    ensures rels <= s.relations
  {
    var name := IndexName(fk.constraintName);
    if fk.tuples.None? then Pass(rels, [], Some(NullTuples(fk.constraintName)))
    else if fk.tuples.value >= minTuples && name !in rels then
      if rejects(name, fk.tableName, fk.columnName) then
        Pass(rels, [CreateFailed(name, fk.tableName, fk.columnName)], Some(CreateRejected(name)))
      else Pass(rels + {name}, [Created(name, fk.tableName, fk.columnName)], None)
    else Pass(rels, [], None)
  }

  /** The names the loop adds are exactly those of its successful creates */
  lemma {:induction false} PassAddsCreated(order: seq<ForeignKeyConstraint>, minTuples: int, rels: set<string>, rejects: Rejects)
    ensures var p := ConstraintPass(order, minTuples, rels, rejects);
      p.relations == rels + CreatedNames(p.events)
    decreases |order|
  {
    if order != [] {
      var fk := order[0];
      var name := IndexName(fk.constraintName);
      if fk.tuples.Some? && fk.tuples.value >= minTuples && name !in rels {
        if !rejects(name, fk.tableName, fk.columnName) {
          PassAddsCreated(order[1..], minTuples, rels + {name}, rejects);
          var r := ConstraintPass(order[1..], minTuples, rels + {name}, rejects);
          assert CreatedNames([Created(name, fk.tableName, fk.columnName)] + r.events) == {name} + CreatedNames(r.events);
        }
      } else if fk.tuples.Some? {
        PassAddsCreated(order[1..], minTuples, rels, rejects);
      }
    }
  }

  /** No two statements of the loop are about the same name */
  lemma {:induction false} PassDistinct(order: seq<ForeignKeyConstraint>, minTuples: int, rels: set<string>, rejects: Rejects)
    ensures DistinctNames(ConstraintPass(order, minTuples, rels, rejects).events)
    decreases |order|
  {
    if order != [] {
      var fk := order[0];
      var name := IndexName(fk.constraintName);
      if fk.tuples.Some? && fk.tuples.value >= minTuples && name !in rels {
        if !rejects(name, fk.tableName, fk.columnName) {
          PassDistinct(order[1..], minTuples, rels + {name}, rejects);
          var r := ConstraintPass(order[1..], minTuples, rels + {name}, rejects);
          var events := [Created(name, fk.tableName, fk.columnName)] + r.events;
          forall i, j | 0 <= i < j < |events| ensures events[i].name != events[j].name {
            assert events[j] == r.events[j - 1];
            if i > 0 {
              assert events[i] == r.events[i - 1];
            } else {
              assert r.events[j - 1] in r.events;
            }
          }
        }
      } else if fk.tuples.Some? {
        PassDistinct(order[1..], minTuples, rels, rejects);
      }
    }
  }

  /** When the loop completes, every constraint had a count and every eligible index name exists */
  lemma {:induction false} PassCovers(order: seq<ForeignKeyConstraint>, minTuples: int, rels: set<string>, rejects: Rejects)
    ensures var p := ConstraintPass(order, minTuples, rels, rejects);
      p.abort.None? ==> Covered(order, minTuples, p.relations)
    decreases |order|
  {
    if order != [] {
      var fk := order[0];
      var name := IndexName(fk.constraintName);
      if fk.tuples.Some? {
        var rels' := if fk.tuples.value >= minTuples && name !in rels then rels + {name} else rels;
        PassCovers(order[1..], minTuples, rels', rejects);
        forall x | x in order ensures x in order[1..] || x == fk {
          if x != fk {
            var i :| 0 <= i < |order| && order[i] == x;
            assert order[1..][i - 1] == x;
          }
        }
      }
    }
  }

  /** The overrides a pass over the override map creates: absent names the database accepts, whatever the row counts */
  ghost function OverridesCreated(indexMap: IndexMap, rels: set<string>, rejects: Rejects): set<string> {
    set k | k in indexMap && k !in rels && !rejects(k, indexMap[k].0, indexMap[k].1)
  }

  /** The overrides a pass over the override map attempts: those whose name is not a relation */
  ghost function OverridesAttempted(indexMap: IndexMap, rels: set<string>): set<string> {
    set k | k in indexMap && k !in rels
  }

  /** The CREATE INDEX for one override, failed when the database refuses it */
  function OverrideStatement(name: string, tableName: string, columnName: string, rejects: Rejects): Event {
    if rejects(name, tableName, columnName) then CreateFailed(name, tableName, columnName)
    else Created(name, tableName, columnName)
  }

  /** The statements issued for the override names `names`, in that order */
  ghost function OverrideEvents(names: seq<string>, indexMap: IndexMap, rejects: Rejects): seq<Event>
    requires forall n :: n in names ==> n in indexMap
  {
    if names == [] then []
    else
      var n := names[0];
      [OverrideStatement(n, indexMap[n].0, indexMap[n].1, rejects)] + OverrideEvents(names[1..], indexMap, rejects)
  }

  /** One statement per name, in order, none a drop, each succeeding exactly when the database accepts it */
  lemma {:induction false} OverrideEventsShape(names: seq<string>, indexMap: IndexMap, rejects: Rejects)
    requires forall n :: n in names ==> n in indexMap
    ensures var events := OverrideEvents(names, indexMap, rejects);
      |events| == |names| &&
      forall k :: 0 <= k < |names| ==>
        events[k].name == names[k] && !events[k].Dropped? &&
        (events[k].Created? <==> !rejects(names[k], indexMap[names[k]].0, indexMap[names[k]].1))
  {
    if names != [] {
      OverrideEventsShape(names[1..], indexMap, rejects);
    }
  }

  /** The relation names after the whole create phase */
  ghost function CreatePhase(order: seq<ForeignKeyConstraint>, minTuples: int, indexMap: IndexMap, rels: set<string>, rejects: Rejects): (p: Pass)
  {
    var c := ConstraintPass(order, minTuples, rels, rejects);
    if c.abort.Some? then c
    else Pass(c.relations + OverridesCreated(indexMap, c.relations, rejects), c.events, None)
  }

  /**
   * The threshold decides a constraint: an unknown count raises whatever
   * the catalog holds; a known count that reaches the threshold, for a name
   * that is not yet a relation, issues the CREATE INDEX; otherwise the
   * constraint is skipped and the loop goes on as if it were not there.
   */
  lemma ThresholdDecides(fk: ForeignKeyConstraint, rest: seq<ForeignKeyConstraint>, minTuples: int, rels: set<string>, rejects: Rejects)
    ensures var p := ConstraintPass([fk] + rest, minTuples, rels, rejects);
      var name := IndexName(fk.constraintName);
      (fk.tuples.None? ==> p == Pass(rels, [], Some(NullTuples(fk.constraintName)))) &&
      (fk.tuples.Some? && fk.tuples.value >= minTuples && name !in rels ==>
        |p.events| > 0 && p.events[0].name == name && !p.events[0].Dropped? &&
        (p.events[0].Created? <==> !rejects(name, fk.tableName, fk.columnName))) &&
      (fk.tuples.Some? && !(fk.tuples.value >= minTuples && name !in rels) ==>
        p == ConstraintPass(rest, minTuples, rels, rejects))
  {
    assert ([fk] + rest)[1..] == rest;
  }

  /** A count equal to the threshold is eligible, one below is skipped */
  lemma ThresholdBoundary(table: string, column: string, constraint: string, minTuples: int, rels: set<string>, rejects: Rejects)
    requires IndexName(constraint) !in rels && !rejects(IndexName(constraint), table, column)
    ensures IndexName(constraint) in
      ConstraintPass([ForeignKeyConstraint(table, column, constraint, Some(minTuples))], minTuples, rels, rejects).relations
    ensures ConstraintPass([ForeignKeyConstraint(table, column, constraint, Some(minTuples - 1))], minTuples, rels, rejects)
      == Pass(rels, [], None)
  {
  }

  /** Once every eligible name exists, the loop over the constraints issues nothing */
  lemma {:induction false} CoveredPassIsQuiet(order: seq<ForeignKeyConstraint>, minTuples: int, rels: set<string>, rejects: Rejects)
    requires Covered(order, minTuples, rels)
    ensures ConstraintPass(order, minTuples, rels, rejects) == Pass(rels, [], None)
    decreases |order|
  {
    if order != [] {
      assert Covered(order[1..], minTuples, rels) by {
        forall fk | fk in order[1..] ensures fk in order {
        }
      }
      CoveredPassIsQuiet(order[1..], minTuples, rels, rejects);
    }
  }

  /**
   * Of two constraints that share an index name, such as the rows of a
   * multi-column key or "x_fkey" and "x_fkey1", only the one visited first
   * creates the index; no later statement mentions that name.
   */
  lemma FirstOfSharedNameWins(
    first: ForeignKeyConstraint, between: seq<ForeignKeyConstraint>, second: ForeignKeyConstraint,
    rest: seq<ForeignKeyConstraint>, minTuples: int, rels: set<string>, rejects: Rejects)
    requires IndexName(first.constraintName) == IndexName(second.constraintName)
    requires Eligible(first, minTuples) && IndexName(first.constraintName) !in rels
    requires !rejects(IndexName(first.constraintName), first.tableName, first.columnName)
    ensures var p := ConstraintPass([first] + between + [second] + rest, minTuples, rels, rejects);
      var name := IndexName(first.constraintName);
      |p.events| > 0 && p.events[0] == Created(name, first.tableName, first.columnName) &&
      forall k :: 0 < k < |p.events| ==> p.events[k].name != name
  {
    var order := [first] + between + [second] + rest;
    assert order[0] == first;
  }

  /**
   * Running the create phase again on the relation names a completed run
   * left behind creates nothing: every constraint is skipped and every
   * override either exists or is refused again.
   */
  lemma CreatePhaseIdempotent(order: seq<ForeignKeyConstraint>, minTuples: int, indexMap: IndexMap, rels: set<string>, rejects: Rejects)
    requires CreatePhase(order, minTuples, indexMap, rels, rejects).abort.None?
    ensures var after := CreatePhase(order, minTuples, indexMap, rels, rejects).relations;
      CreatePhase(order, minTuples, indexMap, after, rejects) == Pass(after, [], None) &&
      OverridesAttempted(indexMap, after) <= OverridesAttempted(indexMap, rels) - OverridesCreated(indexMap, rels, rejects)
  {
    var c := ConstraintPass(order, minTuples, rels, rejects);
    PassAddsCreated(order, minTuples, rels, rejects);
    PassCovers(order, minTuples, rels, rejects);
    var after := CreatePhase(order, minTuples, indexMap, rels, rejects).relations;
    assert Covered(order, minTuples, after) by {
      forall fk | fk in order ensures fk.tuples.Some? && (Eligible(fk, minTuples) ==> IndexName(fk.constraintName) in after) {
      }
    }
    CoveredPassIsQuiet(order, minTuples, after, rejects);
    assert OverridesCreated(indexMap, after, rejects) == {};
  }
}
