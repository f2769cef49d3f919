/**
 * The database as the tool sees it, and the tool's reconciliation methods
 * (creasteFKIndices, hasIndex, deleteForeignKeyIndices). The catalog is
 * abstract: the relation names of schema public, the names the plain-index
 * query returns, the rows of the foreign-key query, the row-count estimate
 * per constraint name, and which CREATE INDEX statements the database
 * refuses. Every DDL statement issued is appended to `log`.
 */
module Catalog {
  import opened Wrappers
  import opened IndexNames
  import opened Constraints
  import opened Overrides
  import opened Passes

  /** One row of the foreign-key query: table, column, constraint name */
  datatype ConstraintRow = ConstraintRow(tableName: string, columnName: string, constraintName: string)

  /** The row-count estimate the count query yields for a constraint, if it yields a row */
  function TuplesOf(rowCounts: map<string, int>, constraintName: string): Option<int> {
    if constraintName in rowCounts then Some(rowCounts[constraintName]) else None
  }

  /** The constraints of `rows` with their counts attached */
  ghost function Collected(rows: seq<ConstraintRow>, rowCounts: map<string, int>): (fks: seq<ForeignKeyConstraint>)
    ensures |fks| == |rows|
  {
    seq(|rows|, i requires 0 <= i < |rows| =>
      ForeignKeyConstraint(rows[i].tableName, rows[i].columnName, rows[i].constraintName,
        TuplesOf(rowCounts, rows[i].constraintName)))
  }

  /** A constraint as the foreign-key query yields it, before its count is looked up */
  function Unattached(row: ConstraintRow): (fk: ForeignKeyConstraint)
    ensures fk.tuples.None?
  {
    ForeignKeyConstraint(row.tableName, row.columnName, row.constraintName, None)
  }

  /** `events` issued before a pass that yields `p` */
  function Prepend(events: seq<Event>, p: Pass): Pass {
    Pass(p.relations, events + p.events, p.abort)
  }

  /** The relation names the create phase starts from */
  function AfterDrop(dropIndices: bool, relations: set<string>, plainIndexes: set<string>): (rels: set<string>)
    ensures rels <= relations
  {
    if dropIndices then relations - plainIndexes else relations
  }

  /** Names in the order the drop loop met them, each once */
  ghost predicate Enumerates(names: seq<string>, s: set<string>) {
    (forall n :: n in names <==> n in s) &&
    (forall i, j :: 0 <= i < j < |names| ==> names[i] != names[j])
  }

  ghost function DropEvents(names: seq<string>): (events: seq<Event>)
    ensures |events| == |names|
    ensures forall i :: 0 <= i < |names| ==> events[i] == Dropped(names[i])
  {
    if names == [] then [] else [Dropped(names[0])] + DropEvents(names[1..])
  }

  lemma DropEventsAppend(names: seq<string>, i: nat)
    requires i < |names|
    ensures names[..i + 1] == names[..i] + [names[i]]
    ensures DropEvents(names[..i + 1]) == DropEvents(names[..i]) + [Dropped(names[i])]
  {
    assert names[..i + 1] == names[..i] + [names[i]];
  }

  class Database {
    /** Relation names in schema public: tables, indexes, sequences, ... */
    var relations: set<string>
    /** The names the plain-index query returns: indexes whose definition starts with CREATE INDEX */
    var plainIndexes: set<string>
    /** Every DDL statement issued so far */
    var log: seq<Event>
    const constraintRows: seq<ConstraintRow>
    const rowCounts: map<string, int>
    const rejects: Rejects

    ghost predicate Valid()
      reads this
    {
      plainIndexes <= relations
    }

    constructor (relations: set<string>, plainIndexes: set<string>, constraintRows: seq<ConstraintRow>,
                 rowCounts: map<string, int>, rejects: Rejects)
      requires plainIndexes <= relations
      ensures Valid()
      ensures this.relations == relations && this.plainIndexes == plainIndexes && log == []
      ensures this.constraintRows == constraintRows && this.rowCounts == rowCounts && this.rejects == rejects
    {
      this.relations := relations;
      this.plainIndexes := plainIndexes;
      this.log := [];
      this.constraintRows := constraintRows;
      this.rowCounts := rowCounts;
      this.rejects := rejects;
    }

    /** hasIndex: whether any relation in schema public carries the name */
    method HasIndex(name: string) returns (found: bool)
      ensures found <==> name in relations
    {
      found := name in relations;
    }

    /** CREATE INDEX name ON public.table (column); fails when the name is taken or the database refuses */
    method CreateIndex(name: string, table: string, column: string) returns (ok: bool)
      requires Valid()
      modifies this`relations, this`plainIndexes, this`log
      ensures Valid()
      ensures ok <==> name !in old(relations) && !rejects(name, table, column)
      ensures relations == if ok then old(relations) + {name} else old(relations)
      ensures plainIndexes == if ok then old(plainIndexes) + {name} else old(plainIndexes)
      ensures log == old(log) + [if ok then Created(name, table, column) else CreateFailed(name, table, column)]
    {
      ok := name !in relations && !rejects(name, table, column);
      if ok {
        relations := relations + {name};
        plainIndexes := plainIndexes + {name};
        log := log + [Created(name, table, column)];
      } else {
        log := log + [CreateFailed(name, table, column)];
      }
    }

    /** DROP INDEX name */
    method DropIndex(name: string)
      requires Valid()
      modifies this`relations, this`plainIndexes, this`log
      ensures Valid()
      ensures relations == old(relations) - {name} && plainIndexes == old(plainIndexes) - {name}
      ensures log == old(log) + [Dropped(name)]
    {
      relations := relations - {name};
      plainIndexes := plainIndexes - {name};
      log := log + [Dropped(name)];
    }

    /** The plain-index query: every plain index of schema public, once each, in the order the database chooses */
    method ListPlainIndexes() returns (names: seq<string>)
      ensures Enumerates(names, plainIndexes)
    {
      names := [];
      var pending := plainIndexes;
      while pending != {}
        invariant pending <= plainIndexes
        invariant forall n :: n in names <==> n in plainIndexes - pending
        invariant forall i, j :: 0 <= i < j < |names| ==> names[i] != names[j]
        decreases pending
      {
        var n :| n in pending;
        assert n !in names;
        ghost var listed := names;
        names := names + [n];
        forall i, j | 0 <= i < j < |names| ensures names[i] != names[j] {
          if j == |listed| {
            assert names[i] in listed;
          }
        }
        pending := pending - {n};
      }
    }

    /** The foreign-key query followed by the count query for each constraint */
    method ListConstraints() returns (fks: seq<ForeignKeyConstraint>)
      ensures fks == Collected(constraintRows, rowCounts)
    {
      fks := [];
      for i := 0 to |constraintRows|
        invariant |fks| == i
        invariant forall k :: 0 <= k < i ==> fks[k] == Unattached(constraintRows[k])
      {
        var row := constraintRows[i];
        fks := fks + [ForeignKeyConstraint(row.tableName, row.columnName, row.constraintName, None)];
      }
      for i := 0 to |fks|
        invariant |fks| == |constraintRows|
        invariant forall k :: 0 <= k < i ==> fks[k] == Collected(constraintRows, rowCounts)[k]
        invariant forall k :: i <= k < |fks| ==> fks[k] == Unattached(constraintRows[k])
      {
        if fks[i].constraintName in rowCounts {
          fks := fks[i := fks[i].(tuples := Some(rowCounts[fks[i].constraintName]))];
        }
      }
    }

    /** deleteForeignKeyIndices: drops every plain index of schema public, FK-backed or not */
    method DeleteForeignKeyIndices() returns (ghost dropped: seq<string>)
      requires Valid()
      modifies this`relations, this`plainIndexes, this`log
      ensures Valid()
      ensures Enumerates(dropped, old(plainIndexes))
      ensures relations == old(relations) - old(plainIndexes) && plainIndexes == {}
      ensures log == old(log) + DropEvents(dropped)
    {
      var indices := ListPlainIndexes();
      dropped := indices;
      ghost var gone: set<string> := {};
      for i := 0 to |indices|
        invariant Valid()
        invariant forall n :: n in gone <==> n in indices[..i]
        invariant relations == old(relations) - gone && plainIndexes == old(plainIndexes) - gone
        invariant log == old(log) + DropEvents(indices[..i])
      {
        DropIndex(indices[i]);
        DropEventsAppend(indices, i);
        gone := gone + {indices[i]};
      }
      assert indices[..|indices|] == indices;
      assert gone == old(plainIndexes);
    }

    /**
     * One turn of the constraint loop: stop on an unknown tuple count,
     * otherwise CREATE INDEX when the count reaches the threshold and the
     * name is free; a refused CREATE stops the run.
     */
    method CreateForConstraint(fk: ForeignKeyConstraint, minTuples: int) returns (stop: Option<Abort>)
      requires Valid()
      modifies this`relations, this`plainIndexes, this`log
      ensures Valid()
      ensures var s := ConstraintStep(fk, minTuples, old(relations), rejects);
        relations == s.relations && log == old(log) + s.events && stop == s.abort
      ensures plainIndexes == old(plainIndexes) + (relations - old(relations))
    {
      if fk.tuples.None? {
        return Some(NullTuples(fk.constraintName));
      }
      var indexName := IndexName(fk.constraintName);
      stop := None;
      if fk.tuples.value >= minTuples {
        var present := HasIndex(indexName);
        if !present {
          var ok := CreateIndex(indexName, fk.tableName, fk.columnName);
          if !ok {
            stop := Some(CreateRejected(indexName));
          }
        }
      }
    }

    /** The loop over the sorted constraints */
    method CreateFromConstraints(order: seq<ForeignKeyConstraint>, minTuples: int) returns (abort: Option<Abort>)
      requires Valid()
      modifies this`relations, this`plainIndexes, this`log
      ensures Valid()
      ensures var p := ConstraintPass(order, minTuples, old(relations), rejects);
        relations == p.relations && log == old(log) + p.events && abort == p.abort
      ensures plainIndexes == old(plainIndexes) + (relations - old(relations))
    {
      ghost var issued: seq<Event> := [];
      var i := 0;
      while i < |order|
        invariant 0 <= i <= |order|
        invariant Valid()
        invariant old(relations) <= relations
        invariant plainIndexes == old(plainIndexes) + (relations - old(relations))
        invariant log == old(log) + issued
        invariant ConstraintPass(order, minTuples, old(relations), rejects)
          == Prepend(issued, ConstraintPass(order[i..], minTuples, relations, rejects))
      {
        var fk := order[i];
        ghost var step := ConstraintStep(fk, minTuples, relations, rejects);
        PassStep(order, i, minTuples, relations, rejects);
        var stop := CreateForConstraint(fk, minTuples);
        if stop.Some? {
          abort := stop;
          issued := issued + step.events;
          return;
        }
        Reassociate(issued, step.events, ConstraintPass(order[i + 1..], minTuples, relations, rejects).events);
        issued := issued + step.events;
        i := i + 1;
      }
      abort := None;
      Reassociate(issued, [], []);
    }

    /**
     * One turn of the override loop: CREATE INDEX unless the name is taken;
     * a refusal is reported and swallowed.
     */
    method CreateOverride(indexName: string, tableName: string, columnName: string) returns (tried: bool)
      requires Valid()
      modifies this`relations, this`plainIndexes, this`log
      ensures Valid()
      ensures tried <==> indexName !in old(relations)
      ensures var created := tried && !rejects(indexName, tableName, columnName);
        relations == (if created then old(relations) + {indexName} else old(relations)) &&
        plainIndexes == (if created then old(plainIndexes) + {indexName} else old(plainIndexes))
      ensures log == old(log) + if tried then [OverrideStatement(indexName, tableName, columnName, rejects)] else []
    {
      var present := HasIndex(indexName);
      tried := !present;
      if tried {
        var ok := CreateIndex(indexName, tableName, columnName);
      }
    }

    /** The loop over the override map, in the map's own order; a refused CREATE INDEX is reported and passed over */
    method CreateOverrides(indexMap: IndexMap) returns (ghost attempted: seq<string>)
      requires Valid()
      modifies this`relations, this`plainIndexes, this`log
      ensures Valid()
      ensures Enumerates(attempted, OverridesAttempted(indexMap, old(relations)))
      ensures relations == old(relations) + OverridesCreated(indexMap, old(relations), rejects)
      ensures plainIndexes == old(plainIndexes) + (relations - old(relations))
      ensures log == old(log) + OverrideEvents(attempted, indexMap, rejects)
    {
      attempted := [];
      var pending := indexMap.Keys;
      ghost var created: set<string> := {};
      while pending != {}
        invariant Valid()
        invariant OverrideLoop(indexMap, old(relations), rejects, pending, attempted, relations)
        invariant created !! old(relations)
        invariant relations == old(relations) + created && plainIndexes == old(plainIndexes) + created
        invariant log == old(log) + OverrideEvents(attempted, indexMap, rejects)
        decreases pending
      {
        var indexName :| indexName in pending;
        var (tableName, columnName) := indexMap[indexName];
        OverrideLoopStep(indexMap, old(relations), rejects, pending, attempted, relations, indexName);
        ghost var before := relations;
        var tried := CreateOverride(indexName, tableName, columnName);
        created := created + (relations - before);
        if tried {
          OverrideEventsAppend(attempted, indexName, indexMap, rejects);
          attempted := attempted + [indexName];
        }
        pending := pending - {indexName};
      }
      OverrideLoopDone(indexMap, old(relations), rejects, attempted, relations);
    }

    /** The constraints in the order the create loop visits them */
    ghost function Ranked(): seq<ForeignKeyConstraint> {
      Sort(Collected(constraintRows, rowCounts))
    }

    /**
     * The create half of creasteFKIndices: the constraints are collected,
     * sorted and visited, and then the overrides. An exception in the
     * constraint loop ends it before the overrides.
     */
    method CreateIndices(minTuples: int, indexMap: IndexMap) returns (abort: Option<Abort>, ghost attempted: seq<string>)
      requires Valid()
      modifies this`relations, this`plainIndexes, this`log
      ensures Valid()
      ensures var p := CreatePhase(Ranked(), minTuples, indexMap, old(relations), rejects);
        relations == p.relations && abort == p.abort
      ensures var c := ConstraintPass(Ranked(), minTuples, old(relations), rejects);
        (c.abort.Some? ==> attempted == []) &&
        (c.abort.None? ==> Enumerates(attempted, OverridesAttempted(indexMap, c.relations))) &&
        log == old(log) + c.events + OverrideEvents(attempted, indexMap, rejects)
      // every name the phase adds is a new plain index
      ensures plainIndexes == old(plainIndexes) + (relations - old(relations))
    {
      attempted := [];
      var fkConstraints := ListConstraints();
      var order := Sort(fkConstraints);
      abort := CreateFromConstraints(order, minTuples);
      if abort.None? {
        attempted := CreateOverrides(indexMap);
      }
    }

    /**
     * creasteFKIndices: with the drop flag, every plain index is dropped
     * first; with the create flag, the indexes are then created.
     */
    method CreateFKIndices(minTuples: int, dropIndices: bool, createIndices: bool, indexMap: IndexMap)
      returns (abort: Option<Abort>, ghost dropped: seq<string>, ghost attempted: seq<string>)
      requires Valid()
      modifies this`relations, this`plainIndexes, this`log
      ensures Valid()
      ensures old(log) <= log
      ensures RunEffect(Ranked(), minTuples, dropIndices, createIndices, indexMap, rejects,
        old(relations), old(plainIndexes), dropped, attempted, relations, plainIndexes, abort, log[|old(log)|..])
      // every drop comes before every create, so nothing created in this run is dropped by it
      ensures DropsFirst(log[|old(log)|..])
      ensures CreatesWithin(log[|old(log)|..], relations)
    {
      dropped, attempted := [], [];
      abort := None;
      if dropIndices {
        dropped := DeleteForeignKeyIndices();
      }
      ghost var drops := DropEvents(dropped);
      ghost var afterDrops := log;
      ghost var start := relations;
      assert start == AfterDrop(dropIndices, old(relations), old(plainIndexes));
      ghost var creates: seq<Event> := [];
      if createIndices {
        abort, attempted := CreateIndices(minTuples, indexMap);
        ghost var p := CreatePhase(Ranked(), minTuples, indexMap, start, rejects);
        assert relations == p.relations && abort == p.abort;
        ghost var c := ConstraintPass(Ranked(), minTuples, start, rejects);
        creates := c.events + OverrideEvents(attempted, indexMap, rejects);
        Reassociate(afterDrops, c.events, OverrideEvents(attempted, indexMap, rejects));
        CreatePhaseLog(Ranked(), minTuples, indexMap, start, rejects, attempted);
      } else {
        assert log == afterDrops + creates;
      }
      Reassociate(old(log), drops, creates);
      RunLogShape(drops, creates, relations);
    }
  }

  /**
   * What one run of creasteFKIndices does to a database that starts with
   * relations `rels0` and plain indexes `plain0` and ends with `rels` and
   * `plain`, logging `events` and ending with `abort`: the plain indexes
   * `dropped` go first (all of them, with the drop flag), then, with the
   * create flag, the create phase runs on what is left and attempts the
   * overrides `attempted`. Every name it adds is a plain index.
   */
  ghost predicate RunEffect(order: seq<ForeignKeyConstraint>, minTuples: int, dropIndices: bool, createIndices: bool,
                            indexMap: IndexMap, rejects: Rejects, rels0: set<string>, plain0: set<string>,
                            dropped: seq<string>, attempted: seq<string>,
                            rels: set<string>, plain: set<string>, abort: Option<Abort>, events: seq<Event>)
  {
    var start := AfterDrop(dropIndices, rels0, plain0);
    (if dropIndices then Enumerates(dropped, plain0) else dropped == []) &&
    plain == (if dropIndices then {} else plain0) + (rels - start) &&
    if createIndices then
      var p := CreatePhase(order, minTuples, indexMap, start, rejects);
      var c := ConstraintPass(order, minTuples, start, rejects);
      rels == p.relations && abort == p.abort &&
      (c.abort.Some? ==> attempted == []) &&
      (c.abort.None? ==> Enumerates(attempted, OverridesAttempted(indexMap, c.relations))) &&
      events == DropEvents(dropped) + (c.events + OverrideEvents(attempted, indexMap, rejects))
    else
      rels == start && abort.None? && attempted == [] && events == DropEvents(dropped)
  }

  /**
   * What the override loop has done once the keys outside `pending` are
   * visited: it attempted each absent one once and added exactly the ones
   * the database accepted.
   */
  ghost predicate OverrideLoop(indexMap: IndexMap, rels0: set<string>, rejects: Rejects,
                               pending: set<string>, attempted: seq<string>, rels: set<string>) {
    pending <= indexMap.Keys &&
    (forall n :: n in attempted <==> n in OverridesAttempted(indexMap, rels0) && n !in pending) &&
    (forall i, j :: 0 <= i < j < |attempted| ==> attempted[i] != attempted[j]) &&
    rels0 <= rels &&
    (forall n :: n in rels - rels0 <==> n in OverridesCreated(indexMap, rels0, rejects) && n !in pending)
  }

  /** Visiting one more key keeps the loop's invariant; a pending key is present now iff it was at the start */
  lemma OverrideLoopStep(indexMap: IndexMap, rels0: set<string>, rejects: Rejects,
                         pending: set<string>, attempted: seq<string>, rels: set<string>, n: string)
    requires OverrideLoop(indexMap, rels0, rejects, pending, attempted, rels) && n in pending
    ensures n in rels <==> n in rels0
    ensures var created := n !in rels && !rejects(n, indexMap[n].0, indexMap[n].1);
      OverrideLoop(indexMap, rels0, rejects, pending - {n},
        if n !in rels then attempted + [n] else attempted,
        if created then rels + {n} else rels)
  {
    var attempted' := if n !in rels then attempted + [n] else attempted;
    forall i, j | 0 <= i < j < |attempted'| ensures attempted'[i] != attempted'[j] {
      if j == |attempted| {
        assert attempted'[i] in attempted;
      }
    }
  }

  /** When no key is pending, the loop has attempted every absent override and added the accepted ones */
  lemma OverrideLoopDone(indexMap: IndexMap, rels0: set<string>, rejects: Rejects, attempted: seq<string>, rels: set<string>)
    requires OverrideLoop(indexMap, rels0, rejects, {}, attempted, rels)
    ensures Enumerates(attempted, OverridesAttempted(indexMap, rels0))
    ensures rels == rels0 + OverridesCreated(indexMap, rels0, rejects)
  {
  }

  /** No drop follows a statement that is not a drop */
  ghost predicate DropsFirst(events: seq<Event>) {
    forall i, j :: 0 <= i < j < |events| && events[j].Dropped? ==> events[i].Dropped?
  }

  /** Every successful create in `events` names a member of `rels` */
  ghost predicate CreatesWithin(events: seq<Event>, rels: set<string>) {
    forall e :: e in events && e.Created? ==> e.name in rels
  }

  /**
   * The create phase's statements: none is a drop, and every success names
   * a relation that exists once the phase is over.
   */
  lemma CreatePhaseLog(order: seq<ForeignKeyConstraint>, minTuples: int, indexMap: IndexMap, rels: set<string>,
                       rejects: Rejects, attempted: seq<string>)
    requires var c := ConstraintPass(order, minTuples, rels, rejects);
      (c.abort.Some? ==> attempted == []) &&
      (c.abort.None? ==> Enumerates(attempted, OverridesAttempted(indexMap, c.relations)))
    ensures var c := ConstraintPass(order, minTuples, rels, rejects);
      var events := c.events + OverrideEvents(attempted, indexMap, rejects);
      (forall e :: e in events ==> !e.Dropped?) &&
      CreatesWithin(events, CreatePhase(order, minTuples, indexMap, rels, rejects).relations)
  {
    var c := ConstraintPass(order, minTuples, rels, rejects);
    var after := CreatePhase(order, minTuples, indexMap, rels, rejects).relations;
    PassAddsCreated(order, minTuples, rels, rejects);
    var overrides := OverrideEvents(attempted, indexMap, rejects);
    OverrideEventsShape(attempted, indexMap, rejects);
    forall e | e in overrides ensures !e.Dropped? && (e.Created? ==> e.name in after) {
      var k :| 0 <= k < |overrides| && overrides[k] == e;
      assert attempted[k] in attempted;
    }
    forall e | e in c.events && e.Created? ensures e.name in after {
      assert e.name in CreatedNames(c.events);
    }
  }

  /** The pass over a list is its first turn followed, unless that turn stops, by the pass over the rest */
  lemma PassStep(order: seq<ForeignKeyConstraint>, i: nat, minTuples: int, rels: set<string>, rejects: Rejects)
    requires i < |order|
    ensures var s := ConstraintStep(order[i], minTuples, rels, rejects);
      ConstraintPass(order[i..], minTuples, rels, rejects)
        == if s.abort.Some? then s else Prepend(s.events, ConstraintPass(order[i + 1..], minTuples, s.relations, rejects))
  {
    assert order[i..][1..] == order[i + 1..];
  }

  /** Regrouping a log that grew twice */
  lemma Reassociate(a: seq<Event>, b: seq<Event>, c: seq<Event>)
    ensures a + b + c == a + (b + c)
    ensures (a + b + c)[|a|..] == b + c
  {
  }

  /** A run's statements: the drops, then those of the create loops */
  lemma RunLogShape(drops: seq<Event>, creates: seq<Event>, rels: set<string>)
    requires forall e :: e in drops ==> e.Dropped?
    requires forall e :: e in creates ==> !e.Dropped?
    requires CreatesWithin(creates, rels)
    ensures DropsFirst(drops + creates)
    ensures CreatesWithin(drops + creates, rels)
  {
    var all := drops + creates;
    forall i, j | 0 <= i < j < |all| && all[j].Dropped? ensures all[i].Dropped? {
      if j < |drops| {
        assert all[i] in drops;
      }
    }
  }

  lemma OverrideEventsAppend(names: seq<string>, n: string, indexMap: IndexMap, rejects: Rejects)
    requires forall x :: x in names ==> x in indexMap
    requires n in indexMap
    ensures OverrideEvents(names + [n], indexMap, rejects) ==
      OverrideEvents(names, indexMap, rejects) + [OverrideStatement(n, indexMap[n].0, indexMap[n].1, rejects)]
  {
    if names != [] {
      assert (names + [n])[1..] == names[1..] + [n];
      OverrideEventsAppend(names[1..], n, indexMap, rejects);
    }
  }
}
