# AutoFKIndexDB in Dafny

AutoFKIndexDB is a command-line tool for PostgreSQL. It creates an index on the
referencing column of every foreign-key constraint the connected user can see
whose table is large enough. The constraint query has no schema filter, but
every index is created on `public.<table>`, so a constraint of another schema
leads to a `CREATE INDEX` the server may refuse (the `rejects` relation of the
model), which ends the run. It also creates a fixed set of extra indexes listed in
property files. Optionally, it first drops every plain index. This project
models the tool's single class, `AutoFKIndexDB`, and proves properties of that
model:

- **Argument loop of `main`** (`Arguments`). Every argument is matched against
  the option prefixes in order. A later occurrence of an option overwrites an
  earlier one. A bad `--min-tuples=` value raises `NumberFormatException`.
- **Override map** (`Overrides`). The packaged defaults are loaded first and the
  operator's `index.properties` on top of them. Each value is split on `.` with
  Java's rules and kept only when it yields exactly two pieces.
- **Usage check and the rest of `main`** (`Launcher`).
- **Index name of a constraint** (`IndexNames`). `"fki_"` is put in front of the
  constraint name, and the result is cut at the last `_fkey`.
- **Order of the create loop** (`Constraints`). This is
  `ForeignKeyConstraint.compareTo`: larger row count first when both counts are
  known, then table, column and constraint name.
- **Reconciliation** (`Passes`, `Catalog`): `creasteFKIndices`, `hasIndex` and
  `deleteForeignKeyIndices`, against a database held as a class.
  - The class holds:
    - the set of relation names in `public`;
    - the names the plain-index query returns;
    - the constraint rows;
    - the row-count estimate for each constraint name;
    - which `CREATE INDEX` statements the server refuses.
  - Every DDL statement the tool issues is appended to a log.
  - The methods are proved against the pure functions of `Passes`. The
    properties are proved about those functions:
    - the loop only adds names;
    - each name is created at most once;
    - the first constraint of a shared name wins;
    - a completed run leaves every eligible index in place;
    - a second run creates nothing.
- **`java.lang.String` operations** the tool relies on (`JavaStrings`):
  `startsWith`, `lastIndexOf`, `compareTo` and `split`.

Behaviour of the code worth knowing, all of it modelled:

- The drop step removes **every** index whose definition starts with
  `CREATE INDEX`, not only the ones this tool created. `Catalog.Database.DeleteForeignKeyIndices`
  ends with no plain index left.
- A constraint without a row count does not get skipped. Unboxing the null
  count in the threshold test throws, and the throw ends the whole run before
  the override map is visited. See `Passes.ThresholdDecides`.
- A refused `CREATE INDEX` for a constraint also ends the run. A refused
  override is reported, and the loop goes on.
- The operator's file is merged over the defaults **before** malformed values
  are filtered out. So an operator value that does not split in two removes a
  valid default with the same key (`Overrides.OperatorValueDecides`).
- `--drop-indices=false` alone passes the usage check, because only a null flag
  counts as missing. The run then does nothing (`Launcher.FalseFlagRunsNothing`).

## Model

All source paths are in `src/com/levelsbeyond/postgres/AutoFKIndexDB.java`.

| member | source | states |
|---|---|---|
| JavaStrings.LastIndexOf | src/com/levelsbeyond/postgres/AutoFKIndexDB.java:177-178 | `lastIndexOf` gives -1, or an index where the pattern occurs with no occurrence after it |
| JavaStrings.CompareStringsZero | src/com/levelsbeyond/postgres/AutoFKIndexDB.java:283-290 | `String.compareTo` is zero exactly on equal strings |
| JavaStrings.CompareStringsAntisymmetric | src/com/levelsbeyond/postgres/AutoFKIndexDB.java:283-290 | swapping the operands of `String.compareTo` negates it |
| JavaStrings.CompareStringsTransitive | src/com/levelsbeyond/postgres/AutoFKIndexDB.java:283-290 | `String.compareTo` orders strings transitively, strictly and non-strictly |
| JavaStrings.SplitAll | src/com/levelsbeyond/postgres/AutoFKIndexDB.java:96 | splitting yields at least one piece, and no piece holds the separator |
| JavaStrings.JoinSplitAll | src/com/levelsbeyond/postgres/AutoFKIndexDB.java:96 | joining the pieces of a split with the separator gives back the string |
| JavaStrings.DropTrailingEmpty | src/com/levelsbeyond/postgres/AutoFKIndexDB.java:96 | the kept pieces are a prefix, end in a non-empty piece, and only empty pieces are dropped |
| JavaStrings.SplitInTwo | src/com/levelsbeyond/postgres/AutoFKIndexDB.java:96-97 | `split("\\.")` yields exactly `[t, c]` iff the value is `t.c` followed by any number of dots, with no dot in `t` or `c` and `c` non-empty |
| IndexNames.IndexName | src/com/levelsbeyond/postgres/AutoFKIndexDB.java:176-179 | the name starts with "fki" and is a prefix of "fki_"+constraint; it is the whole of it iff "_fkey" does not occur, and otherwise ends right before the last "_fkey" |
| IndexNames.NoSuffixInPrefix | src/com/levelsbeyond/postgres/AutoFKIndexDB.java:177 | `lastIndexOf` is never 0 here, so the `> 0` guard only skips the no-match case |
| IndexNames.SuffixIsCut | src/com/levelsbeyond/postgres/AutoFKIndexDB.java:176-179 | a name made of a base, "_fkey" and a tail without '_' gives "fki_" + base |
| IndexNames.ConventionalNameIsCut | src/com/levelsbeyond/postgres/AutoFKIndexDB.java:176-179 | any base + "_fkey" gives "fki_" + base (e.g. "orders_customer_id_fkey" gives "fki_orders_customer_id") |
| IndexNames.UnconventionalNameIsKept | src/com/levelsbeyond/postgres/AutoFKIndexDB.java:176-179 | "custom_constraint" gives "fki_custom_constraint" |
| IndexNames.NumberedConstraintsShareName | src/com/levelsbeyond/postgres/AutoFKIndexDB.java:176-179 | base + "_fkey" and base + "_fkey" + digits (such as "x_fkey" and "x_fkey1") give the same name "fki_" + base |
| IndexNames.CutInsidePrefix | src/com/levelsbeyond/postgres/AutoFKIndexDB.java:176-179 | "fkey" gives "fki": the cut can fall on the prefix's own underscore |
| Constraints.RankedByTuplesFirst | src/com/levelsbeyond/postgres/AutoFKIndexDB.java:279-284 | with both counts known, the larger count ranks first; equal counts fall through to the table name |
| Constraints.UnknownTuplesCompareByNames | src/com/levelsbeyond/postgres/AutoFKIndexDB.java:279-290 | when either count is unknown, only the three names decide |
| Constraints.CompareAntisymmetric | src/com/levelsbeyond/postgres/AutoFKIndexDB.java:277-292 | `a.compareTo(b) == -b.compareTo(a)` for all constraints |
| Constraints.CompareZero | src/com/levelsbeyond/postgres/AutoFKIndexDB.java:277-292 | zero iff the names agree and, when both counts are known, the counts too; with both counts known, zero iff equal |
| Constraints.CompareTransitive | src/com/levelsbeyond/postgres/AutoFKIndexDB.java:277-292 | with every count known the order is transitive |
| Constraints.MixedTuplesCycle | src/com/levelsbeyond/postgres/AutoFKIndexDB.java:279-290 | with a known and an unknown count mixed, three constraints form a cycle, so the comparator is not transitive |
| Constraints.Insert | src/com/levelsbeyond/postgres/AutoFKIndexDB.java:173 | inserting adds exactly the one element (multiset) |
| Constraints.Sort | src/com/levelsbeyond/postgres/AutoFKIndexDB.java:173 | the sorted list is a permutation of the input |
| Constraints.SortSorted | src/com/levelsbeyond/postgres/AutoFKIndexDB.java:173 | when every count is known, the sorted list is ordered by `compareTo` |
| Constraints.RankingExample | src/com/levelsbeyond/postgres/AutoFKIndexDB.java:173 | counts 500, 9000, 9000 on tables b, a, a sort to the two 9000-row constraints (by column), then the 500-row one |
| Overrides.Layer | src/com/levelsbeyond/postgres/AutoFKIndexDB.java:86-92 | the merged properties have the keys of both sources; the operator's value wins; a missing file leaves the defaults |
| Overrides.Target | src/com/levelsbeyond/postgres/AutoFKIndexDB.java:95-97 | a value yields a (table, column) pair iff it splits into two pieces, and then it has the `t.c` shape |
| Overrides.LoadIndexMap | src/com/levelsbeyond/postgres/AutoFKIndexDB.java:94-100 | the loop over the entries builds exactly the map of the well-formed entries |
| Overrides.KeptEntries | src/com/levelsbeyond/postgres/AutoFKIndexDB.java:94-100 | a key maps to (t, c) iff its value has the `t.c` shape |
| Overrides.SplitExamples | src/com/levelsbeyond/postgres/AutoFKIndexDB.java:95-97 | "a.b." gives (a, b), ".b" gives ("", b), "a." and "a..b" are dropped |
| Overrides.OperatorValueDecides | src/com/levelsbeyond/postgres/AutoFKIndexDB.java:86-100 | for a key in the operator's file, only the operator's value decides the entry, even when it drops a valid default |
| Overrides.DefaultsSurvive | src/com/levelsbeyond/postgres/AutoFKIndexDB.java:86-100 | a key the operator's file lacks keeps its default entry |
| Passes.ConstraintPass | src/com/levelsbeyond/postgres/AutoFKIndexDB.java:175-186 | the constraint loop never removes a name, never drops, and only issues statements for names absent at the start |
| Passes.PassAddsCreated | src/com/levelsbeyond/postgres/AutoFKIndexDB.java:175-186 | the names after the loop are exactly the names at the start plus those of its successful creates |
| Passes.PassDistinct | src/com/levelsbeyond/postgres/AutoFKIndexDB.java:175-186 | no index name is issued twice by the loop |
| Passes.PassCovers | src/com/levelsbeyond/postgres/AutoFKIndexDB.java:175-186 | a loop that does not abort leaves every constraint counted and every eligible index name present |
| Passes.OverrideEventsShape | src/com/levelsbeyond/postgres/AutoFKIndexDB.java:188-204 | one statement per attempted override, in order, naming it, never a drop, and succeeding iff the server accepts it |
| Passes.ThresholdDecides | src/com/levelsbeyond/postgres/AutoFKIndexDB.java:175-186 | an unknown count aborts the loop; a count at or above the threshold, for an absent name, issues the create first; otherwise the constraint is skipped |
| Passes.ThresholdBoundary | src/com/levelsbeyond/postgres/AutoFKIndexDB.java:180 | a count equal to the threshold gets its index; one below is skipped |
| Passes.CoveredPassIsQuiet | src/com/levelsbeyond/postgres/AutoFKIndexDB.java:175-186 | once every eligible index name exists, the loop issues nothing |
| Passes.FirstOfSharedNameWins | src/com/levelsbeyond/postgres/AutoFKIndexDB.java:176-185 | of two constraints with one index name, the first creates it and no later statement mentions the name |
| Passes.CreatePhaseIdempotent | src/com/levelsbeyond/postgres/AutoFKIndexDB.java:153-205 | rerunning the create phase on what a completed run left creates nothing, and attempts only overrides the server refused |
| Catalog.AfterDrop | src/com/levelsbeyond/postgres/AutoFKIndexDB.java:149-151 | the drop step only removes names |
| Catalog.DropEvents | src/com/levelsbeyond/postgres/AutoFKIndexDB.java:224-228 | one `DROP INDEX` per listed name, in order |
| Catalog.Database.constructor | src/com/levelsbeyond/postgres/AutoFKIndexDB.java:148 | a database state whose plain indexes are relations, with an empty log |
| Catalog.Database.HasIndex | src/com/levelsbeyond/postgres/AutoFKIndexDB.java:208-213 | true iff some relation in `public` has the name |
| Catalog.Database.CreateIndex | src/com/levelsbeyond/postgres/AutoFKIndexDB.java:183-184 | succeeds iff the name is free and the server accepts it; then the name becomes a plain index; the statement is logged either way |
| Catalog.Database.DropIndex | src/com/levelsbeyond/postgres/AutoFKIndexDB.java:225-227 | the name is gone from the relations and plain indexes; the drop is logged |
| Catalog.Database.ListPlainIndexes | src/com/levelsbeyond/postgres/AutoFKIndexDB.java:216-222 | returns each plain index exactly once |
| Catalog.Database.ListConstraints | src/com/levelsbeyond/postgres/AutoFKIndexDB.java:154-171 | the constraint rows in query order, each with the count its name has, if any |
| Catalog.Database.DeleteForeignKeyIndices | src/com/levelsbeyond/postgres/AutoFKIndexDB.java:215-229 | every plain index is dropped once and nothing else is touched |
| Catalog.PassStep | src/com/levelsbeyond/postgres/AutoFKIndexDB.java:175-186 | the pass over a list is one turn on its head followed, unless that turn stops the run, by the pass over the rest |
| Catalog.Database.CreateForConstraint | src/com/levelsbeyond/postgres/AutoFKIndexDB.java:176-185 | one turn of the loop: an unknown count stops the run; an eligible count for a free name issues `CREATE INDEX`, and a refusal stops the run; the state and log move as `ConstraintStep` says |
| Catalog.Database.CreateFromConstraints | src/com/levelsbeyond/postgres/AutoFKIndexDB.java:175-186 | the loop's new state, log and abort are those of `ConstraintPass`, and it adds exactly the plain indexes it creates |
| Catalog.Database.CreateOverride | src/com/levelsbeyond/postgres/AutoFKIndexDB.java:189-203 | one override: attempted iff its name is absent; added iff attempted and accepted; the statement is logged iff attempted |
| Catalog.Database.CreateOverrides | src/com/levelsbeyond/postgres/AutoFKIndexDB.java:188-204 | every override whose name is absent is attempted once; exactly the accepted ones are added; a refusal does not stop the loop |
| Catalog.Database.CreateIndices | src/com/levelsbeyond/postgres/AutoFKIndexDB.java:153-205 | the create half equals `CreatePhase` on the sorted constraints; an abort skips the overrides; otherwise every override whose name is then absent is attempted exactly once; the log is the constraint statements followed by the override statements; every name added becomes a plain index |
| Catalog.OverrideLoopStep | src/com/levelsbeyond/postgres/AutoFKIndexDB.java:188-204 | visiting one more override key keeps the override loop's invariant, and the key is present now iff it was when the loop began |
| Catalog.OverrideLoopDone | src/com/levelsbeyond/postgres/AutoFKIndexDB.java:188-204 | when no key is pending, the attempted names enumerate the absent overrides and the names added are exactly the accepted ones |
| Catalog.CreatePhaseLog | src/com/levelsbeyond/postgres/AutoFKIndexDB.java:153-205 | the create phase issues no drop, and every name it logs as created is present at its end |
| Catalog.Database.CreateFKIndices | src/com/levelsbeyond/postgres/AutoFKIndexDB.java:148-206 | `RunEffect`: the optional drop of every plain index, then the optional create phase on what is left, giving the new relations, plain indexes (none left after a drop, plus every name the run adds), abort and exact log; every drop precedes every create, and every created name survives the run |
| Catalog.RunLogShape | src/com/levelsbeyond/postgres/AutoFKIndexDB.java:148-206 | drops followed by creates keep the drops first and every created name present |
| Arguments.ParseArguments | src/com/levelsbeyond/postgres/AutoFKIndexDB.java:59-84 | the loop's result is the left-to-right parse of all arguments, failing at the first bad number |
| Arguments.LastValue | src/com/levelsbeyond/postgres/AutoFKIndexDB.java:59-84 | the value after a prefix comes from an argument carrying it with no later argument carrying it, so the last occurrence wins; it is absent iff no argument carries the prefix |
| Arguments.Exclusive | src/com/levelsbeyond/postgres/AutoFKIndexDB.java:60-82 | an argument matches at most one option prefix, so the order of the else-if chain never matters |
| Arguments.FailureSticks | src/com/levelsbeyond/postgres/AutoFKIndexDB.java:71-73 | once an argument throws, later arguments do not change the outcome |
| Arguments.ParsedConnection | src/com/levelsbeyond/postgres/AutoFKIndexDB.java:49-69 | host, database, user and password come from their last occurrence; the host defaults to "localhost" |
| Arguments.ParsedThreshold | src/com/levelsbeyond/postgres/AutoFKIndexDB.java:71-73 | the threshold is the number of the last `--min-tuples=`, 1000 without one |
| Arguments.ParsedFlags | src/com/levelsbeyond/postgres/AutoFKIndexDB.java:74-82 | each flag is `toBooleanObject` of its last occurrence, null without one; help is set iff some argument starts with "--help" |
| Arguments.ParseFailsOnBadNumber | src/com/levelsbeyond/postgres/AutoFKIndexDB.java:71-73 | the parse fails iff some `--min-tuples=` value is not a number |
| Arguments.CompleteArgumentsRun | src/com/levelsbeyond/postgres/AutoFKIndexDB.java:59-102 | database, user, password and a create flag pass the usage check with host "localhost" and threshold 1000 |
| Launcher.Launch | src/com/levelsbeyond/postgres/AutoFKIndexDB.java:48-131 | a bad number ends `main` before anything else; the override map is loaded; incomplete settings show usage and touch nothing; otherwise the state, abort and log are the `RunEffect` of creasteFKIndices with the parsed threshold and the flags read by `toBoolean` |
| Launcher.FalseFlagRunsNothing | src/com/levelsbeyond/postgres/AutoFKIndexDB.java:102-120 | `--drop-indices=false` with the connection settings passes the usage check, yet neither drops nor creates |

## Left out

- JDBC, SQL text and the PostgreSQL catalog queries are left out. The database
  is the abstract state of `Catalog.Database`. In particular, `hasIndex` is
  membership in the relation names, and the plain-index query is the
  `plainIndexes` set.
- Opening and closing the connection is not modelled. `Launcher.Launch` takes
  it as open. A failed `getConnection` is caught by the same handler as a run
  abort.
- Locating and reading the property files is not modelled. Both sources are
  parameters, and a missing or unreadable operator file is `None`. This covers
  `getJarPath`, `Properties.load` syntax, and the `NullPointerException` when
  the packaged defaults are missing.
- `Integer.valueOf` and `BooleanUtils.toBooleanObject` are parameters, so the
  textual number and boolean syntax is not modelled.
- Arguments.ParsedThreshold: does not model the 32-bit range of `int`. A number
  too large for `int` is a parse failure of the `parseInt` parameter.
- Console output is left out: log lines, the usage text and exception reports.
  `System.exit(1)` is the `UsageShown` outcome.
- The unused `XMLOutputter` field is left out.
- Collections.sort is stood for by an insertion sort (`Constraints.Sort`),
  which is stated only as a permutation, sorted when every count is known.
  - When counts are mixed, the comparator is not transitive
    (`Constraints.MixedTuplesCycle`). TimSort may then order the list
    differently, or throw `IllegalArgumentException`.
  - Any such run aborts at the first unknown count. Which constraints were
    created before that point is not modelled faithfully to TimSort.
- `HashMap` iteration order is not modelled. The override loops pick an
  arbitrary remaining key, and the log order of the overrides is whatever that
  choice gives.
- DDL identifier quoting and SQL injection through names are not modelled.
  Names are opaque strings.
- Passes.CreatePhaseIdempotent and Catalog.Database.CreateIndex: PostgreSQL
  folds the unquoted name in `CREATE INDEX %s` to lower case and truncates
  identifiers to 63 bytes, while `hasIndex` looks the name up as written. The
  model's catalog stores the issued name verbatim, so it does not capture that
  a constraint name with upper-case letters, or a derived name over 63 bytes,
  is missed by the second run's `hasIndex`, whose `CREATE INDEX` then fails
  with "already exists" and ends that run. The idempotence lemma holds only
  for names that PostgreSQL keeps unchanged.
- Catalog.Database.DropIndex: a failing `DROP INDEX` is not modelled, so drops
  always succeed. In the source such a failure ends the run.
- A null column name from the outer join in the constraint query is not
  modelled. In the source it can make `compareTo` throw.
- Java strings are sequences of UTF-16 code units; here they are sequences of
  Dafny characters. `String.compareTo` is modelled on those characters.
- Concurrent DDL by other sessions between the existence check and the
  `CREATE INDEX` is not modelled.
- `ForeignKeyConstraint` setters other than the count are never called and are
  left out. The count is attached when the list is built
  (`Catalog.Database.ListConstraints`), not by mutating a shared object.
