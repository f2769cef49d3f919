/**
 * The body of main: parse the arguments, load the override map from the
 * packaged defaults and the operator's file, show the usage text when the
 * settings are incomplete, and otherwise run creasteFKIndices. The
 * connection is taken as already open; an exception out of the run is
 * caught, reported and ends main normally.
 */
module Launcher {
  import opened Wrappers
  import opened JavaStrings
  import opened Arguments
  import opened Overrides
  import opened Passes
  import opened Catalog

  /** How main ends */
  datatype Outcome =
    | InvalidNumber(text: string)   // NumberFormatException escapes main
    | UsageShown                    // usage printed, System.exit(1)
    | Ran(abort: Option<Abort>)     // the run happened; an abort is caught and reported

  /** BooleanUtils.toBoolean on a Boolean: only TRUE counts, null is false */
  function ToBoolean(b: Option<bool>): bool {
    b.Some? && b.value
  }

  /** main, with the connection as `db` and the two property sources as values */
  method Launch(args: seq<string>, parseInt: IntParser, parseBool: BoolParser,
                defaults: Properties, operatorFile: Option<Properties>, db: Database)
    returns (outcome: Outcome, indexMap: IndexMap, ghost dropped: seq<string>, ghost attempted: seq<string>)
    requires db.Valid()
    modifies db`relations, db`plainIndexes, db`log
    ensures db.Valid()
    ensures var parsed := ParseAll(args, parseInt, parseBool);
      (outcome.InvalidNumber? <==> parsed.Failure?) &&
      (outcome.UsageShown? <==> parsed.Success? && ShowsUsage(parsed.value)) &&
      (outcome.Ran? <==> parsed.Success? && !ShowsUsage(parsed.value))
    // the override map is loaded once the arguments parse, whether or not the run happens
    ensures !outcome.InvalidNumber? ==> indexMap == WellFormed(Layer(defaults, operatorFile))
    ensures !outcome.Ran? ==>
      db.relations == old(db.relations) && db.plainIndexes == old(db.plainIndexes) && db.log == old(db.log)
    ensures old(db.log) <= db.log
    // a run drops and creates as creasteFKIndices does, with the two flags read by toBoolean
    ensures outcome.Ran? ==>
      var o := ParseAll(args, parseInt, parseBool).value;
      RunEffect(db.Ranked(), o.minTuples, ToBoolean(o.dropIndices), ToBoolean(o.createIndices), indexMap, db.rejects,
        old(db.relations), old(db.plainIndexes), dropped, attempted,
        db.relations, db.plainIndexes, outcome.abort, db.log[|old(db.log)|..])
    ensures outcome.Ran? ==> DropsFirst(db.log[|old(db.log)|..]) && CreatesWithin(db.log[|old(db.log)|..], db.relations)
  {
    indexMap, dropped, attempted := map[], [], [];
    var parsed := ParseArguments(args, parseInt, parseBool);
    if parsed.Failure? {
      return InvalidNumber(parsed.error.text), indexMap, dropped, attempted;
    }
    var o := parsed.value;
    indexMap := LoadIndexMap(Layer(defaults, operatorFile));
    if ShowsUsage(o) {
      return UsageShown, indexMap, dropped, attempted;
    }
    var abort;
    abort, dropped, attempted := db.CreateFKIndices(o.minTuples, ToBoolean(o.dropIndices), ToBoolean(o.createIndices), indexMap);
    outcome := Ran(abort);
  }

  /**
   * "--drop-indices=false" on its own passes the usage check, since only a
   * null flag is missing, yet the run neither drops nor creates anything.
   */
  lemma FalseFlagRunsNothing(parseInt: IntParser, parseBool: BoolParser)
    requires parseBool("false") == Some(false)
    ensures var r := ParseAll(["--database=d", "--user=u", "--password=p", "--drop-indices=false"], parseInt, parseBool);
      r.Success? && !ShowsUsage(r.value) &&
      !ToBoolean(r.value.dropIndices) && !ToBoolean(r.value.createIndices)
  {
    var args := ["--database=d", "--user=u", "--password=p", "--drop-indices=false"];
    var o3 := Defaults.(database := Some("d"), user := Some("u"), password := Some("p"));
    assert StartsWith(args[0], "--database=") && args[0][11..] == "d";
    assert StartsWith(args[1], "--user=") && args[1][7..] == "u";
    assert StartsWith(args[2], "--password=") && args[2][11..] == "p";
    assert StartsWith(args[3], "--drop-indices=") && args[3][15..] == "false";
    Exclusive(args[0]);
    Exclusive(args[1]);
    Exclusive(args[2]);
    Exclusive(args[3]);
    assert ParseAll(args[..1], parseInt, parseBool) == Success(Defaults.(database := Some("d"))) by {
      assert args[..1][..0] == [];
    }
    assert ParseAll(args[..2], parseInt, parseBool) == Success(Defaults.(database := Some("d"), user := Some("u"))) by {
      assert args[..2][..1] == args[..1];
    }
    assert ParseAll(args[..3], parseInt, parseBool) == Success(o3) by {
      assert args[..3][..2] == args[..2];
    }
    assert ParseAll(args, parseInt, parseBool) == Success(o3.(dropIndices := Some(false))) by {
      assert args[..3] == args[..|args| - 1];
    }
  }
}
