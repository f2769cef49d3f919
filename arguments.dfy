/**
 * The command-line loop of main: every argument is matched against the
 * option prefixes in turn, the text after a matching prefix becomes the
 * option's value, and a later occurrence overwrites an earlier one. Then
 * the usage check: help was asked for, a connection setting is missing, or
 * neither the drop nor the create flag was parsed.
 */
module Arguments {
  import opened Wrappers
  import opened JavaStrings

  datatype Options = Options(
    host: string,
    database: Option<string>,
    user: Option<string>,
    password: Option<string>,
    minTuples: int,
    dropIndices: Option<bool>,
    createIndices: Option<bool>,
    showHelp: bool)

  const DefaultHost := "localhost"
  const DefaultMinTuples := 1000
  const Defaults := Options(DefaultHost, None, None, None, DefaultMinTuples, None, None, false)

  /** Integer.valueOf: the number a string spells, or None where it throws NumberFormatException */
  type IntParser = string -> Option<int>
  /** BooleanUtils.toBooleanObject: TRUE, FALSE, or null for any other text */
  type BoolParser = string -> Option<bool>

  /** The NumberFormatException Integer.valueOf throws out of main */
  datatype ParseError = BadNumber(text: string)

  /** One turn of the loop */
  function Apply(o: Options, arg: string, parseInt: IntParser, parseBool: BoolParser): Result<Options, ParseError> {
    if StartsWith(arg, "--host=") then Success(o.(host := arg[7..]))
    else if StartsWith(arg, "--database=") then Success(o.(database := Some(arg[11..])))
    else if StartsWith(arg, "--user=") then Success(o.(user := Some(arg[7..])))
    else if StartsWith(arg, "--password=") then Success(o.(password := Some(arg[11..])))
    else if StartsWith(arg, "--min-tuples=") then
      match parseInt(arg[13..])
      case None => Failure(BadNumber(arg[13..]))
      case Some(n) => Success(o.(minTuples := n))
    else if StartsWith(arg, "--drop-indices=") then Success(o.(dropIndices := parseBool(arg[15..])))
    else if StartsWith(arg, "--create-indices=") then Success(o.(createIndices := parseBool(arg[17..])))
    else if StartsWith(arg, "--help") then Success(o.(showHelp := true))
    else Success(o)
  }

  /** The loop over all arguments, left to right, stopping at the first exception */
  function ParseAll(args: seq<string>, parseInt: IntParser, parseBool: BoolParser): Result<Options, ParseError> {
    if args == [] then Success(Defaults)
    else
      match ParseAll(args[..|args| - 1], parseInt, parseBool)
      case Failure(e) => Failure(e)
      case Success(o) => Apply(o, args[|args| - 1], parseInt, parseBool)
  }

  /** The argument loop of main */
  method ParseArguments(args: seq<string>, parseInt: IntParser, parseBool: BoolParser) returns (r: Result<Options, ParseError>)
    ensures r == ParseAll(args, parseInt, parseBool)
  {
    var o := Defaults;
    for i := 0 to |args|
      invariant ParseAll(args[..i], parseInt, parseBool) == Success(o)
    {
      assert args[..i + 1][..i] == args[..i];
      var arg := args[i];
      if StartsWith(arg, "--host=") {
        o := o.(host := arg[7..]);
      } else if StartsWith(arg, "--database=") {
        o := o.(database := Some(arg[11..]));
      } else if StartsWith(arg, "--user=") {
        o := o.(user := Some(arg[7..]));
      } else if StartsWith(arg, "--password=") {
        o := o.(password := Some(arg[11..]));
      } else if StartsWith(arg, "--min-tuples=") {
        var n := parseInt(arg[13..]);
        if n.None? {
          r := Failure(BadNumber(arg[13..]));
          FailureSticks(args, i + 1, parseInt, parseBool);
          return;
        }
        o := o.(minTuples := n.value);
      } else if StartsWith(arg, "--drop-indices=") {
        o := o.(dropIndices := parseBool(arg[15..]));
      } else if StartsWith(arg, "--create-indices=") {
        o := o.(createIndices := parseBool(arg[17..]));
      } else if StartsWith(arg, "--help") {
        o := o.(showHelp := true);
      }
    }
    assert args[..|args|] == args;
    r := Success(o);
  }

  /** The text after `prefix` in the last argument that starts with it */
  function LastValue(args: seq<string>, prefix: string): (v: Option<string>)
    // the value comes from an argument carrying the prefix, and no later argument carries it
    ensures v.Some? ==>
      exists i :: 0 <= i < |args| && StartsWith(args[i], prefix) && v.value == args[i][|prefix|..] &&
                  (forall j :: i < j < |args| ==> !StartsWith(args[j], prefix))
    ensures v.None? <==> forall i :: 0 <= i < |args| ==> !StartsWith(args[i], prefix)
  {
    if args == [] then None
    else if StartsWith(args[|args| - 1], prefix) then Some(args[|args| - 1][|prefix|..])
    else
      var v := LastValue(args[..|args| - 1], prefix);
      assert forall j :: 0 <= j < |args| - 1 ==> args[..|args| - 1][j] == args[j];
      v
  }

  /** The usage text is shown and the run exits with status 1 */
  predicate ShowsUsage(o: Options) {
    o.showHelp || o.database.None? || o.user.None? || o.password.None? ||
    (o.dropIndices.None? && o.createIndices.None?)
  }

  /** An argument starts with at most one option prefix: the third and fourth characters tell them apart */
  lemma PrefixChars(arg: string, prefix: string)
    requires |prefix| >= 4 && StartsWith(arg, prefix)
    ensures arg[2] == prefix[2] && arg[3] == prefix[3]
  {
    assert arg[..|prefix|][2] == arg[2] && arg[..|prefix|][3] == arg[3];
  }

  /** The option an argument sets: the first prefix it starts with, and no other matches */
  lemma Exclusive(arg: string)
    ensures StartsWith(arg, "--database=") ==> !StartsWith(arg, "--host=")
    ensures StartsWith(arg, "--user=") ==> !StartsWith(arg, "--host=") && !StartsWith(arg, "--database=")
    ensures StartsWith(arg, "--password=") ==>
      !StartsWith(arg, "--host=") && !StartsWith(arg, "--database=") && !StartsWith(arg, "--user=")
    ensures StartsWith(arg, "--min-tuples=") ==>
      !StartsWith(arg, "--host=") && !StartsWith(arg, "--database=") && !StartsWith(arg, "--user=") &&
      !StartsWith(arg, "--password=")
    ensures StartsWith(arg, "--drop-indices=") ==>
      !StartsWith(arg, "--host=") && !StartsWith(arg, "--database=") && !StartsWith(arg, "--user=") &&
      !StartsWith(arg, "--password=") && !StartsWith(arg, "--min-tuples=")
    ensures StartsWith(arg, "--create-indices=") ==>
      !StartsWith(arg, "--host=") && !StartsWith(arg, "--database=") && !StartsWith(arg, "--user=") &&
      !StartsWith(arg, "--password=") && !StartsWith(arg, "--min-tuples=") && !StartsWith(arg, "--drop-indices=")
    ensures StartsWith(arg, "--help") ==>
      !StartsWith(arg, "--host=") && !StartsWith(arg, "--database=") && !StartsWith(arg, "--user=") &&
      !StartsWith(arg, "--password=") && !StartsWith(arg, "--min-tuples=") && !StartsWith(arg, "--drop-indices=") &&
      !StartsWith(arg, "--create-indices=")
  {
    if |arg| >= 4 {
      if StartsWith(arg, "--host=") { PrefixChars(arg, "--host="); }
      if StartsWith(arg, "--database=") { PrefixChars(arg, "--database="); }
      if StartsWith(arg, "--user=") { PrefixChars(arg, "--user="); }
      if StartsWith(arg, "--password=") { PrefixChars(arg, "--password="); }
      if StartsWith(arg, "--min-tuples=") { PrefixChars(arg, "--min-tuples="); }
      if StartsWith(arg, "--drop-indices=") { PrefixChars(arg, "--drop-indices="); }
      if StartsWith(arg, "--create-indices=") { PrefixChars(arg, "--create-indices="); }
      if StartsWith(arg, "--help") { PrefixChars(arg, "--help"); }
    }
  }

  /** Once the loop has raised, the rest of the arguments change nothing */
  lemma {:induction false} FailureSticks(args: seq<string>, k: nat, parseInt: IntParser, parseBool: BoolParser)
    requires k <= |args| && ParseAll(args[..k], parseInt, parseBool).Failure?
    ensures ParseAll(args, parseInt, parseBool) == ParseAll(args[..k], parseInt, parseBool)
    decreases |args| - k
  {
    if k < |args| {
      assert args[..|args| - 1][..k] == args[..k];
      FailureSticks(args[..|args| - 1], k, parseInt, parseBool);
    } else {
      assert args[..k] == args;
    }
  }

  /**
   * The connection settings of a completed parse come from their last
   * occurrence; the host falls back to "localhost".
   */
  lemma {:induction false} ParsedConnection(args: seq<string>, parseInt: IntParser, parseBool: BoolParser)
    requires ParseAll(args, parseInt, parseBool).Success?
    ensures var o := ParseAll(args, parseInt, parseBool).value;
      o.host == LastValue(args, "--host=").GetOr(DefaultHost) &&
      o.database == LastValue(args, "--database=") &&
      o.user == LastValue(args, "--user=") &&
      o.password == LastValue(args, "--password=")
  {
    if args != [] {
      ParsedConnection(args[..|args| - 1], parseInt, parseBool);
      Exclusive(args[|args| - 1]);
    }
  }

  /**
   * The threshold of a completed parse is the number its last
   * "--min-tuples=" spells, and 1000 when there is none.
   */
  lemma {:induction false} ParsedThreshold(args: seq<string>, parseInt: IntParser, parseBool: BoolParser)
    requires ParseAll(args, parseInt, parseBool).Success?
    ensures var o := ParseAll(args, parseInt, parseBool).value;
      var v := LastValue(args, "--min-tuples=");
      (v.None? ==> o.minTuples == DefaultMinTuples) &&
      (v.Some? ==> parseInt(v.value) == Some(o.minTuples))
  {
    if args != [] {
      ParsedThreshold(args[..|args| - 1], parseInt, parseBool);
      Exclusive(args[|args| - 1]);
    }
  }

  /**
   * Each flag of a completed parse is what toBooleanObject makes of its last
   * occurrence, so a later unparseable value resets it to null; help is set
   * exactly when some argument starts with "--help".
   */
  lemma {:induction false} ParsedFlags(args: seq<string>, parseInt: IntParser, parseBool: BoolParser)
    requires ParseAll(args, parseInt, parseBool).Success?
    ensures var o := ParseAll(args, parseInt, parseBool).value;
      var drop := LastValue(args, "--drop-indices=");
      var create := LastValue(args, "--create-indices=");
      (drop.None? ==> o.dropIndices.None?) &&
      (drop.Some? ==> o.dropIndices == parseBool(drop.value)) &&
      (create.None? ==> o.createIndices.None?) &&
      (create.Some? ==> o.createIndices == parseBool(create.value)) &&
      (o.showHelp <==> exists i :: 0 <= i < |args| && StartsWith(args[i], "--help"))
  {
    if args != [] {
      var init := args[..|args| - 1];
      ParsedFlags(init, parseInt, parseBool);
      Exclusive(args[|args| - 1]);
      assert forall i :: 0 <= i < |init| ==> init[i] == args[i];
    }
  }

  /** The parse fails exactly when some "--min-tuples=" value is not a number */
  lemma {:induction false} ParseFailsOnBadNumber(args: seq<string>, parseInt: IntParser, parseBool: BoolParser)
    ensures ParseAll(args, parseInt, parseBool).Failure? <==>
      exists i :: 0 <= i < |args| && StartsWith(args[i], "--min-tuples=") && parseInt(args[i][13..]).None?
  {
    if args != [] {
      var init := args[..|args| - 1];
      ParseFailsOnBadNumber(init, parseInt, parseBool);
      Exclusive(args[|args| - 1]);
      assert forall i :: 0 <= i < |init| ==> init[i] == args[i];
    }
  }

  /** With all three connection settings and one flag, and no help, the run goes ahead */
  lemma CompleteArgumentsRun(parseInt: IntParser, parseBool: BoolParser)
    requires parseBool("true") == Some(true)
    ensures var r := ParseAll(["--database=shop", "--user=app", "--password=pw", "--create-indices=true"], parseInt, parseBool);
      r.Success? && !ShowsUsage(r.value) && r.value.minTuples == DefaultMinTuples && r.value.host == DefaultHost
  {
    var args := ["--database=shop", "--user=app", "--password=pw", "--create-indices=true"];
    var o1 := Defaults.(database := Some("shop"));
    var o2 := o1.(user := Some("app"));
    var o3 := o2.(password := Some("pw"));
    var o4 := o3.(createIndices := Some(true));
    assert StartsWith(args[0], "--database=") && args[0][11..] == "shop";
    assert StartsWith(args[1], "--user=") && args[1][7..] == "app";
    assert StartsWith(args[2], "--password=") && args[2][11..] == "pw";
    assert StartsWith(args[3], "--create-indices=") && args[3][17..] == "true";
    Exclusive(args[0]);
    Exclusive(args[1]);
    Exclusive(args[2]);
    Exclusive(args[3]);
    assert ParseAll(args[..1], parseInt, parseBool) == Success(o1) by {
      assert args[..1][..0] == [];
    }
    assert ParseAll(args[..2], parseInt, parseBool) == Success(o2) by {
      assert args[..2][..1] == args[..1];
    }
    assert ParseAll(args[..3], parseInt, parseBool) == Success(o3) by {
      assert args[..3][..2] == args[..2];
    }
    assert ParseAll(args, parseInt, parseBool) == Success(o4) by {
      assert args[..3] == args[..|args| - 1];
    }
  }
}
