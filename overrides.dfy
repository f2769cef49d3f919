/**
 * The override map: index name to (table, column), read from two property
 * sets. The packaged defaults are loaded first and the operator's file on
 * top of them, so the operator's value replaces a default with the same
 * key; each value is then split on '.' and kept only when it gives exactly
 * two pieces.
 */
module Overrides {
  import opened Wrappers
  import opened JavaStrings

  type Properties = map<string, string>
  type IndexMap = map<string, (string, string)>

  /** Loading the operator's properties over the defaults; a missing file leaves the defaults. */
  function Layer(defaults: Properties, operatorFile: Option<Properties>): (props: Properties)
    ensures props.Keys == defaults.Keys + (if operatorFile.Some? then operatorFile.value.Keys else {})
    ensures forall k :: k in props ==>
      props[k] == if operatorFile.Some? && k in operatorFile.value then operatorFile.value[k] else defaults[k]
  {
    match operatorFile
    case None => defaults
    case Some(file) => defaults + file
  }

  /** The (table, column) target a property value names, if it splits into exactly two pieces */
  function Target(value: string): (t: Option<(string, string)>)
    ensures t.Some? <==> |JavaSplit(value, '.')| == 2
    ensures t.Some? ==> TwoPieces(value, '.', t.value.0, t.value.1)
  {
    var pieces := JavaSplit(value, '.');
    if |pieces| == 2 then
      SplitInTwo(value, '.', pieces[0], pieces[1]);
      Some((pieces[0], pieces[1]))
    else None
  }

  /** The entries of `props` that name a well-formed target */
  ghost function WellFormed(props: Properties): IndexMap {
    map k | k in props && Target(props[k]).Some? :: Target(props[k]).value
  }

  /** The loop over the merged properties that fills the index map; malformed values are skipped. */
  method LoadIndexMap(props: Properties) returns (indexMap: IndexMap)
    ensures indexMap == WellFormed(props)
  {
    indexMap := map[];
    var pending := props.Keys;
    while pending != {}
      invariant pending <= props.Keys
      invariant forall k :: k in indexMap <==> k in props && k !in pending && Target(props[k]).Some?
      invariant forall k :: k in indexMap ==> indexMap[k] == Target(props[k]).value
      decreases pending
    {
      var indexName :| indexName in pending;
      var tableAndColumn := JavaSplit(props[indexName], '.');
      if |tableAndColumn| == 2 {
        indexMap := indexMap[indexName := (tableAndColumn[0], tableAndColumn[1])];
      }
      pending := pending - {indexName};
    }
    assert indexMap.Keys == WellFormed(props).Keys;
  }

  /**
   * An entry is kept exactly when its value is table, '.', column and
   * possibly more dots, with neither piece holding a dot and a non-empty column.
   */
  lemma KeptEntries(props: Properties, k: string, table: string, column: string)
    requires k in props
    ensures k in WellFormed(props) && WellFormed(props)[k] == (table, column) <==>
      TwoPieces(props[k], '.', table, column)
  {
    SplitInTwo(props[k], '.', table, column);
  }

  /** "a.b." and ".b" are kept, "a." and "a..b" are dropped */
  lemma SplitExamples()
    ensures Target("a.b.") == Some(("a", "b"))
    ensures Target(".b") == Some(("", "b"))
    ensures Target("a.") == None
    ensures Target("a..b") == None
  {
    SplitInTwoComplete("a", '.', "b", 1);
    assert "a" + ['.'] + "b" + Repeat('.', 1) == "a.b.";
    SplitInTwoComplete("", '.', "b", 0);
    assert "" + ['.'] + "b" + Repeat('.', 0) == ".b";
    assert SplitAll("a.", '.') == ["a", ""] by {
      assert "a."[1..] == "." && "."[1..] == "";
      assert SplitAll(".", '.') == ["", ""];
      assert "a."[0] == 'a' && ['a'] + "" == "a";
      assert ["", ""][1..] == [""];
    }
    assert JavaSplit("a.", '.') == ["a"];
    assert SplitAll("a..b", '.') == ["a", "", "b"] by {
      assert "a..b"[1..] == "..b" && "..b"[1..] == ".b" && ".b"[1..] == "b" && "b"[1..] == "";
    }
  }

  /**
   * The operator's value decides a key it defines: a well-formed one
   * replaces the default, and a malformed one removes the key even when
   * the default was well-formed.
   */
  lemma OperatorValueDecides(defaults: Properties, file: Properties, k: string)
    requires k in file
    ensures var m := WellFormed(Layer(defaults, Some(file)));
      (k in m <==> Target(file[k]).Some?) &&
      (k in m ==> m[k] == Target(file[k]).value)
  {
  }

  /** Keys the operator's file does not mention keep their default entry */
  lemma DefaultsSurvive(defaults: Properties, file: Option<Properties>, k: string)
    requires k in defaults && (file.None? || k !in file.value)
    ensures var m := WellFormed(Layer(defaults, file));
      (k in m <==> Target(defaults[k]).Some?) &&
      (k in m ==> m[k] == Target(defaults[k]).value)
  {
  }
}
