/**
 * `CSVLoader.parse`: one CSV line against the declared column list.
 * The line is split into comma tokens; a line whose token count differs from the
 * number of columns is malformed (`parse` returns null). Otherwise every token that
 * is not "null" is stored under its column's name; the column named "value" holds a
 * float, any other column the token itself.
 */
module CsvParse {
  import opened Wrappers
  import opened StringTokenizer

  /**
   * An event-map value. `Float(literal)` stands for `Float.parseFloat(literal)`: the
   * number itself is not modelled, only the literal it was read from.
   */
  datatype Value = Text(text: string) | Float(literal: string)

  /** The event map built by `parse`: column name to value. */
  type Event = map<string, Value>

  /**
   * The fields of the base class Loader (columns, dimensions, timestampDimension,
   * null modelled as None), together with `isFloat`: the literals Float.parseFloat
   * accepts without a NumberFormatException, which the model takes as given.
   */
  datatype Loader = Loader(
    columns: seq<string>,
    dimensions: seq<string>,
    timestampDimension: Option<string>,
    isFloat: string -> bool)

  /** What `parse` returns: a map, null for a malformed line, or a thrown NumberFormatException. */
  datatype ParseOutcome = Parsed(event: Event) | Malformed | FloatRejected

  /** The test that makes `parse` leave a field out of the map. */
  predicate Skipped(token: string) {
    token == "null" || token == ""
  }

  /** The value stored for a kept field. */
  function ValueOf(column: string, token: string): Value {
    if column == "value" then Float(token) else Text(token)
  }

  /** A kept field of the "value" column whose literal Float.parseFloat refuses. */
  predicate Rejected(isFloat: string -> bool, column: string, token: string) {
    !Skipped(token) && column == "value" && !isFloat(token)
  }

  /**
   * The map that the `for` loop of `parse` builds from the first |cols| fields,
   * or None when Float.parseFloat throws on one of them.
   */
  function Fill(cols: seq<string>, toks: seq<string>, isFloat: string -> bool): (r: Option<Event>)
    requires |cols| == |toks|
    ensures r.Some? ==> forall k :: k in r.value ==> k in cols
    decreases |cols|
  {
    if cols == [] then Some(map[])
    else
      var n := |cols| - 1;
      match Fill(cols[..n], toks[..n], isFloat)
      case None => None
      case Some(m) =>
        if Skipped(toks[n]) then Some(m)
        else if Rejected(isFloat, cols[n], toks[n]) then None
        else Some(m[cols[n] := ValueOf(cols[n], toks[n])])
  }

  /** The names of the columns whose fields are kept. */
  function KeptColumns(cols: seq<string>, toks: seq<string>): set<string>
    requires |cols| == |toks|
  {
    set i | 0 <= i < |cols| && !Skipped(toks[i]) :: cols[i]
  }

  /** Field `i` is the last kept field of its column, so its value is the one left in the map. */
  predicate LastKept(cols: seq<string>, toks: seq<string>, i: nat)
    requires |cols| == |toks| && i < |cols|
  {
    !Skipped(toks[i]) && forall j :: i < j < |cols| && cols[j] == cols[i] ==> Skipped(toks[j])
  }

  /** `parse(row)`. */
  function ParseRow(ld: Loader, row: string): (r: ParseOutcome)
    ensures r.Malformed? <==> |Tokens(row)| != |ld.columns|
  {
    var data := Tokens(row);
    if |data| != |ld.columns| then Malformed
    else match Fill(ld.columns, data, ld.isFloat)
      case None => FloatRejected
      case Some(m) => Parsed(m)
  }

  /** The map holds exactly the columns whose fields are kept. */
  lemma {:induction false} FillKeys(cols: seq<string>, toks: seq<string>, isFloat: string -> bool)
    requires |cols| == |toks| && Fill(cols, toks, isFloat).Some?
    ensures Fill(cols, toks, isFloat).value.Keys == KeptColumns(cols, toks)
    decreases |cols|
  {
    if cols != [] {
      var n := |cols| - 1;
      FillKeys(cols[..n], toks[..n], isFloat);
      KeptColumnsSnoc(cols, toks);
    }
  }

  /** The kept columns of a prefix, plus the last column when its field is kept. */
  lemma KeptColumnsSnoc(cols: seq<string>, toks: seq<string>)
    requires |cols| == |toks| && cols != []
    ensures var n := |cols| - 1;
            KeptColumns(cols, toks) ==
            KeptColumns(cols[..n], toks[..n]) + (if Skipped(toks[n]) then {} else {cols[n]})
  {
    var n := |cols| - 1;
    assert forall i :: 0 <= i < n ==> cols[..n][i] == cols[i] && toks[..n][i] == toks[i];
  }

  /** One more turn of the `for` loop: `Fill` of the next prefix. */
  lemma FillStep(cols: seq<string>, toks: seq<string>, isFloat: string -> bool, i: nat, m: Event)
    requires |cols| == |toks| && i < |cols|
    requires Fill(cols[..i], toks[..i], isFloat) == Some(m)
    ensures Fill(cols[..i + 1], toks[..i + 1], isFloat) ==
            if Skipped(toks[i]) then Some(m)
            else if Rejected(isFloat, cols[i], toks[i]) then None
            else Some(m[cols[i] := ValueOf(cols[i], toks[i])])
  {
    assert cols[..i + 1][..i] == cols[..i] && toks[..i + 1][..i] == toks[..i];
  }

  /** A kept field that no later kept field of the same column overwrites is in the map verbatim. */
  lemma {:induction false} FillValue(cols: seq<string>, toks: seq<string>, isFloat: string -> bool, i: nat)
    requires |cols| == |toks| && i < |cols| && Fill(cols, toks, isFloat).Some?
    requires LastKept(cols, toks, i)
    ensures cols[i] in Fill(cols, toks, isFloat).value
    ensures Fill(cols, toks, isFloat).value[cols[i]] == ValueOf(cols[i], toks[i])
    decreases |cols|
  {
    var n := |cols| - 1;
    if i < n {
      assert forall j :: 0 <= j < n ==> cols[..n][j] == cols[j] && toks[..n][j] == toks[j];
      FillValue(cols[..n], toks[..n], isFloat, i);
    }
  }

  /** The loop throws exactly when some kept "value" field is not a float literal. */
  lemma {:induction false} FillRejects(cols: seq<string>, toks: seq<string>, isFloat: string -> bool)
    requires |cols| == |toks|
    ensures Fill(cols, toks, isFloat).None? <==>
            exists i :: 0 <= i < |cols| && Rejected(isFloat, cols[i], toks[i])
    decreases |cols|
  {
    if cols != [] {
      var n := |cols| - 1;
      FillRejects(cols[..n], toks[..n], isFloat);
      assert forall j :: 0 <= j < n ==> cols[..n][j] == cols[j] && toks[..n][j] == toks[j];
      if Fill(cols[..n], toks[..n], isFloat).None? {
        var k :| 0 <= k < n && Rejected(isFloat, cols[..n][k], toks[..n][k]);
        assert Rejected(isFloat, cols[k], toks[k]);
      }
    }
  }

  /** Tokens are never empty, so the `isEmpty()` half of the skip test never decides anything. */
  lemma EmptyTestNeverFires(row: string)
    ensures forall i :: 0 <= i < |Tokens(row)| ==> (Skipped(Tokens(row)[i]) <==> Tokens(row)[i] == "null")
  {
    TokensAreTokens(row);
  }

  /** On success the map's keys are exactly the columns whose field is not "null". */
  lemma ParseKeys(ld: Loader, row: string)
    requires ParseRow(ld, row).Parsed?
    ensures |Tokens(row)| == |ld.columns|
    ensures ParseRow(ld, row).event.Keys ==
            set i | 0 <= i < |ld.columns| && Tokens(row)[i] != "null" :: ld.columns[i]
  {
    EmptyTestNeverFires(row);
    FillKeys(ld.columns, Tokens(row), ld.isFloat);
  }

  /**
   * On success a field that is not "null" and is not overwritten by a later field of the
   * same column is stored as its token, or as the float it denotes for the "value" column.
   */
  lemma ParseValue(ld: Loader, row: string, i: nat)
    requires ParseRow(ld, row).Parsed? && i < |ld.columns|
    requires Tokens(row)[i] != "null"
    requires forall j :: i < j < |ld.columns| && ld.columns[j] == ld.columns[i] ==> Tokens(row)[j] == "null"
    ensures ld.columns[i] in ParseRow(ld, row).event
    ensures ParseRow(ld, row).event[ld.columns[i]] ==
            if ld.columns[i] == "value" then Float(Tokens(row)[i]) else Text(Tokens(row)[i])
  {
    EmptyTestNeverFires(row);
    FillValue(ld.columns, Tokens(row), ld.isFloat, i);
  }

  /** `parse` throws exactly when the fields fit and a non-"null" "value" field is not a float literal. */
  lemma ParseRejects(ld: Loader, row: string)
    ensures ParseRow(ld, row).FloatRejected? <==>
            |Tokens(row)| == |ld.columns| &&
            exists i :: 0 <= i < |ld.columns| && ld.columns[i] == "value" &&
                        Tokens(row)[i] != "null" && !ld.isFloat(Tokens(row)[i])
  {
    EmptyTestNeverFires(row);
    if |Tokens(row)| == |ld.columns| {
      FillRejects(ld.columns, Tokens(row), ld.isFloat);
    }
  }

  /**
   * A line written from one token per column, with distinct column names and only
   * float literals in the "value" column, parses back to the map of its non-"null" fields.
   */
  lemma ParseJoin(ld: Loader, fields: seq<string>)
    requires |fields| == |ld.columns|
    requires forall i :: 0 <= i < |fields| ==> IsToken(fields[i])
    requires forall i, j :: 0 <= i < j < |ld.columns| ==> ld.columns[i] != ld.columns[j]
    requires forall i :: 0 <= i < |fields| && ld.columns[i] == "value" && fields[i] != "null" ==> ld.isFloat(fields[i])
    ensures ParseRow(ld, Join(fields)).Parsed?
    ensures ParseRow(ld, Join(fields)).event.Keys ==
            set i | 0 <= i < |ld.columns| && fields[i] != "null" :: ld.columns[i]
    ensures forall i :: 0 <= i < |fields| && fields[i] != "null" ==>
            ParseRow(ld, Join(fields)).event[ld.columns[i]] == ValueOf(ld.columns[i], fields[i])
  {
    var row := Join(fields);
    TokensOfJoin(fields);
    ParseRejects(ld, row);
    ParseKeys(ld, row);
    forall i | 0 <= i < |fields| && fields[i] != "null"
      ensures ParseRow(ld, row).event[ld.columns[i]] == ValueOf(ld.columns[i], fields[i])
    {
      ParseValue(ld, row, i);
    }
  }
}
