/**
 * `get_map` (Vehicle/vehicle.py): the tile map is read line by line; each line is
 * stripped, split on commas, loses one trailing empty field, and every remaining
 * field is converted with `int()`. Opening `map.csv` is left to the caller, which
 * passes the lines of the file.
 */
module TileMap {
  import opened Results
  import opened PyText
  import opened PyInt

  /**
   * The fields of one line: the stripped line split on `,`, with the last field
   * dropped when it is empty.
   */
  function Fields(line: string): (r: seq<string>)
    ensures |r| <= |Split(Strip(line), ',')| <= |r| + 1
  {
    var parts := Split(Strip(line), ',');
    if parts[|parts| - 1] == "" then parts[..|parts| - 1] else parts
  }

  /**
   * No field holds a comma, and at most one field, an empty last one, is lost:
   * joining the fields back (with that empty field restored) gives the stripped line.
   */
  lemma FieldsShape(line: string)
    ensures forall i :: 0 <= i < |Fields(line)| ==> ',' !in Fields(line)[i]
    ensures var parts := Split(Strip(line), ',');
      (Fields(line) == parts && parts[|parts| - 1] != "") || Fields(line) + [""] == parts
    ensures var parts := Split(Strip(line), ','); Join(parts, ',') == Strip(line)
  {
    var parts := Split(Strip(line), ',');
    SplitSpec(Strip(line), ',');
    if parts[|parts| - 1] == "" {
      assert parts[..|parts| - 1] + [""] == parts;
    }
  }

  /** One row of the map: every field of the line converted with `int()`. */
  function ParseLine(line: string): (r: Result<seq<int>, ValueError>)
    ensures r.Ok? ==> |r.value| == |Fields(line)|
  {
    ConvertEach(Fields(line), ParseInt)
  }

  /** The whole map: one row per line, in order, or the error of the first bad line. */
  function ParseMap(lines: seq<string>): (r: Result<seq<seq<int>>, ValueError>)
    ensures r.Ok? ==> |r.value| == |lines|
  {
    ConvertEach(lines, ParseLine)
  }

  /** The start of `get_map`'s loop body: strip, split on commas, delete an empty last field. */
  method SplitFields(line: string) returns (mapRow: seq<string>)
    ensures mapRow == Fields(line)
  {
    var stripped := Strip(line);
    mapRow := Split(stripped, ',');
    if mapRow[|mapRow| - 1] == "" {
      mapRow := mapRow[..|mapRow| - 1];
    }
  }

  /**
   * The inner loop of `get_map`: each field is overwritten in place by its
   * integer value, the first field `int()` rejects ending the read.
   */
  method ConvertRow(mapRow: seq<string>) returns (r: Result<seq<int>, ValueError>)
    ensures r == ConvertEach(mapRow, ParseInt)
  {
    var values := new int[|mapRow|];
    for index := 0 to |mapRow|
      invariant ConvertEach(mapRow[..index], ParseInt) == Ok(values[..index])
    {
      var item := ParseInt(mapRow[index]);
      if item.Err? {
        ConvertEachStops(mapRow, index, ParseInt, values[..index], item.error);
        return Err(item.error);
      }
      var done := values[..index];
      ConvertEachStep(mapRow, index, ParseInt, done, item.value);
      values[index] := item.value;
      assert values[..index + 1] == done + [item.value];
    }
    assert mapRow[..|mapRow|] == mapRow;
    assert values[..] == values[..|mapRow|];
    return Ok(values[..]);
  }

  /**
   * `get_map` over the lines of the file: each line is split into fields, the
   * fields converted to integers, and the row appended to the map; the first
   * error ends the read.
   */
  method GetMap(lines: seq<string>) returns (r: Result<seq<seq<int>>, ValueError>)
    ensures r == ParseMap(lines)
  {
    var mapArray: seq<seq<int>> := [];
    for i := 0 to |lines|
      invariant ConvertEach(lines[..i], ParseLine) == Ok(mapArray)
    {
      var mapRow := SplitFields(lines[i]);
      var row := ConvertRow(mapRow);
      if row.Err? {
        ConvertEachStops(lines, i, ParseLine, mapArray, row.error);
        return Err(row.error);
      }
      ConvertEachStep(lines, i, ParseLine, mapArray, row.value);
      mapArray := mapArray + [row.value];
    }
    assert lines[..|lines|] == lines;
    return Ok(mapArray);
  }

  /** A blank line (after stripping) becomes an empty row. */
  lemma BlankLine(line: string)
    requires Strip(line) == ""
    ensures ParseLine(line) == Ok([])
  {
    assert Split("", ',') == [""];
  }

  /** The text `str(n)` of each value of a row. */
  function ShowAll(row: seq<int>): (fs: seq<string>)
    ensures |fs| == |row|
    ensures forall i :: 0 <= i < |row| ==> fs[i] == Show(row[i])
  {
    seq(|row|, i requires 0 <= i < |row| => Show(row[i]))
  }

  /** A row written the way the map file holds it: the values joined by commas. */
  function Serialize(row: seq<int>): string {
    Join(ShowAll(row), ',')
  }

  /** Rendered values hold no commas and no whitespace. */
  lemma ShowAllClean(row: seq<int>)
    ensures forall i :: 0 <= i < |row| ==> ',' !in ShowAll(row)[i] && NoSpace(ShowAll(row)[i])
  {
  }

  /** A written row, with or without a trailing comma, has nothing for `strip` to remove. */
  lemma SerializeIsStripped(row: seq<int>, trailing: string)
    requires trailing == "" || trailing == ","
    ensures Strip(Serialize(row) + trailing) == Serialize(row) + trailing
  {
    ShowAllClean(row);
    JoinNoSpace(ShowAll(row), ',');
    var s := Serialize(row) + trailing;
    forall i | 0 <= i < |s| ensures !IsSpace(s[i]) {
      if i >= |Serialize(row)| {
        assert s[i] == ',';
      }
    }
    StripNoSpace(s, IsSpace);
  }

  /** Every rendered value reads back as itself. */
  lemma ShowAllRoundTrip(row: seq<int>)
    ensures ConvertEach(ShowAll(row), ParseInt) == Ok(row)
  {
    var fs := ShowAll(row);
    forall i | 0 <= i < |fs| ensures ParseInt(fs[i]) == Ok(row[i]) {
      ShowRoundTrip(row[i]);
    }
    ConvertEachAll(fs, ParseInt, row);
  }

  /** A row written with commas reads back as the same row. */
  lemma {:induction false} RowRoundTrip(row: seq<int>)
    ensures ParseLine(Serialize(row)) == Ok(row)
  {
    var fs := ShowAll(row);
    SerializeIsStripped(row, "");
    assert Serialize(row) + "" == Serialize(row);
    if row != [] {
      ShowAllClean(row);
      SplitJoin(fs, ',');
      assert Fields(Serialize(row)) == fs;
      ShowAllRoundTrip(row);
    }
  }

  /** A non-empty row written with one trailing comma also reads back as the same row. */
  lemma {:induction false} RowRoundTripTrailingComma(row: seq<int>)
    requires row != []
    ensures ParseLine(Serialize(row) + ",") == Ok(row)
  {
    var fs := ShowAll(row);
    SerializeIsStripped(row, ",");
    ShowAllClean(row);
    SplitJoin(fs, ',');
    SplitTrailingSep(Serialize(row), ',');
    assert Fields(Serialize(row) + ",") == fs;
    ShowAllRoundTrip(row);
  }

  /** A line holding only a comma keeps one empty field, which `int()` rejects. */
  lemma LoneComma()
    ensures ParseLine(",") == Err(InvalidLiteral(""))
  {
    StripNoSpace(",", IsSpace);
    SplitTrailingSep("", ',');
    assert "" + [','] == ",";
    assert Fields(",") == [""];
    NoDigitIsError("");
  }

  /** A line ending in two commas keeps an empty last field, so it always fails. */
  lemma {:induction false} DoubleTrailingComma(line: string)
    requires var t := Strip(line); |t| >= 2 && t[|t| - 2..] == ",,"
    ensures ParseLine(line).Err?
  {
    var t := Strip(line);
    var u := t[..|t| - 2];
    assert t == u + [','] + [','];
    SplitTrailingSep(u + [','], ',');
    SplitTrailingSep(u, ',');
    var fs := Fields(line);
    assert fs == Split(u, ',') + [""];
    NoDigitIsError("");
    assert ParseInt(fs[|fs| - 1]).Err?;
  }

  /** A map written line by line reads back as the same grid. */
  lemma {:induction false} MapRoundTrip(rows: seq<seq<int>>)
    ensures ParseMap(seq(|rows|, i requires 0 <= i < |rows| => Serialize(rows[i]))) == Ok(rows)
  {
    var lines := seq(|rows|, i requires 0 <= i < |rows| => Serialize(rows[i]));
    forall i | 0 <= i < |rows| ensures ParseLine(lines[i]) == Ok(rows[i]) {
      RowRoundTrip(rows[i]);
    }
    ConvertEachAll(lines, ParseLine, rows);
  }
}
