/**
 * The CSV loader as objects: CSVLoader with its `parse` method, the BufferedReader the
 * iterator reads from, and CSVReaderIterator with its mutable lookahead buffer.
 * `LineReader.ReadLine` and the `HasNext`, `Next` and `Close` methods of CSVReaderIterator
 * are proved to give the result and new state of the matching CsvIterator function, and
 * `CSVLoader.Parse` the result of `CsvParse.ParseRow`, so the lemmas proved there hold of
 * these objects.
 */
module CsvLoader {
  import opened Wrappers
  import opened StringTokenizer
  import opened CsvParse
  import opened CsvIterator

  /** The BufferedReader: a fixed sequence of lines, a read position and a closed flag. */
  class LineReader {
    const lines: seq<string>
    const ending: Ending
    var cursor: nat
    var closed: bool

    ghost predicate Valid()
      reads this
    {
      cursor <= |lines|
    }

    function Src(): Source {
      Source(lines, ending)
    }

    function State(): ReaderState
      reads this
    {
      ReaderState(cursor, closed)
    }

    constructor (src: Source)
      ensures Valid() && Src() == src && State() == ReaderState(0, false)
    {
      lines, ending := src.lines, src.ending;
      cursor, closed := 0, false;
    }

    /** `readLine()`: the next line, null at end of input, an IOException once closed. */
    method ReadLine() returns (r: ReadResult)
      requires Valid()
      modifies this
      ensures Valid()
      ensures (r, State()) == CsvIterator.ReadLine(Src(), old(State()))
    {
      if closed {
        r := IOError;
      } else if cursor < |lines| {
        r := Line(lines[cursor]);
        cursor := cursor + 1;
      } else if ending == EndOfStream {
        r := EndOfInput;
      } else {
        r := IOError;
      }
    }

    method Close()
      requires Valid()
      modifies this
      ensures Valid() && closed && cursor == old(cursor)
    {
      closed := true;
    }
  }

  /** CSVLoader: the Loader fields and the Reader over the CSV text. */
  class CSVLoader {
    const base: Loader
    const reader: Source

    constructor (reader: Source, columns: seq<string>, dims: seq<string>,
                 timestampDimension: Option<string>, isFloat: string -> bool)
      ensures this.reader == reader
      ensures base.columns == columns && base.dimensions == dims
      ensures base.timestampDimension == timestampDimension && base.isFloat == isFloat
    {
      this.reader := reader;
      base := Loader(columns, dims, timestampDimension, isFloat);
    }

    /**
     * `parse(row)`: the StringTokenizer loop collects the tokens, then the `for` loop
     * fills the map column by column.
     */
    method Parse(row: string) returns (r: ParseOutcome)
      ensures r == ParseRow(base, row)
    {
      var data: seq<string> := [];
      var pos := 0;  // the tokenizer's current position
      while SkipDelimiters(row, pos) < |row|
        invariant pos <= |row|
        invariant data + Tokens(row[pos..]) == Tokens(row)
        decreases |row| - pos
      {
        var start := SkipDelimiters(row, pos);
        SkipDelimitersTokens(row, pos);
        NextTokenStep(row, start);
        pos := ScanToken(row, start);
        data := data + [row[start..pos]];
      }
      SkipDelimitersTokens(row, pos);
      assert row[SkipDelimiters(row, pos)..] == [];
      assert data == Tokens(row);
      var columns := base.columns;
      if |data| != |columns| {
        return Malformed;
      }
      var m: Event := map[];
      for i := 0 to |columns|
        invariant Fill(columns[..i], data[..i], base.isFloat) == Some(m)
      {
        FillStep(columns, data, base.isFloat, i, m);
        if data[i] == "null" || data[i] == "" {
          continue;
        }
        if columns[i] == "value" {
          if !base.isFloat(data[i]) {
            FillRejects(columns, data, base.isFloat);
            assert Rejected(base.isFloat, columns[i], data[i]);
            return FloatRejected;  // Float.parseFloat throws
          }
          m := m[columns[i] := Float(data[i])];
        } else {
          m := m[columns[i] := Text(data[i])];
        }
      }
      assert columns[..|columns|] == columns && data[..|data|] == data;
      return Parsed(m);
    }

    /** `iterator()`: a fresh CSVReaderIterator over a new BufferedReader. */
    method Iterator() returns (it: CSVReaderIterator)
      ensures fresh(it) && fresh(it.breader) && it.Valid()
      ensures it.loader == this && it.Src() == reader
      ensures it.State() == IterState(None, ReaderState(0, false))
    {
      it := new CSVReaderIterator(this);
    }
  }

  /** CSVReaderIterator: the lookahead buffer `nextLine` over the BufferedReader. */
  class CSVReaderIterator {
    const loader: CSVLoader
    const breader: LineReader
    var nextLine: Option<string>

    ghost predicate Valid()
      reads this, breader
    {
      breader.Valid()
    }

    function Src(): Source {
      breader.Src()
    }

    function State(): IterState
      reads this, breader
    {
      IterState(nextLine, breader.State())
    }

    constructor (outer: CSVLoader)
      ensures Valid() && fresh(breader)
      ensures loader == outer && Src() == outer.reader
      ensures State() == IterState(None, ReaderState(0, false))
    {
      loader := outer;
      breader := new LineReader(outer.reader);
      nextLine := None;
    }

    method HasNext() returns (b: bool)
      requires Valid()
      modifies this, breader
      ensures Valid()
      ensures (b, State()) == CsvIterator.HasNext(Src(), old(State()))
    {
      if nextLine.None? {
        var line := breader.ReadLine();
        if line.Line? {
          nextLine := Some(line.text);
        } else {
          nextLine := None;
          breader.Close();
          return false;
        }
      }
      return true;
    }

    method Next() returns (r: NextOutcome)
      requires Valid()
      modifies this, breader
      ensures Valid()
      ensures (r, State()) == CsvIterator.Next(loader.base, Src(), old(State()))
      decreases |Remaining(Src(), State())|
    {
      ghost var st := State();
      if nextLine.None? {
        var line := breader.ReadLine();
        match line
        case IOError =>
          breader.Close();
          return NullRow;
        case EndOfInput =>
          nextLine := None;
        case Line(s) =>
          nextLine := Some(s);
      }
      assert State() == Fetch(Src(), st);
      if nextLine.None? {
        return Threw(NullPointer);
      }
      var parsed := loader.Parse(nextLine.value);
      var event: Option<Event>;
      match parsed {
        case FloatRejected =>
          return Threw(NumberFormat);
        case Parsed(m) =>
          event := Some(m);
        case Malformed =>
          nextLine := None;
          var discarded := Next();
          if discarded.Threw? {
            return discarded;
          }
          event := None;
      }
      var ts := GetTimestamp(loader.base, event);
      if ts.Err? {
        return Threw(ts.error);
      }
      r := Row(InputRow(ts.value, loader.base.dimensions, event));
      nextLine := None;
    }

    method Close()
      requires Valid()
      modifies breader
      ensures Valid()
      ensures State() == CsvIterator.Close(old(State()))
    {
      breader.Close();
    }
  }
}
