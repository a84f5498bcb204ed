/**
 * `CSVReaderIterator` as a state machine over a fixed sequence of lines.
 * Its state is the one-line lookahead buffer `nextLine` and the position and
 * open/closed status of the BufferedReader underneath. Each operation is a
 * function from the old state to its result and the new state; the class in
 * module CsvLoader is proved to follow these functions step for step.
 */
module CsvIterator {
  import opened Wrappers
  import opened JavaLong
  import opened CsvParse

  /** What `readLine()` does once every line has been read: report end of input, or throw an IOException. */
  datatype Ending = EndOfStream | ReadError

  /** The lines the reader will deliver, and how it ends. */
  datatype Source = Source(lines: seq<string>, ending: Ending)

  /** The BufferedReader: how many lines it has handed out, and whether it is closed. */
  datatype ReaderState = ReaderState(cursor: nat, closed: bool)

  /** The iterator: the lookahead buffer (None is null) over the reader. */
  datatype IterState = IterState(nextLine: Option<string>, reader: ReaderState)

  /** The outcome of one `readLine()`: a line, null, or an IOException. */
  datatype ReadResult = Line(text: string) | EndOfInput | IOError

  /** Exceptions that escape `next()`. */
  datatype Exception = NullPointer | NumberFormat | ClassCast

  /** The row `next()` builds: MapBasedInputRow(timestamp, dimensions, event), event possibly null. */
  datatype InputRow = InputRow(timestamp: int, dimensions: seq<string>, event: Option<Event>)

  /** What a call of `next()` ends with: a row, a null return, or an exception. */
  datatype NextOutcome = Row(row: InputRow) | NullRow | Threw(exception: Exception)

  ghost predicate Valid(src: Source, st: IterState) {
    st.reader.cursor <= |src.lines|
  }

  /** The lines the reader can still deliver. */
  function Unread(src: Source, rs: ReaderState): seq<string>
    requires rs.cursor <= |src.lines|
  {
    if rs.closed then [] else src.lines[rs.cursor..]
  }

  /** The lines the iterator can still hand out: the buffered one, then the unread ones. */
  function Remaining(src: Source, st: IterState): seq<string>
    requires Valid(src, st)
  {
    (if st.nextLine.Some? then [st.nextLine.value] else []) + Unread(src, st.reader)
  }

  /** `BufferedReader.readLine()`. */
  function ReadLine(src: Source, rs: ReaderState): (res: (ReadResult, ReaderState))
    requires rs.cursor <= |src.lines|
    ensures res.1.cursor <= |src.lines| && res.1.closed == rs.closed
    ensures res.0.Line? <==> Unread(src, rs) != []
    ensures res.0.Line? ==> res.0.text == Unread(src, rs)[0] && Unread(src, res.1) == Unread(src, rs)[1..]
    ensures !res.0.Line? ==> res.1 == rs
    ensures res.0.EndOfInput? <==> !rs.closed && rs.cursor == |src.lines| && src.ending == EndOfStream
  {
    if rs.closed then (IOError, rs)
    else if rs.cursor < |src.lines| then (Line(src.lines[rs.cursor]), rs.(cursor := rs.cursor + 1))
    else if src.ending == EndOfStream then (EndOfInput, rs)
    else (IOError, rs)
  }

  /** `close()`: closes the reader and keeps the buffer. */
  function Close(st: IterState): (st': IterState)
    ensures st'.reader.closed && st'.nextLine == st.nextLine && st'.reader.cursor == st.reader.cursor
  {
    st.(reader := st.reader.(closed := true))
  }

  /**
   * `hasNext()`: true exactly when a line remains; it reads at most one line into the
   * buffer, never consumes one, and closes the reader when it answers false.
   */
  function HasNext(src: Source, st: IterState): (res: (bool, IterState))
    requires Valid(src, st)
    ensures Valid(src, res.1)
    ensures res.0 <==> Remaining(src, st) != []
    ensures Remaining(src, res.1) == Remaining(src, st)
    ensures res.0 ==> res.1.nextLine == Some(Remaining(src, st)[0]) && res.1.reader.closed == st.reader.closed
    ensures !res.0 ==> res.1.nextLine.None? && res.1.reader.closed
    ensures st.nextLine.Some? ==> res.1 == st
  {
    if st.nextLine.Some? then (true, st)
    else
      var (r, rs) := ReadLine(src, st.reader);
      match r
      case Line(s) => (true, IterState(Some(s), rs))
      case _ => (false, Close(IterState(None, rs)))
  }

  /**
   * `getTimestamp(map)`: 1 without a timestamp column; otherwise the entry for that
   * column, cast to String and given to Long.valueOf.
   */
  function GetTimestamp(ld: Loader, event: Option<Event>): (r: Result<int, Exception>)
    ensures ld.timestampDimension.None? ==> r == Ok(1)
    ensures ld.timestampDimension.Some? && event.None? ==> r == Err(NullPointer)
    ensures ld.timestampDimension.Some? && event.Some? ==>
      var key := ld.timestampDimension.value;
      var m := event.value;
      && (key !in m ==> r == Err(NumberFormat))
      && (key in m && m[key].Float? ==> r == Err(ClassCast))
      && (key in m && m[key].Text? ==>
            if ParseLong(m[key].text).Some? then r == Ok(ParseLong(m[key].text).value) else r == Err(NumberFormat))
    ensures r.Ok? ==> InLongRange(r.value)
  {
    match ld.timestampDimension
    case None => Ok(1)
    case Some(key) =>
      match event
      case None => Err(NullPointer)                        // map.get on a null map
      case Some(m) =>
        if key !in m then Err(NumberFormat)                // Long.valueOf(null)
        else match m[key]
          case Float(_) => Err(ClassCast)                  // (String) applied to a Float
          case Text(s) =>
            match ParseLong(s)
            case None => Err(NumberFormat)
            case Some(t) => Ok(t)
  }

  /** A timestamp column holding a printed `long` gives that `long` back. */
  lemma GetTimestampOfLong(ld: Loader, m: Event, t: int)
    requires InLongRange(t) && ld.timestampDimension.Some?
    requires ld.timestampDimension.value in m && m[ld.timestampDimension.value] == Text(LongToString(t))
    ensures GetTimestamp(ld, Some(m)) == Ok(t)
  {
    ParseLongToString(t);
  }

  /** The end of `next()`: build the row, then clear the buffer; a throwing getTimestamp leaves it full. */
  function Finish(ld: Loader, event: Option<Event>, st: IterState): (res: (NextOutcome, IterState))
    ensures res.0.Threw? <==> GetTimestamp(ld, event).Err?
    ensures res.0.Threw? ==> res.1 == st
    ensures !res.0.Threw? ==> res.1 == st.(nextLine := None) && res.0.Row?
    ensures res.0.Row? ==> res.0.row == InputRow(GetTimestamp(ld, event).value, ld.dimensions, event)
  {
    match GetTimestamp(ld, event)
    case Err(e) => (Threw(e), st)
    case Ok(t) => (Row(InputRow(t, ld.dimensions, event)), st.(nextLine := None))
  }

  /** The first step of `next()`: an empty buffer is filled by one `readLine()` (null at end of input). */
  function Fetch(src: Source, st: IterState): (st1: IterState)
    requires Valid(src, st)
    ensures Valid(src, st1)
    ensures Remaining(src, st1) == Remaining(src, st)
    ensures st.nextLine.Some? ==> st1 == st
    ensures Remaining(src, st) != [] ==> st1.nextLine == Some(Remaining(src, st)[0])
  {
    if st.nextLine.Some? then st
    else
      var (r, rs) := ReadLine(src, st.reader);
      IterState(if r.Line? then Some(r.text) else None, rs)
  }

  /**
   * `next()`. An IOException from `readLine()` closes the reader and returns null;
   * otherwise the call goes on with the buffer as `Fetch` leaves it.
   */
  function Next(ld: Loader, src: Source, st: IterState): (res: (NextOutcome, IterState))
    requires Valid(src, st)
    ensures Valid(src, res.1)
    decreases |Remaining(src, st)|, 1
  {
    if st.nextLine.None? && ReadLine(src, st.reader).0.IOError? then (NullRow, Close(st))
    else NextFetched(ld, src, Fetch(src, st))
  }

  /**
   * The rest of `next()`. A null buffer makes `parse` throw a NullPointerException. A
   * malformed line is dropped and `next()` called again, its result thrown away unless
   * it throws; the outer call then goes on with a null map.
   */
  function NextFetched(ld: Loader, src: Source, st1: IterState): (res: (NextOutcome, IterState))
    requires Valid(src, st1)
    ensures Valid(src, res.1)
    ensures !res.0.NullRow?
    decreases |Remaining(src, st1)|, 0
  {
    if st1.nextLine.None? then (Threw(NullPointer), st1)
    else match ParseRow(ld, st1.nextLine.value)
      case FloatRejected => (Threw(NumberFormat), st1)
      case Parsed(m) => Finish(ld, Some(m), st1)
      case Malformed =>
        var (inner, st2) := Next(ld, src, st1.(nextLine := None));
        if inner.Threw? then (inner, st2) else Finish(ld, None, st2)
  }

  /** `b` is what is left over from `a` after dropping some lines from its front. */
  predicate IsSuffix(b: seq<string>, a: seq<string>) {
    |b| <= |a| && b == a[|a| - |b|..]
  }

  /** The row a line yields when it is well formed and its timestamp parses. */
  function CleanRow(ld: Loader, line: string): Option<InputRow> {
    match ParseRow(ld, line)
    case Parsed(m) =>
      (match GetTimestamp(ld, Some(m))
       case Ok(t) => Some(InputRow(t, ld.dimensions, Some(m)))
       case Err(_) => None)
    case _ => None
  }

  lemma SuffixTransitive(c: seq<string>, b: seq<string>, a: seq<string>)
    requires IsSuffix(c, b) && IsSuffix(b, a)
    ensures IsSuffix(c, a)
  {
    assert a[|a| - |b|..][|b| - |c|..] == a[|a| - |c|..];
  }

  /** Emptying the buffer drops at most the line at the front. */
  lemma ClearKeepsSuffix(src: Source, st: IterState)
    requires Valid(src, st)
    ensures IsSuffix(Remaining(src, st.(nextLine := None)), Remaining(src, st))
  {
  }

  /**
   * `next()` takes lines only from the front, in order and each at most once; unless it
   * throws, it takes at least one when a line remains.
   */
  lemma {:induction false} NextConsumes(ld: Loader, src: Source, st: IterState)
    requires Valid(src, st)
    ensures IsSuffix(Remaining(src, Next(ld, src, st).1), Remaining(src, st))
    ensures !Next(ld, src, st).0.Threw? && Remaining(src, st) != [] ==>
            |Remaining(src, Next(ld, src, st).1)| < |Remaining(src, st)|
    decreases |Remaining(src, st)|, 1
  {
    if st.nextLine.None? && ReadLine(src, st.reader).0.IOError? {
      assert Remaining(src, Close(st)) == [];
    } else {
      NextFetchedConsumes(ld, src, Fetch(src, st));
    }
  }

  lemma {:induction false} NextFetchedConsumes(ld: Loader, src: Source, st1: IterState)
    requires Valid(src, st1)
    ensures IsSuffix(Remaining(src, NextFetched(ld, src, st1).1), Remaining(src, st1))
    ensures !NextFetched(ld, src, st1).0.Threw? && Remaining(src, st1) != [] ==>
            |Remaining(src, NextFetched(ld, src, st1).1)| < |Remaining(src, st1)|
    decreases |Remaining(src, st1)|, 0
  {
    var R := Remaining(src, st1);
    if st1.nextLine.Some? {
      var cleared := st1.(nextLine := None);
      assert Remaining(src, cleared) == R[1..];
      var p := ParseRow(ld, st1.nextLine.value);
      if p.Malformed? {
        NextConsumes(ld, src, cleared);
        var (inner, st2) := Next(ld, src, cleared);
        assert NextFetched(ld, src, st1) == if inner.Threw? then (inner, st2) else Finish(ld, None, st2);
        SuffixTransitive(Remaining(src, st2), R[1..], R);
        ClearKeepsSuffix(src, st2);
        SuffixTransitive(Remaining(src, st2.(nextLine := None)), Remaining(src, st2), R);
      } else {
        ClearKeepsSuffix(src, st1);
      }
    }
  }

  /** A well-formed first line with a valid timestamp becomes the row, and exactly that line is consumed. */
  lemma NextCleanLine(ld: Loader, src: Source, st: IterState)
    requires Valid(src, st) && Remaining(src, st) != []
    requires CleanRow(ld, Remaining(src, st)[0]).Some?
    ensures Next(ld, src, st).0 == Row(CleanRow(ld, Remaining(src, st)[0]).value)
    ensures Remaining(src, Next(ld, src, st).1) == Remaining(src, st)[1..]
    ensures Next(ld, src, st).1.nextLine.None?
  {
  }

  /**
   * A first line that fits the columns but cannot be turned into a row (a rejected
   * float literal or a bad timestamp) makes `next()` throw and stays in the buffer,
   * so every later `next()` throws the same way.
   */
  lemma NextStuck(ld: Loader, src: Source, st: IterState)
    requires Valid(src, st) && Remaining(src, st) != []
    requires !ParseRow(ld, Remaining(src, st)[0]).Malformed?
    requires CleanRow(ld, Remaining(src, st)[0]).None?
    ensures Next(ld, src, st).0.Threw?
    ensures Next(ld, src, st).1.nextLine == Some(Remaining(src, st)[0])
    ensures Remaining(src, Next(ld, src, st).1) == Remaining(src, st)
    ensures Next(ld, src, Next(ld, src, st).1) == Next(ld, src, st)
  {
  }

  /**
   * A malformed line followed by a clean one: the recursive call consumes the clean line
   * and its row is lost; the outer call returns a row with timestamp 1 and a null event,
   * or throws a NullPointerException when there is a timestamp column.
   */
  lemma NextMalformedThenClean(ld: Loader, src: Source, st: IterState)
    requires Valid(src, st) && |Remaining(src, st)| >= 2
    requires ParseRow(ld, Remaining(src, st)[0]).Malformed?
    requires CleanRow(ld, Remaining(src, st)[1]).Some?
    ensures Next(ld, src, st).0 ==
            if ld.timestampDimension.None? then Row(InputRow(1, ld.dimensions, None)) else Threw(NullPointer)
    ensures Remaining(src, Next(ld, src, st).1) == Remaining(src, st)[2..]
  {
    var R := Remaining(src, st);
    var st1 := Fetch(src, st);
    var cleared := st1.(nextLine := None);
    assert Remaining(src, cleared) == R[1..];
    NextCleanLine(ld, src, cleared);
  }

  /**
   * A malformed last line: at end of stream the recursive call parses null and throws a
   * NullPointerException; when the reader fails instead, that call returns null and the
   * outer call continues with a null map.
   */
  lemma NextMalformedLast(ld: Loader, src: Source, st: IterState)
    requires Valid(src, st) && |Remaining(src, st)| == 1
    requires ParseRow(ld, Remaining(src, st)[0]).Malformed?
    ensures src.ending == EndOfStream && !st.reader.closed ==> Next(ld, src, st).0 == Threw(NullPointer)
    ensures src.ending == ReadError || st.reader.closed ==>
            Next(ld, src, st).0 ==
            if ld.timestampDimension.None? then Row(InputRow(1, ld.dimensions, None)) else Threw(NullPointer)
    ensures Remaining(src, Next(ld, src, st).1) == []
  {
    var st1 := Fetch(src, st);
    var cleared := st1.(nextLine := None);
    assert Remaining(src, cleared) == [];
    assert Next(ld, src, st) == NextFetched(ld, src, st1);
    if src.ending == ReadError || st.reader.closed {
      assert Next(ld, src, cleared) == (NullRow, Close(cleared));
      assert Remaining(src, Close(cleared)) == [];
    } else {
      assert Next(ld, src, cleared) == (Threw(NullPointer), cleared);
    }
  }

  /**
   * Whatever follows a malformed first line, `next()` either throws or returns a row with
   * timestamp 1 and a null event, and always throws when there is a timestamp column;
   * when it returns, the recursive call has consumed at least the following line too.
   */
  lemma NextMalformedAny(ld: Loader, src: Source, st: IterState)
    requires Valid(src, st) && Remaining(src, st) != []
    requires ParseRow(ld, Remaining(src, st)[0]).Malformed?
    ensures Next(ld, src, st).0.Threw? || Next(ld, src, st).0 == Row(InputRow(1, ld.dimensions, None))
    ensures ld.timestampDimension.Some? ==> Next(ld, src, st).0.Threw?
    ensures !Next(ld, src, st).0.Threw? && |Remaining(src, st)| >= 2 ==>
            |Remaining(src, Next(ld, src, st).1)| <= |Remaining(src, st)| - 2
  {
    var R := Remaining(src, st);
    var st1 := Fetch(src, st);
    assert st1.nextLine == Some(R[0]);
    assert Next(ld, src, st) == NextFetched(ld, src, st1);
    var cleared := st1.(nextLine := None);
    assert Remaining(src, cleared) == R[1..];
    NextConsumes(ld, src, cleared);
    var (inner, st2) := Next(ld, src, cleared);
    assert NextFetched(ld, src, st1) == if inner.Threw? then (inner, st2) else Finish(ld, None, st2);
    ClearKeepsSuffix(src, st2);
  }

  /**
   * A malformed line followed by one that fits but cannot become a row: the recursive
   * call's exception escapes, and the following line stays buffered.
   */
  lemma NextMalformedThenStuck(ld: Loader, src: Source, st: IterState)
    requires Valid(src, st) && |Remaining(src, st)| >= 2
    requires ParseRow(ld, Remaining(src, st)[0]).Malformed?
    requires !ParseRow(ld, Remaining(src, st)[1]).Malformed?
    requires CleanRow(ld, Remaining(src, st)[1]).None?
    ensures Next(ld, src, st).0.Threw?
    ensures Next(ld, src, st).1.nextLine == Some(Remaining(src, st)[1])
    ensures Remaining(src, Next(ld, src, st).1) == Remaining(src, st)[1..]
  {
    var R := Remaining(src, st);
    var st1 := Fetch(src, st);
    assert Next(ld, src, st) == NextFetched(ld, src, st1);
    var cleared := st1.(nextLine := None);
    assert Remaining(src, cleared) == R[1..];
    NextStuck(ld, src, cleared);
  }

  /** With nothing buffered and a reader that fails or is closed, `next()` closes it and returns null. */
  lemma NextReadFails(ld: Loader, src: Source, st: IterState)
    requires Valid(src, st) && st.nextLine.None? && Unread(src, st.reader) == []
    requires src.ending == ReadError || st.reader.closed
    ensures Next(ld, src, st) == (NullRow, Close(st))
  {
  }

  /** `next()` with no line left and no `hasNext()` first: `parse(null)` throws. */
  lemma NextAtEndOfStream(ld: Loader, src: Source, st: IterState)
    requires Valid(src, st) && Remaining(src, st) == []
    requires src.ending == EndOfStream && !st.reader.closed
    ensures Next(ld, src, st) == (Threw(NullPointer), st)
  {
  }

  /** Once `hasNext()` has said false the reader is closed, and `next()` returns null. */
  lemma NextAfterExhausted(ld: Loader, src: Source, st: IterState)
    requires Valid(src, st) && !HasNext(src, st).0
    ensures Next(ld, src, HasNext(src, st).1) == (NullRow, HasNext(src, st).1)
  {
  }

  /** A second `hasNext()` reads nothing and gives the same answer. */
  lemma HasNextIdempotent(src: Source, st: IterState)
    requires Valid(src, st)
    ensures HasNext(src, HasNext(src, st).1) == HasNext(src, st)
  {
  }

  /** After `close()` only the buffered line, if any, is still handed out. */
  lemma CloseKeepsBuffer(src: Source, st: IterState)
    requires Valid(src, st)
    ensures Valid(src, Close(st))
    ensures Remaining(src, Close(st)) == if st.nextLine.Some? then [st.nextLine.value] else []
  {
  }

  /**
   * The for-each loop over the loader: `hasNext()` then `next()` until `hasNext()` is
   * false or `next()` throws; the outcomes in order, a thrown exception ending the loop.
   */
  function Drain(ld: Loader, src: Source, st: IterState): (outs: seq<NextOutcome>)
    requires Valid(src, st)
    ensures |outs| <= |Remaining(src, st)|
    ensures forall i :: 0 <= i < |outs| ==> !outs[i].NullRow?
    ensures forall i :: 0 <= i < |outs| - 1 ==> !outs[i].Threw?
    decreases |Remaining(src, st)|
  {
    var (more, st1) := HasNext(src, st);
    if !more then []
    else
      var (out, st2) := Next(ld, src, st1);
      if out.Threw? then [out]
      else
        NextConsumes(ld, src, st1);
        [out] + Drain(ld, src, st2)
  }

  /** The rows of a run of clean lines. */
  function CleanRows(ld: Loader, lines: seq<string>): seq<NextOutcome>
    requires forall i :: 0 <= i < |lines| ==> CleanRow(ld, lines[i]).Some?
  {
    if lines == [] then [] else [Row(CleanRow(ld, lines[0]).value)] + CleanRows(ld, lines[1..])
  }

  /** When every remaining line is clean, the loop yields one row per line, in line order. */
  lemma {:induction false} DrainClean(ld: Loader, src: Source, st: IterState)
    requires Valid(src, st)
    requires forall i :: 0 <= i < |Remaining(src, st)| ==> CleanRow(ld, Remaining(src, st)[i]).Some?
    ensures Drain(ld, src, st) == CleanRows(ld, Remaining(src, st))
    decreases |Remaining(src, st)|
  {
    var R := Remaining(src, st);
    var (more, st1) := HasNext(src, st);
    if more {
      NextCleanLine(ld, src, st1);
      var st2 := Next(ld, src, st1).1;
      assert Remaining(src, st2) == R[1..];
      DrainClean(ld, src, st2);
    }
  }
}
