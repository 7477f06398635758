/** Reading comma-separated values, frontend/src/lib/csv-parser.ts:18-76, against a printer that
    follows section 2 of RFC 4180 and may end each row but the last with any line break. */
module Csv {

  /** Where the parser stands: the rows and fields finished, and the field it is reading. */
  datatype State = State(rows: seq<seq<string>>, row: seq<string>, field: string, inQuotes: bool)

  const START := State([], [], "", false)

  function Add(st: State, c: char): State {
    st.(field := st.field + [c])
  }

  function EndField(st: State): State {
    st.(row := st.row + [st.field], field := "")
  }

  function EndRow(st: State): State {
    st.(rows := st.rows + [st.row + [st.field]], row := [], field := "")
  }

  /** The state after reading `s`. */
  function Scan(st: State, s: string): State
    decreases |s|
  {
    if s == "" then st
    else if s[0] == '"' then
      if st.inQuotes && |s| > 1 && s[1] == '"' then Scan(Add(st, '"'), s[2..])
      else Scan(st.(inQuotes := !st.inQuotes), s[1..])
    else if s[0] == ',' && !st.inQuotes then Scan(EndField(st), s[1..])
    else if (s[0] == '\n' || s[0] == '\r') && !st.inQuotes then
      if s[0] == '\r' && |s| > 1 && s[1] == '\n' then Scan(EndRow(st), s[2..])
      else Scan(EndRow(st), s[1..])
    else Scan(Add(st, s[0]), s[1..])
  }

  method ParseRows(csv: string) returns (rows: seq<seq<string>>)
    ensures rows == EndRow(Scan(START, csv)).rows
  {
    rows := [];
    var row: seq<string>, field, inQuotes := [], "", false;
    var i := 0;
    while i < |csv|
      invariant 0 <= i <= |csv|
      invariant Scan(State(rows, row, field, inQuotes), csv[i..]) == Scan(START, csv)
    {
      var rest := csv[i..];
      assert rest[1..] == csv[i + 1..] && (i + 1 < |csv| ==> rest[1] == csv[i + 1] && rest[2..] == csv[i + 2..]);
      var c := csv[i];
      if c == '"' {
        if inQuotes && i + 1 < |csv| && csv[i + 1] == '"' {
          field := field + ['"'];
          i := i + 1;
        } else {
          inQuotes := !inQuotes;
        }
      } else if c == ',' && !inQuotes {
        row, field := row + [field], "";
      } else if (c == '\n' || c == '\r') && !inQuotes {
        if c == '\r' && i + 1 < |csv| && csv[i + 1] == '\n' {
          i := i + 1;
        }
        rows, row, field := rows + [row + [field]], [], "";
      } else {
        field := field + [c];
      }
      i := i + 1;
    }
    rows := rows + [row + [field]];
  }

  datatype Break = CR | LF | CRLF

  /** A field to print, and whether it is put in quotes. */
  datatype Field = Field(text: string, quoted: bool)

  type Row = seq<Field>

  /** The characters that force a field into quotes. */
  predicate Special(c: char) {
    c == ',' || c == '"' || c == '\r' || c == '\n'
  }

  ghost predicate Printable(f: Field) {
    f.quoted || forall c :: c in f.text ==> !Special(c)
  }

  ghost predicate PrintableRow(row: Row) {
    row != [] && forall i :: 0 <= i < |row| ==> Printable(row[i])
  }

  ghost predicate PrintableRows(rows: seq<Row>) {
    rows != [] && forall i :: 0 <= i < |rows| ==> PrintableRow(rows[i])
  }

  function PrintBreak(b: Break): string {
    match b
    case CR => "\r"
    case LF => "\n"
    case CRLF => "\r\n"
  }

  function DoubleQuotes(s: string): string {
    if s == "" then ""
    else (if s[0] == '"' then ['"', '"'] else [s[0]]) + DoubleQuotes(s[1..])
  }

  function PrintField(f: Field): string {
    if f.quoted then ['"'] + DoubleQuotes(f.text) + ['"'] else f.text
  }

  function PrintRow(row: Row): string
    requires row != []
  {
    if |row| == 1 then PrintField(row[0]) else PrintField(row[0]) + "," + PrintRow(row[1..])
  }

  ghost function Print(rows: seq<Row>, breaks: seq<Break>): string
    requires PrintableRows(rows) && |breaks| == |rows| - 1
    decreases |rows|
  {
    assert PrintableRow(rows[0]);
    if |rows| == 1 then PrintRow(rows[0])
    else PrintRow(rows[0]) + PrintBreak(breaks[0]) + Print(rows[1..], breaks[1..])
  }

  function Texts(row: Row): (texts: seq<string>)
    ensures |texts| == |row|
  {
    if row == [] then [] else [row[0].text] + Texts(row[1..])
  }

  function AllTexts(rows: seq<Row>): (texts: seq<seq<string>>)
    ensures |texts| == |rows|
  {
    if rows == [] then [] else [Texts(rows[0])] + AllTexts(rows[1..])
  }

  predicate Blank(row: Row) {
    row == [Field("", false)]
  }

  /** A carriage return, a row printed as nothing and a line feed: read as one line break. */
  predicate Collides(rows: seq<Row>, breaks: seq<Break>, i: nat) {
    i + 1 < |breaks| < |rows| && breaks[i] == CR && Blank(rows[i + 1]) && breaks[i + 1] == LF
  }

  /** The rows without those swallowed by such a break. */
  function Kept(rows: seq<Row>, breaks: seq<Break>): seq<seq<string>>
    requires rows != [] && |breaks| == |rows| - 1
    decreases |rows|
  {
    if |rows| == 1 then [Texts(rows[0])]
    else if Collides(rows, breaks, 0) then [Texts(rows[0])] + Kept(rows[2..], breaks[2..])
    else [Texts(rows[0])] + Kept(rows[1..], breaks[1..])
  }

  /** Inside quotes, doubled quotes are read as themselves; anything else is copied. */
  lemma {:induction false} ScanQuoted(st: State, text: string, rest: string)
    requires st.inQuotes && (rest == "" || rest[0] != '"')
    ensures Scan(st, DoubleQuotes(text) + ['"'] + rest) == Scan(st.(field := st.field + text, inQuotes := false), rest)
    decreases |text|
  {
    var s := DoubleQuotes(text) + ['"'] + rest;
    if text == "" {
      assert s == ['"'] + rest && s[1..] == rest;
      assert st.field + text == st.field;
    } else {
      var tail := DoubleQuotes(text[1..]) + ['"'] + rest;
      if text[0] == '"' {
        assert s == ['"', '"'] + tail && s[2..] == tail;
      } else {
        assert s == [text[0]] + tail && s[1..] == tail;
      }
      ScanQuoted(Add(st, text[0]), text[1..], rest);
      assert st.field + [text[0]] + text[1..] == st.field + text;
    }
  }

  lemma {:induction false} ScanPlain(st: State, text: string, rest: string)
    requires !st.inQuotes && forall c :: c in text ==> !Special(c)
    ensures Scan(st, text + rest) == Scan(st.(field := st.field + text), rest)
    decreases |text|
  {
    if text == "" {
      assert text + rest == rest && st.field + text == st.field;
    } else {
      assert !Special(text[0]);
      assert (text + rest)[1..] == text[1..] + rest;
      ScanPlain(Add(st, text[0]), text[1..], rest);
      assert st.field + [text[0]] + text[1..] == st.field + text;
    }
  }

  /** A quote opens quotes wherever it stands in a field. */
  lemma QuoteOpens(st: State, text: string, rest: string)
    requires !st.inQuotes && forall c :: c in text ==> !Special(c)
    ensures Scan(st, text + (['"'] + rest)) == Scan(st.(field := st.field + text, inQuotes := true), rest)
  {
    ScanPlain(st, text, ['"'] + rest);
    assert (['"'] + rest)[1..] == rest;
  }

  lemma QuotedStep(st: State, text: string)
    requires st.inQuotes && text != ""
    ensures Scan(st, DoubleQuotes(text)) == Scan(Add(st, text[0]), DoubleQuotes(text[1..]))
  {
    var s, tail := DoubleQuotes(text), DoubleQuotes(text[1..]);
    if text[0] == '"' {
      assert s == ['"', '"'] + tail && s[2..] == tail;
    } else {
      assert s == [text[0]] + tail && s[1..] == tail;
    }
  }

  lemma {:induction false} ScanUnclosed(st: State, text: string)
    requires st.inQuotes
    ensures Scan(st, DoubleQuotes(text)) == st.(field := st.field + text)
    decreases |text|
  {
    if text == "" {
      assert st.field + text == st.field;
    } else {
      hide Scan, DoubleQuotes;
      QuotedStep(st, text);
      ScanUnclosed(Add(st, text[0]), text[1..]);
      assert st.field + [text[0]] + text[1..] == st.field + text;
    }
  }

  lemma OneMoreQuoted(c: char, more: string, s: string, after: string)
    requires s == (if c == '"' then ['"', '"'] else [c]) + after
    ensures forall tail :: after == DoubleQuotes(more) + tail ==> s == DoubleQuotes([c] + more) + tail
  {
    assert ([c] + more)[1..] == more;
  }

  /** What a text begun inside quotes is made of. */
  lemma {:induction false} QuotedParts(s: string) returns (text: string, rest: string, closed: bool)
    ensures s == DoubleQuotes(text) + if closed then ['"'] + rest else ""
    ensures closed ==> rest == "" || rest[0] != '"'
    decreases |s|
  {
    if s == "" {
      text, rest, closed := "", "", false;
    } else if s[0] == '"' && (|s| == 1 || s[1] != '"') {
      text, rest, closed := "", s[1..], true;
    } else {
      var after := if s[0] == '"' then s[2..] else s[1..];
      var more;
      more, rest, closed := QuotedParts(after);
      text := [s[0]] + more;
      OneMoreQuoted(s[0], more, s, after);
      hide DoubleQuotes;
      assert closed ==> s == DoubleQuotes(text) + (['"'] + rest);
    }
  }

  /** Whatever stands inside quotes is some text with its quotes doubled, up to the quote that closes it
      or, if there is none, to the end of the input; and the field takes that text. */
  lemma ReadInQuotes(st: State, s: string) returns (text: string, rest: string, closed: bool)
    requires st.inQuotes
    ensures s == DoubleQuotes(text) + if closed then ['"'] + rest else ""
    ensures Scan(st, s) ==
            if closed then Scan(st.(field := st.field + text, inQuotes := false), rest)
            else st.(field := st.field + text)
  {
    text, rest, closed := QuotedParts(s);
    hide Scan, DoubleQuotes;
    if closed {
      ScanQuoted(st, text, rest);
      assert s == DoubleQuotes(text) + ['"'] + rest;
    } else {
      ScanUnclosed(st, text);
      assert s == DoubleQuotes(text);
    }
  }

  lemma ScanField(st: State, f: Field, rest: string)
    requires Printable(f) && !st.inQuotes && st.field == "" && (rest == "" || rest[0] != '"')
    ensures Scan(st, PrintField(f) + rest) == Scan(st.(field := f.text), rest)
  {
    if f.quoted {
      var body := DoubleQuotes(f.text) + ['"'] + rest;
      assert PrintField(f) + rest == ['"'] + body && (PrintField(f) + rest)[1..] == body;
      ScanQuoted(st.(inQuotes := true), f.text, rest);
      assert "" + f.text == f.text;
    } else {
      ScanPlain(st, f.text, rest);
      assert "" + f.text == f.text;
    }
  }

  /** The state after reading a printed row: all its fields but the last are finished. */
  function AfterRow(st: State, row: Row): State
    requires row != []
    decreases |row|
  {
    if |row| == 1 then st.(field := row[0].text)
    else AfterRow(st.(row := st.row + [row[0].text]), row[1..])
  }

  lemma {:induction false} AfterRowEnds(st: State, row: Row)
    requires row != [] && st.field == ""
    ensures AfterRow(st, row).inQuotes == st.inQuotes
    ensures EndRow(AfterRow(st, row)) == State(st.rows + [st.row + Texts(row)], [], "", st.inQuotes)
    decreases |row|
  {
    if |row| == 1 {
      assert Texts(row) == [row[0].text];
    } else {
      AfterRowEnds(st.(row := st.row + [row[0].text]), row[1..]);
      assert st.row + [row[0].text] + Texts(row[1..]) == st.row + Texts(row);
    }
  }

  lemma ScanComma(st: State, rest: string)
    requires !st.inQuotes
    ensures Scan(st, "," + rest) == Scan(EndField(st), rest)
  {
    assert ("," + rest)[1..] == rest;
  }

  lemma {:induction false} ScanRow(st: State, row: Row, rest: string)
    requires PrintableRow(row) && !st.inQuotes && st.field == "" && (rest == "" || rest[0] != '"')
    ensures Scan(st, PrintRow(row) + rest) == Scan(AfterRow(st, row), rest)
    decreases |row|
  {
    hide Scan, PrintField, Printable;
    assert Printable(row[0]);
    if |row| == 1 {
      ScanField(st, row[0], rest);
    } else {
      var tail := PrintRow(row[1..]);
      ScanField(st, row[0], "," + (tail + rest));
      assert PrintRow(row) + rest == PrintField(row[0]) + ("," + (tail + rest));
      ScanComma(st.(field := row[0].text), tail + rest);
      ScanRow(st.(row := st.row + [row[0].text]), row[1..], rest);
    }
  }

  lemma ScanBreak(st: State, b: Break, rest: string)
    requires !st.inQuotes && !(b == CR && rest != "" && rest[0] == '\n')
    ensures Scan(st, PrintBreak(b) + rest) == Scan(EndRow(st), rest)
  {
    var s := PrintBreak(b) + rest;
    if b == CRLF {
      assert s[2..] == rest;
    } else {
      assert s[1..] == rest;
    }
  }

  /** A printed row never starts with a line break, and is nothing only when blank. */
  lemma RowStarts(row: Row)
    requires PrintableRow(row)
    ensures PrintRow(row) == "" <==> Blank(row)
    ensures PrintRow(row) != "" ==> PrintRow(row)[0] != '\n'
  {
    assert Printable(row[0]);
    if row[0].text != "" && !row[0].quoted {
      assert row[0].text[0] in row[0].text;
    }
    if |row| == 1 {
      assert row == [row[0]];
    }
  }

  lemma StartsWithLineFeed(rows: seq<Row>, breaks: seq<Break>)
    requires PrintableRows(rows) && |breaks| == |rows| - 1
    ensures (Print(rows, breaks) != "" && Print(rows, breaks)[0] == '\n') <==>
              |rows| > 1 && Blank(rows[0]) && breaks[0] == LF
  {
    assert PrintableRow(rows[0]);
    RowStarts(rows[0]);
  }

  /** What the parser makes of printed rows, from any state at the start of a row. */
  lemma {:induction false} ScanRows(st: State, rows: seq<Row>, breaks: seq<Break>)
    requires PrintableRows(rows) && |breaks| == |rows| - 1
    requires !st.inQuotes && st.field == "" && st.row == []
    ensures EndRow(Scan(st, Print(rows, breaks))).rows == st.rows + Kept(rows, breaks)
    decreases |rows|
  {
    hide Scan, PrintRow, AfterRow, Texts, Collides;
    assert PrintableRow(rows[0]);
    var st' := AfterRow(st, rows[0]);
    AfterRowEnds(st, rows[0]);
    assert [] + Texts(rows[0]) == Texts(rows[0]);
    if |rows| == 1 {
      ScanRow(st, rows[0], "");
      ScanNothing(st');
      assert PrintRow(rows[0]) + "" == PrintRow(rows[0]);
    } else {
      var next := Print(rows[1..], breaks[1..]);
      var rest := PrintBreak(breaks[0]) + next;
      ScanRow(st, rows[0], rest);
      assert Print(rows, breaks) == PrintRow(rows[0]) + rest;
      if Collides(rows, breaks, 0) {
        SwallowsBlank(st', rows, breaks);
        CollidesWithin(rows, breaks);
        ScanRows(EndRow(st'), rows[2..], breaks[2..]);
      } else {
        NoCollision(rows, breaks);
        ScanBreak(st', breaks[0], next);
        ScanRows(EndRow(st'), rows[1..], breaks[1..]);
      }
    }
  }

  lemma ScanNothing(st: State)
    ensures Scan(st, "") == st
  {}

  lemma CollidesWithin(rows: seq<Row>, breaks: seq<Break>)
    requires |breaks| == |rows| - 1 && Collides(rows, breaks, 0)
    ensures |rows| > 2
  {}

  lemma NoCollision(rows: seq<Row>, breaks: seq<Break>)
    requires PrintableRows(rows) && |breaks| == |rows| - 1 >= 1 && !Collides(rows, breaks, 0)
    ensures var next := Print(rows[1..], breaks[1..]);
            !(breaks[0] == CR && next != "" && next[0] == '\n')
  {
    StartsWithLineFeed(rows[1..], breaks[1..]);
  }

  lemma SwallowsBlank(st: State, rows: seq<Row>, breaks: seq<Break>)
    requires PrintableRows(rows) && |breaks| == |rows| - 1 && Collides(rows, breaks, 0) && !st.inQuotes
    ensures Scan(st, PrintBreak(breaks[0]) + Print(rows[1..], breaks[1..]))
            == Scan(EndRow(st), Print(rows[2..], breaks[2..]))
  {
    var after := Print(rows[2..], breaks[2..]);
    assert rows[1..][1..] == rows[2..] && breaks[1..][1..] == breaks[2..];
    assert Print(rows[1..], breaks[1..]) == "" + "\n" + after;
    assert "\r" + ("" + "\n" + after) == "\r\n" + after;
    ScanBreak(st, CRLF, after);
  }

  lemma {:induction false} KeptWithoutCollision(rows: seq<Row>, breaks: seq<Break>)
    requires rows != [] && |breaks| == |rows| - 1
    requires forall i: nat :: !Collides(rows, breaks, i)
    ensures Kept(rows, breaks) == AllTexts(rows)
    decreases |rows|
  {
    if |rows| > 1 {
      forall i: nat ensures !Collides(rows[1..], breaks[1..], i) {
        assert !Collides(rows, breaks, i + 1);
      }
      KeptWithoutCollision(rows[1..], breaks[1..]);
    }
  }

  lemma {:induction false} KeptIsNoLonger(rows: seq<Row>, breaks: seq<Break>)
    requires rows != [] && |breaks| == |rows| - 1
    ensures |Kept(rows, breaks)| <= |rows|
    decreases |rows|
  {
    if |rows| > 1 {
      if Collides(rows, breaks, 0) {
        KeptIsNoLonger(rows[2..], breaks[2..]);
      } else {
        KeptIsNoLonger(rows[1..], breaks[1..]);
      }
    }
  }

  lemma {:induction false} CollisionLosesRow(rows: seq<Row>, breaks: seq<Break>, i: nat)
    requires rows != [] && |breaks| == |rows| - 1 && Collides(rows, breaks, i)
    ensures |Kept(rows, breaks)| < |rows|
    decreases |rows|
  {
    if Collides(rows, breaks, 0) {
      KeptIsNoLonger(rows[2..], breaks[2..]);
    } else {
      assert Collides(rows[1..], breaks[1..], i - 1);
      CollisionLosesRow(rows[1..], breaks[1..], i - 1);
    }
  }

  /** The round trip: parsing gives back the rows exactly when no carriage return is followed by an
      unquoted empty row and a line feed; otherwise just those rows are missing. */
  lemma RoundTrip(rows: seq<Row>, breaks: seq<Break>)
    requires PrintableRows(rows) && |breaks| == |rows| - 1
    ensures EndRow(Scan(START, Print(rows, breaks))).rows == Kept(rows, breaks)
    ensures EndRow(Scan(START, Print(rows, breaks))).rows == AllTexts(rows) <==>
              forall i: nat :: !Collides(rows, breaks, i)
  {
    ScanRows(START, rows, breaks);
    if i: nat :| Collides(rows, breaks, i) {
      CollisionLosesRow(rows, breaks, i);
    } else {
      KeptWithoutCollision(rows, breaks);
    }
  }

  /** With one kind of break throughout, as RFC 4180 has it, nothing is ever lost. */
  lemma UniformBreaks(rows: seq<Row>, breaks: seq<Break>, b: Break)
    requires PrintableRows(rows) && |breaks| == |rows| - 1
    requires forall i :: 0 <= i < |breaks| ==> breaks[i] == b
    ensures EndRow(Scan(START, Print(rows, breaks))).rows == AllTexts(rows)
  {
    RoundTrip(rows, breaks);
  }

  /** Three rows, the middle one empty, of which two are read back. */
  lemma LostRow()
    ensures EndRow(Scan(START, Print([[Field("a", false)], [Field("", false)], [Field("b", false)]], [CR, LF]))).rows
            == [["a"], ["b"]]
  {
    var rows := [[Field("a", false)], [Field("", false)], [Field("b", false)]];
    RoundTrip(rows, [CR, LF]);
    assert Collides(rows, [CR, LF], 0);
    assert rows[2..] == [[Field("b", false)]];
    assert Texts([Field("a", false)]) == ["a"] && Texts([Field("b", false)]) == ["b"];
  }
}
