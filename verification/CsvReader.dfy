/** Reading comma-separated text: a reference decoder for section 2 of RFC 4180, and the
    import control's own reader (gui/csvimp.cpp), both against the exported text. */
module CsvReader {
  import opened Common
  import opened CsvFile
  import opened Decimal

  // ----- The reference decoder -----

  /** Where the decoder is: before a field, in an unquoted one, in a quoted one, or behind a
      quote inside a quoted one. */
  datatype Place = FieldStart | Plain | InQuotes | AfterQuote

  function Prepend(r: seq<string>, rest: Option<seq<seq<string>>>): Option<seq<seq<string>>> {
    if rest.Some? then Some([r] + rest.value) else None
  }

  /** Decodes s with the given partial field and partial record; `None` where the text breaks
      the grammar. The last line may lack its ending. */
  function Decode(s: string, at: Place, field: string, record: seq<string>): Option<seq<seq<string>>> {
    if s == "" then
      if at == InQuotes then None
      else if at == FieldStart && record == [] then Some([])
      else Some([record + [field]])
    else
      var c, rest := s[0], s[1..];
      match at
      case InQuotes =>
        if c == '"' then Decode(rest, AfterQuote, field, record) else Decode(rest, InQuotes, field + [c], record)
      case _ =>
        if c == ',' then Decode(rest, FieldStart, "", record + [field])
        else if c == '\n' then Prepend(record + [field], Decode(rest, FieldStart, "", []))
        else if c == '"' then
          if at == FieldStart then Decode(rest, InQuotes, "", record)
          else if at == AfterQuote then Decode(rest, InQuotes, field + ['"'], record)
          else None
        else if at == AfterQuote then None
        else Decode(rest, Plain, field + [c], record)
  }

  lemma {:induction false} DecodeBody(x: string, rest: string, field: string, record: seq<string>)
    ensures Decode(Double(x) + "\"" + rest, InQuotes, field, record) == Decode(rest, AfterQuote, field + x, record)
  {
    var s := Double(x) + "\"" + rest;
    if x == "" {
      assert s[1..] == rest && field + x == field;
    } else {
      DecodeBody(x[1..], rest, field + [x[0]], record);
      var tail := Double(x[1..]) + "\"" + rest;
      assert field + x == (field + [x[0]]) + x[1..];
      if x[0] == '"' {
        assert s[1..] == "\"" + tail && s[1..][1..] == tail;
      } else {
        assert s[1..] == tail;
      }
    }
  }

  lemma DecodeOpen(t: string, record: seq<string>)
    ensures Decode("\"" + t, FieldStart, "", record) == Decode(t, InQuotes, "", record)
  {
    assert ("\"" + t)[1..] == t;
  }

  lemma DecodeSeparator(c: char, rest: string, at: Place, field: string, record: seq<string>)
    requires (c == ',' || c == '\n') && at != InQuotes
    ensures Decode([c] + rest, at, field, record)
            == if c == ',' then Decode(rest, FieldStart, "", record + [field])
               else Prepend(record + [field], Decode(rest, FieldStart, "", []))
  {
    assert ([c] + rest)[1..] == rest;
  }

  /** A quoted cell decodes to itself, whatever it contains, in front of either separator. */
  lemma DecodeCell(x: string, c: char, rest: string, record: seq<string>)
    requires c == ',' || c == '\n'
    ensures Decode(CsvQuote(x) + [c] + rest, FieldStart, "", record)
            == if c == ',' then Decode(rest, FieldStart, "", record + [x])
               else Prepend(record + [x], Decode(rest, FieldStart, "", []))
  {
    if x == "" {
      assert CsvQuote(x) + [c] + rest == [c] + rest;
      DecodeSeparator(c, rest, FieldStart, "", record);
    } else {
      var t := Double(x) + "\"" + ([c] + rest);
      assert CsvQuote(x) + [c] + rest == "\"" + t;
      DecodeOpen(t, record);
      DecodeBody(x, [c] + rest, "", record);
      assert "" + x == x;
      DecodeSeparator(c, rest, AfterQuote, x, record);
    }
  }

  lemma LineFirst(cells: seq<string>, rest: string)
    requires cells != []
    ensures |cells| == 1 ==> Quoted(cells) + "\n" + rest == CsvQuote(cells[0]) + ['\n'] + rest
    ensures |cells| > 1 ==>
              Quoted(cells) + "\n" + rest == CsvQuote(cells[0]) + [','] + (Quoted(cells[1..]) + "\n" + rest)
  {
    if |cells| > 1 {
      Shift(CsvQuote(cells[0]) + ",", Quoted(cells[1..]), "\n", rest);
    }
  }

  lemma Shift(a: string, b: string, c: string, d: string)
    ensures a + b + c + d == a + (b + c + d)
  {
    Assoc(a, b, c);
    Assoc(a, b + c, d);
  }

  lemma {:induction false} DecodeLine(cells: seq<string>, rest: string, record: seq<string>)
    requires cells != []
    ensures Decode(Quoted(cells) + "\n" + rest, FieldStart, "", record)
            == Prepend(record + cells, Decode(rest, FieldStart, "", []))
    decreases |cells|
  {
    LineFirst(cells, rest);
    if |cells| == 1 {
      DecodeCell(cells[0], '\n', rest, record);
      assert cells == [cells[0]];
    } else {
      DecodeCell(cells[0], ',', Quoted(cells[1..]) + "\n" + rest, record);
      DecodeLine(cells[1..], rest, record + [cells[0]]);
      assert record + cells == (record + [cells[0]]) + cells[1..];
    }
  }

  /** Printed records decode to themselves. */
  lemma {:induction false} DecodeText(records: seq<seq<string>>)
    requires forall i :: 0 <= i < |records| ==> records[i] != []
    ensures Decode(Text(records), FieldStart, "", []) == Some(records)
  {
    if records != [] {
      DecodeLine(records[0], Text(records[1..]), []);
      DecodeText(records[1..]);
      assert [] + records[0] == records[0];
      assert records == [records[0]] + records[1..];
    }
  }

  /** The exported file obeys RFC 4180: it decodes to the header and one record per contact,
      each of 9 plus the largest number of phones cells. */
  lemma ExportDecodes(cards: seq<Card>)
    ensures Decode(Text(Records(cards)), FieldStart, "", []) == Some(Records(cards))
    ensures forall i :: 0 <= i < |Records(cards)| ==> |Records(cards)[i]| == 9 + MaxPhones(cards)
  {
    DecodeText(Records(cards));
  }

  /** No cell of a contact is lost in its record: the fixed fields, then every phone, then
      padding only. */
  lemma RecordHoldsContact(cards: seq<Card>, i: nat)
    requires i < |cards|
    ensures var r := Records(cards)[i + 1];
            && |cards[i].phones| <= MaxPhones(cards) && r[..9] == Fixed(cards[i])
            && r[9..9 + |cards[i].phones|] == cards[i].phones
            && forall j :: 9 + |cards[i].phones| <= j < |r| ==> r[j] == ""
  {
    MaxPhonesCovers(cards, i);
    var c := cards[i];
    assert Records(cards)[i + 1] == Cells(c, MaxPhones(cards));
    assert Cells(c, MaxPhones(cards))[9..9 + |c.phones|] == c.phones;
  }

  /** Each column is headed by its name. */
  lemma ColumnsAreNamed(cards: seq<Card>, i: nat)
    requires i < |cards|
    ensures var h, r, c := Records(cards)[0], Records(cards)[i + 1], cards[i];
            && |h| == |r| && |h| >= 9
            && h[0] == "FN" && r[0] == c.fn && h[1] == "MN" && r[1] == c.mn && h[2] == "LN" && r[2] == c.ln
            && h[3] == "NN" && r[3] == c.nn && h[4] == "Title" && r[4] == c.title && h[5] == "SN" && r[5] == c.sn
            && h[6] == "Email" && r[6] == c.email && h[7] == "Organization" && r[7] == c.organization
            && h[8] == "Image" && r[8] == c.image
  {
    CellsShape(cards[i], MaxPhones(cards));
    assert FIXED_NAMES[..] == Header(MaxPhones(cards))[..9];
    var fixed := Records(cards)[i + 1][..9];
    assert fixed == Fixed(cards[i]);
    assert forall j :: 0 <= j < 9 ==> fixed[j] == Records(cards)[i + 1][j];
  }

  /** Phone columns are numbered from zero, with at least two digits. */
  lemma PhoneColumnNames()
    ensures TelName(0) == "TelNumber00" && TelName(9) == "TelNumber09"
    ensures TelName(10) == "TelNumber10" && TelName(100) == "TelNumber100"
  {
    assert Dec(10) == Dec(1) + [Digit(0)] && Dec(100) == Dec(10) + [Digit(0)];
    assert Dec(1) == "1" && Dec(0) == "0" && Dec(9) == "9";
  }

  lemma {:induction false} MaxPhonesCovers(cards: seq<Card>, i: nat)
    requires i < |cards|
    ensures |cards[i].phones| <= MaxPhones(cards)
    decreases |cards|
  {
    if i < |cards| - 1 {
      MaxPhonesCovers(cards[..|cards| - 1], i);
    }
  }

  // ----- The import control's reader -----

  /** Separator, quoting on or off, quote character. */
  datatype Format = Format(separator: char, quoted: bool, quote: char)

  /** What one `readLine` leaves: whether the line was ended by a newline, the collected
      characters, the separator positions and the unread text. */
  datatype Line = Line(ok: bool, line: string, delims: seq<nat>, rest: string)

  function ReadFrom(f: Format, s: string, inString: bool, line: string, delims: seq<nat>): Line {
    if s == "" || s[0] == '\0' then Line(false, line, delims, s)
    else
      var c, rest := s[0], s[1..];
      if f.quoted && c == f.quote then ReadFrom(f, rest, !inString, line, delims)
      else if c == '\n' then
        if f.quoted && inString then ReadFrom(f, rest, inString, line + [c], delims)
        else Line(true, line, delims, rest)
      else if c == f.separator && !(f.quoted && inString) then
        ReadFrom(f, rest, inString, line + [c], delims + [|line|])
      else ReadFrom(f, rest, inString, line + [c], delims)
  }

  function ReadLine(f: Format, s: string): Line {
    ReadFrom(f, s, false, "", [])
  }

  function Start(delims: seq<nat>, i: nat): nat
    requires i <= |delims|
  {
    if i == 0 then 0 else delims[i - 1] + 1
  }

  /** The positions are those of characters in the line, in increasing order. */
  ghost predicate DelimsOk(line: string, delims: seq<nat>) {
    && (forall i :: 0 <= i < |delims| ==> Start(delims, i) <= delims[i] < |line|)
    && Start(delims, |delims|) <= |line|
  }

  function Piece(line: string, delims: seq<nat>, i: nat): string
    requires DelimsOk(line, delims) && i < |delims|
  {
    line[Start(delims, i)..delims[i]]
  }

  function Pieces(line: string, delims: seq<nat>): seq<string>
    requires DelimsOk(line, delims)
  {
    seq(|delims|, i requires 0 <= i < |delims| => Piece(line, delims, i))
  }

  /** The columns of a line; nothing is added for an empty remainder. */
  function Columns(line: string, delims: seq<nat>): seq<string>
    requires DelimsOk(line, delims)
  {
    var tail := line[Start(delims, |delims|)..];
    Pieces(line, delims) + (if tail != "" then [tail] else [])
  }

  lemma {:induction false} ReadKeepsDelims(f: Format, s: string, inString: bool, line: string, delims: seq<nat>)
    requires DelimsOk(line, delims)
    ensures var r := ReadFrom(f, s, inString, line, delims);
            DelimsOk(r.line, r.delims) && (r.ok ==> |r.rest| < |s|) && |r.rest| <= |s|
    decreases |s|
  {
    if s == "" || s[0] == '\0' {
    } else {
      var c, rest := s[0], s[1..];
      if f.quoted && c == f.quote {
        ReadKeepsDelims(f, rest, !inString, line, delims);
      } else if c == '\n' {
        if f.quoted && inString {
          ReadKeepsDelims(f, rest, inString, line + [c], delims);
        }
      } else if c == f.separator && !(f.quoted && inString) {
        OneMoreDelim(line, delims, c);
        ReadKeepsDelims(f, rest, inString, line + [c], delims + [|line|]);
      } else {
        ReadKeepsDelims(f, rest, inString, line + [c], delims);
      }
    }
  }

  lemma OneMoreDelim(line: string, delims: seq<nat>, c: char)
    requires DelimsOk(line, delims)
    ensures DelimsOk(line + [c], delims + [|line|])
    ensures forall i :: 0 <= i < |delims| ==> Start(delims + [|line|], i) == Start(delims, i)
  {
    var more := delims + [|line|];
    forall i | 0 <= i <= |delims| ensures Start(more, i) == Start(delims, i) {
      assert i > 0 ==> more[i - 1] == delims[i - 1];
    }
  }

  /** The rows that `loadFile` shows; the first `offset` lines are skipped, and a last line
      without an ending is not a row. */
  function Rows(f: Format, s: string, offset: int): seq<seq<string>>
    decreases |s|
  {
    ReadKeepsDelims(f, s, false, "", []);
    var r := ReadLine(f, s);
    if !r.ok then []
    else (if offset <= 0 then [Columns(r.line, r.delims)] else [])
         + Rows(f, r.rest, if offset <= 0 then offset else offset - 1)
  }

  // ----- Reading what was exported -----

  function DeleteQuotes(s: string): string {
    if s == "" then "" else (if s[0] == '"' then "" else [s[0]]) + DeleteQuotes(s[1..])
  }

  function DeleteAll(cells: seq<string>): seq<string> {
    seq(|cells|, i requires 0 <= i < |cells| => DeleteQuotes(cells[i]))
  }

  function DropEmptyLast(cells: seq<string>): seq<string>
    requires cells != []
  {
    if cells[|cells| - 1] == "" then cells[..|cells| - 1] else cells
  }

  predicate NoNul(s: string) {
    forall i :: 0 <= i < |s| ==> s[i] != '\0'
  }

  const CSV := Format(',', true, '"')

  lemma ReadPlain(c: char, rest: string, line: string, delims: seq<nat>)
    requires c != '"' && c != '\0'
    ensures ReadFrom(CSV, [c] + rest, true, line, delims) == ReadFrom(CSV, rest, true, line + [c], delims)
  {
    assert ([c] + rest)[1..] == rest;
  }

  lemma ReadQuote(rest: string, inString: bool, line: string, delims: seq<nat>)
    ensures ReadFrom(CSV, "\"" + rest, inString, line, delims) == ReadFrom(CSV, rest, !inString, line, delims)
  {
    assert ("\"" + rest)[1..] == rest;
  }

  lemma BodyFirst(x: string, rest: string)
    requires x != ""
    ensures x[0] == '"' ==> Double(x) + "\"" + rest == "\"" + ("\"" + (Double(x[1..]) + "\"" + rest))
    ensures x[0] != '"' ==> Double(x) + "\"" + rest == [x[0]] + (Double(x[1..]) + "\"" + rest)
  {
    var d := Double(x[1..]);
    if x[0] == '"' {
      Shift("\"\"", d, "\"", rest);
      assert "\"\"" == "\"" + "\"";
      Assoc("\"", "\"", d + "\"" + rest);
    } else {
      Shift([x[0]], d, "\"", rest);
    }
  }

  lemma {:induction false} ReadBody(x: string, rest: string, line: string, delims: seq<nat>)
    requires NoNul(x)
    ensures ReadFrom(CSV, Double(x) + "\"" + rest, true, line, delims)
            == ReadFrom(CSV, rest, false, line + DeleteQuotes(x), delims)
  {
    if x == "" {
      assert Double(x) + "\"" + rest == "\"" + rest && line + "" == line;
      ReadQuote(rest, true, line, delims);
    } else {
      BodyFirst(x, rest);
      var tail := Double(x[1..]) + "\"" + rest;
      if x[0] == '"' {
        ReadTwoQuotes(tail, line, delims);
        ReadBody(x[1..], rest, line, delims);
      } else {
        ReadPlain(x[0], tail, line, delims);
        ReadBody(x[1..], rest, line + [x[0]], delims);
        Assoc(line, [x[0]], DeleteQuotes(x[1..]));
      }
      DeleteFirst(x);
    }
  }

  lemma ReadTwoQuotes(tail: string, line: string, delims: seq<nat>)
    ensures ReadFrom(CSV, "\"" + ("\"" + tail), true, line, delims) == ReadFrom(CSV, tail, true, line, delims)
  {
    ReadQuote("\"" + tail, true, line, delims);
    ReadQuote(tail, false, line, delims);
  }

  lemma DeleteFirst(x: string)
    requires x != ""
    ensures DeleteQuotes(x) == if x[0] == '"' then DeleteQuotes(x[1..]) else [x[0]] + DeleteQuotes(x[1..])
  {
  }

  /** A quoted cell adds its characters other than quotes, and no separator position. */
  lemma ReadCell(x: string, rest: string, line: string, delims: seq<nat>)
    requires NoNul(x)
    ensures ReadFrom(CSV, CsvQuote(x) + rest, false, line, delims)
            == ReadFrom(CSV, rest, false, line + DeleteQuotes(x), delims)
  {
    if x == "" {
      assert CsvQuote(x) + rest == rest && line + "" == line;
    } else {
      assert CsvQuote(x) + rest == "\"" + (Double(x) + "\"" + rest);
      ReadQuote(Double(x) + "\"" + rest, false, line, delims);
      ReadBody(x, rest, line, delims);
    }
  }

  /** The line so far consists of the given cells, each with a separator behind it. */
  ghost predicate Cut(line: string, delims: seq<nat>, cells: seq<string>) {
    && DelimsOk(line, delims) && |delims| == |cells| && Start(delims, |delims|) == |line|
    && forall i :: 0 <= i < |cells| ==> Piece(line, delims, i) == cells[i]
  }

  lemma CutMore(line: string, delims: seq<nat>, cells: seq<string>, x: string, c: char)
    requires Cut(line, delims, cells)
    ensures Cut(line + x + [c], delims + [|line + x|], cells + [x])
  {
    DelimsGrow(line, delims, x);
    OneMoreDelim(line + x, delims, c);
    forall i | 0 <= i < |cells| + 1
      ensures Piece(line + x + [c], delims + [|line + x|], i) == (cells + [x])[i]
    {
      CutPiece(line, delims, cells, x, c, i);
    }
  }

  lemma CutPiece(line: string, delims: seq<nat>, cells: seq<string>, x: string, c: char, i: nat)
    requires Cut(line, delims, cells) && i < |cells| + 1
    requires DelimsOk(line + x + [c], delims + [|line + x|])
    ensures Piece(line + x + [c], delims + [|line + x|], i) == (cells + [x])[i]
  {
    if i < |cells| {
      EarlierPiece(line, delims, x, c, i);
    } else {
      LastPiece(line, x, [c]);
    }
  }

  lemma EarlierPiece(line: string, delims: seq<nat>, x: string, c: char, i: nat)
    requires DelimsOk(line, delims) && i < |delims|
    requires DelimsOk(line + x + [c], delims + [|line + x|])
    ensures Piece(line + x + [c], delims + [|line + x|], i) == Piece(line, delims, i)
  {
    PieceGrows(line, x + [c], Start(delims, i), delims[i]);
    Assoc(line, x, [c]);
  }

  lemma LastPiece(line: string, x: string, c: string)
    ensures (line + x + c)[|line|..|line + x|] == x
  {
  }

  lemma PieceGrows(line: string, more: string, from: nat, to: nat)
    requires from <= to <= |line|
    ensures (line + more)[from..to] == line[from..to]
  {
  }

  lemma DelimsGrow(line: string, delims: seq<nat>, x: string)
    requires DelimsOk(line, delims)
    ensures DelimsOk(line + x, delims)
  {
  }

  lemma CutColumns(line: string, delims: seq<nat>, cells: seq<string>, x: string)
    requires Cut(line, delims, cells)
    ensures DelimsOk(line + x, delims) && Columns(line + x, delims) == DropEmptyLast(cells + [x])
  {
    DelimsGrow(line, delims, x);
    assert (line + x)[Start(delims, |delims|)..] == x;
    forall i | 0 <= i < |cells| ensures Piece(line + x, delims, i) == cells[i] {
      assert Piece(line + x, delims, i) == Piece(line, delims, i);
    }
    assert (cells + [x])[..|cells|] == cells;
    assert Pieces(line + x, delims) == cells;
    assert cells + [] == cells;
  }

  lemma ReadComma(rest: string, line: string, delims: seq<nat>)
    ensures ReadFrom(CSV, "," + rest, false, line, delims) == ReadFrom(CSV, rest, false, line + ",", delims + [|line|])
  {
    assert ("," + rest)[1..] == rest;
  }

  lemma ReadNewline(rest: string, line: string, delims: seq<nat>)
    ensures ReadFrom(CSV, "\n" + rest, false, line, delims) == Line(true, line, delims, rest)
  {
    assert ("\n" + rest)[1..] == rest;
  }

  /** The reader stops behind the line, and its columns are the expected ones. */
  ghost predicate Reads(r: Line, rest: string, columns: seq<string>) {
    r.ok && r.rest == rest && DelimsOk(r.line, r.delims) && Columns(r.line, r.delims) == columns
  }

  lemma ReadsLastCell(x: string, rest: string, line: string, delims: seq<nat>, before: seq<string>)
    requires NoNul(x) && Cut(line, delims, before)
    ensures Reads(ReadFrom(CSV, CsvQuote(x) + ("\n" + rest), false, line, delims), rest,
                  DropEmptyLast(before + [DeleteQuotes(x)]))
  {
    ReadCell(x, "\n" + rest, line, delims);
    ReadNewline(rest, line + DeleteQuotes(x), delims);
    CutColumns(line, delims, before, DeleteQuotes(x));
  }

  lemma ReadsInnerCell(x: string, tail: string, line: string, delims: seq<nat>, before: seq<string>)
    requires NoNul(x) && Cut(line, delims, before)
    ensures var y := DeleteQuotes(x);
            && ReadFrom(CSV, CsvQuote(x) + ("," + tail), false, line, delims)
               == ReadFrom(CSV, tail, false, line + y + ",", delims + [|line + y|])
            && Cut(line + y + ",", delims + [|line + y|], before + [y])
  {
    ReadCell(x, "," + tail, line, delims);
    ReadComma(tail, line + DeleteQuotes(x), delims);
    CutMore(line, delims, before, DeleteQuotes(x), ',');
    assert [','] == ",";
  }

  lemma DeleteAllFirst(cells: seq<string>, before: seq<string>)
    requires cells != []
    ensures before + DeleteAll(cells) == (before + [DeleteQuotes(cells[0])]) + DeleteAll(cells[1..])
    ensures |cells| == 1 ==> before + DeleteAll(cells) == before + [DeleteQuotes(cells[0])]
  {
  }

  /** One exported line: the columns are the cells without quotes and without an empty last
      one. */
  lemma {:induction false} ReadsLine(cells: seq<string>, rest: string, line: string, delims: seq<nat>,
                                     before: seq<string>)
    requires cells != [] && (forall i :: 0 <= i < |cells| ==> NoNul(cells[i])) && Cut(line, delims, before)
    ensures Reads(ReadFrom(CSV, Quoted(cells) + "\n" + rest, false, line, delims), rest,
                  DropEmptyLast(before + DeleteAll(cells)))
    decreases |cells|
  {
    var x, y := cells[0], DeleteQuotes(cells[0]);
    DeleteAllFirst(cells, before);
    LineFirst(cells, rest);
    if |cells| == 1 {
      Assoc(CsvQuote(x), "\n", rest);
      ReadsLastCell(x, rest, line, delims, before);
    } else {
      var tail := Quoted(cells[1..]) + "\n" + rest;
      Assoc(CsvQuote(x), ",", tail);
      ReadsInnerCell(x, tail, line, delims, before);
      ReadsLine(cells[1..], rest, line + y + ",", delims + [|line + y|], before + [y]);
    }
  }

  lemma RowsStep(cells: seq<string>, rest: string, offset: int)
    requires cells != [] && (forall i :: 0 <= i < |cells| ==> NoNul(cells[i]))
    ensures Rows(CSV, Quoted(cells) + "\n" + rest, offset)
            == if offset <= 0 then [DropEmptyLast(DeleteAll(cells))] + Rows(CSV, rest, offset)
               else Rows(CSV, rest, offset - 1)
  {
    ReadsLine(cells, rest, "", [], []);
    assert [] + DeleteAll(cells) == DeleteAll(cells);
    assert [] + Rows(CSV, rest, offset - 1) == Rows(CSV, rest, offset - 1);
  }

  lemma {:induction false} ReadsText(records: seq<seq<string>>)
    requires forall i :: 0 <= i < |records| ==> records[i] != []
    requires forall i, j :: 0 <= i < |records| && 0 <= j < |records[i]| ==> NoNul(records[i][j])
    ensures var rows := Rows(CSV, Text(records), 0);
            |rows| == |records| && forall i :: 0 <= i < |rows| ==> rows[i] == DropEmptyLast(DeleteAll(records[i]))
  {
    if records != [] {
      RowsStep(records[0], Text(records[1..]), 0);
      ReadsText(records[1..]);
    }
  }

  /** Reading an export back, header skipped, gives one row per contact: its cells with the
      quote characters deleted and an empty last cell dropped. */
  lemma ImportOfExport(cards: seq<Card>)
    requires forall i, j :: 1 <= i < |Records(cards)| && 0 <= j < |Records(cards)[i]| ==> NoNul(Records(cards)[i][j])
    ensures var rows := Rows(CSV, Text(Records(cards)), 1);
            && |rows| == |cards|
            && forall i :: 0 <= i < |cards| ==> rows[i] == DropEmptyLast(DeleteAll(Records(cards)[i + 1]))
  {
    var all := Records(cards);
    HeaderIsSkipped(cards);
    ReadsText(all[1..]);
  }

  lemma HeaderIsSkipped(cards: seq<Card>)
    ensures |Records(cards)| == |cards| + 1 && (forall i :: 0 <= i < |Records(cards)| ==> Records(cards)[i] != [])
    ensures Rows(CSV, Text(Records(cards)), 1) == Rows(CSV, Text(Records(cards)[1..]), 0)
  {
    var all := Records(cards);
    forall j | 0 <= j < |all[0]| ensures NoNul(all[0][j]) {
      HeaderNoNul(MaxPhones(cards), j);
    }
    RowsStep(all[0], Text(all[1..]), 1);
  }

  lemma HeaderNoNul(numTel: nat, j: nat)
    requires j < 9 + numTel
    ensures NoNul(Header(numTel)[j])
  {
    if j < 9 {
      assert NoNul("FN") && NoNul("MN") && NoNul("LN") && NoNul("NN") && NoNul("Title");
      assert NoNul("SN") && NoNul("Email") && NoNul("Organization") && NoNul("Image");
    } else {
      TelNameNoNul(j - 9);
    }
  }

  lemma TelNameNoNul(i: nat)
    ensures NoNul(TelName(i))
  {
    DecIsDigits(i);
  }

  lemma {:induction false} DeleteQuotesShortens(s: string)
    ensures |DeleteQuotes(s)| <= |s|
    ensures DeleteQuotes(s) == s <==> NoQuote(s)
    ensures |DeleteQuotes(s)| == |s| ==> DeleteQuotes(s) == s
  {
    if s != "" {
      DeleteQuotesShortens(s[1..]);
      assert NoQuote(s) <==> s[0] != '"' && NoQuote(s[1..]);
      assert s == [s[0]] + s[1..];
    }
  }

  /** A record survives the import unchanged if and only if no cell of it contains a quote
      and its last cell is not empty. */
  lemma RowIntactIff(cells: seq<string>)
    requires cells != []
    ensures DropEmptyLast(DeleteAll(cells)) == cells
            <==> (forall i :: 0 <= i < |cells| ==> NoQuote(cells[i])) && cells[|cells| - 1] != ""
  {
    var d := DeleteAll(cells);
    forall i | 0 <= i < |cells| ensures d[i] == cells[i] <==> NoQuote(cells[i]) {
      DeleteQuotesShortens(cells[i]);
    }
    if DropEmptyLast(d) == cells {
      assert |DropEmptyLast(d)| == |d|;
    }
    if forall i :: 0 <= i < |cells| ==> NoQuote(cells[i]) {
      assert d == cells;
    }
  }

  /** A cell as the control shows it and the import reads it: a missing column is empty. */
  function CellAt(row: seq<string>, column: nat): string {
    if column < |row| then row[column] else ""
  }

  /** Cell by cell, only the quotes are lost: the dropped last cell was empty, and reads as
      empty. */
  lemma CellsReadBack(cells: seq<string>)
    requires cells != []
    ensures forall j :: 0 <= j < |cells| ==> CellAt(DropEmptyLast(DeleteAll(cells)), j) == DeleteQuotes(cells[j])
  {
  }

  /** So a contact comes back from export and import with every cell as it was written if and
      only if none of them contains a quote. */
  lemma ContactIntactIff(cards: seq<Card>, i: nat)
    requires forall i, j :: 1 <= i < |Records(cards)| && 0 <= j < |Records(cards)[i]| ==> NoNul(Records(cards)[i][j])
    requires i < |cards|
    ensures var rows, r := Rows(CSV, Text(Records(cards)), 1), Records(cards)[i + 1];
            && |rows| == |cards| && |rows[i]| <= |r|
            && ((forall j :: 0 <= j < |r| ==> CellAt(rows[i], j) == r[j])
                <==> (forall j :: 0 <= j < |r| ==> NoQuote(r[j])))
  {
    ImportOfExport(cards);
    var r := Records(cards)[i + 1];
    CellsReadBack(r);
    forall j | 0 <= j < |r| ensures DeleteQuotes(r[j]) == r[j] <==> NoQuote(r[j]) {
      DeleteQuotesShortens(r[j]);
    }
  }

  /** A contact with a nickname in quotes loses them. */
  lemma QuotesAreLost()
    ensures var joe := Card("Joe \"J\"", "", "Doe", "", "", "", "", "", "", []);
            var rows := Rows(CSV, Text(Records([joe])), 1);
            |rows| == 1 && CellAt(rows[0], 0) == "Joe J" && CellAt(rows[0], 2) == "Doe"
  {
    var joe := Card("Joe \"J\"", "", "Doe", "", "", "", "", "", "", []);
    var r := Records([joe])[1];
    assert r[..9] == Fixed(joe) && |r| == 9 by {
      RecordHoldsContact([joe], 0);
      ExportDecodes([joe]);
    }
    assert r[0] == Fixed(joe)[0] && r[2] == Fixed(joe)[2];
    JoeHasNoNul(joe, r);
    ImportOfExport([joe]);
    CellsReadBack(r);
    JoeWithoutQuotes();
  }

  lemma JoeHasNoNul(joe: Card, r: seq<string>)
    requires joe == Card("Joe \"J\"", "", "Doe", "", "", "", "", "", "", []) && r == Fixed(joe)
    ensures forall j :: 0 <= j < |r| ==> NoNul(r[j])
  {
    assert NoNul("Joe \"J\"") && NoNul("Doe") && NoNul("");
  }

  lemma JoeWithoutQuotes()
    ensures DeleteQuotes("Joe \"J\"") == "Joe J" && DeleteQuotes("Doe") == "Doe"
  {
    assert DeleteQuotes("\"") == "" by { assert "\""[1..] == ""; }
    DeleteStep("J\"");
    DeleteStep("\"J\"");
    DeleteStep(" \"J\"");
    DeleteStep("e \"J\"");
    DeleteStep("oe \"J\"");
    DeleteStep("Joe \"J\"");
    DeleteQuotesShortens("Doe");
  }

  lemma DeleteStep(s: string)
    requires s != ""
    ensures DeleteQuotes(s) == (if s[0] == '"' then "" else [s[0]]) + DeleteQuotes(s[1..])
  {
  }

  // ----- The last line -----

  /** The text that the loading loop leaves unread: it belongs to no row. */
  function Unread(f: Format, s: string): string
    decreases |s|
  {
    ReadKeepsDelims(f, s, false, "", []);
    var r := ReadLine(f, s);
    if r.ok then Unread(f, r.rest) else s
  }

  /** Whether s holds an odd number of c. */
  function Odd(s: string, c: char): bool {
    s != "" && (s[0] == c) != Odd(s[1..], c)
  }

  /** Read from inside or outside a string, s ends with a newline that is not inside one. */
  predicate Ended(f: Format, s: string, inString: bool) {
    s != "" && s[|s| - 1] == '\n' && (f.quoted ==> f.quote != '\n' && Odd(s, f.quote) == inString)
  }

  lemma EndedLater(f: Format, s: string, inString: bool)
    requires |s| > 1
    ensures Ended(f, s, inString) <==> Ended(f, s[1..], inString != (f.quoted && s[0] == f.quote))
  {
  }

  lemma EndedAlone(f: Format, s: string, inString: bool)
    requires |s| == 1
    ensures Ended(f, s, inString) <==> s[0] == '\n' && (f.quoted ==> f.quote != '\n' && !inString)
  {
    assert s[1..] == "" && !Odd("", f.quote);
    assert Odd(s, f.quote) == (s[0] == f.quote);
  }

  /** A line that is read ends the text just if the text ends there or the remainder does; a
      line that cannot be read is not ended. */
  lemma {:induction false} ReadsToEnd(f: Format, s: string, inString: bool, line: string, delims: seq<nat>)
    requires NoNul(s)
    ensures var r := ReadFrom(f, s, inString, line, delims);
            && NoNul(r.rest)
            && (r.ok ==> |r.rest| < |s| && (Ended(f, s, inString) <==> r.rest == "" || Ended(f, r.rest, false)))
            && (!r.ok ==> !Ended(f, s, inString))
    decreases |s|
  {
    if s != "" {
      var c, rest := s[0], s[1..];
      if |s| > 1 {
        EndedLater(f, s, inString);
      } else {
        EndedAlone(f, s, inString);
      }
      if f.quoted && c == f.quote {
        ReadsToEnd(f, rest, !inString, line, delims);
      } else if c == '\n' {
        if f.quoted && inString {
          ReadsToEnd(f, rest, inString, line + [c], delims);
        }
      } else if c == f.separator && !(f.quoted && inString) {
        ReadsToEnd(f, rest, inString, line + [c], delims + [|line|]);
      } else {
        ReadsToEnd(f, rest, inString, line + [c], delims);
      }
    }
  }

  /** What one character does inside a line. */
  function Take(f: Format, c: char, inString: bool, line: string, delims: seq<nat>): (bool, string, seq<nat>) {
    if f.quoted && c == f.quote then (!inString, line, delims)
    else if c == f.separator && c != '\n' && !(f.quoted && inString) then (inString, line + [c], delims + [|line|])
    else (inString, line + [c], delims)
  }

  predicate Breaks(f: Format, c: char, inString: bool) {
    c == '\n' && !(f.quoted && inString) && !(f.quoted && f.quote == '\n')
  }

  lemma TakeOne(f: Format, s: string, inString: bool, line: string, delims: seq<nat>)
    requires s != "" && s[0] != '\0'
    ensures Breaks(f, s[0], inString) ==> ReadFrom(f, s, inString, line, delims) == Line(true, line, delims, s[1..])
    ensures !Breaks(f, s[0], inString) ==>
              var (b, l, d) := Take(f, s[0], inString, line, delims);
              ReadFrom(f, s, inString, line, delims) == ReadFrom(f, s[1..], b, l, d)
  {
  }

  /** A line is read in the same way whatever comes behind it. */
  lemma {:induction false} ReadIgnoresRest(f: Format, s: string, inString: bool, line: string, delims: seq<nat>,
                                           x: string)
    requires ReadFrom(f, s, inString, line, delims).ok
    ensures var r := ReadFrom(f, s, inString, line, delims);
            && |r.rest| < |s| && s[|s| - |r.rest|..] == r.rest
            && ReadFrom(f, s[..|s| - |r.rest|] + x, inString, line, delims) == r.(rest := x)
    decreases |s|
  {
    TakeOne(f, s, inString, line, delims);
    var n := |ReadFrom(f, s, inString, line, delims).rest|;
    if !Breaks(f, s[0], inString) {
      var (b, l, d) := Take(f, s[0], inString, line, delims);
      ReadIgnoresRest(f, s[1..], b, l, d, x);
    } else {
      assert s[1..][..0] + x == x;
    }
    FirstStays(s, n, x);
    TakeOne(f, s[..|s| - n] + x, inString, line, delims);
  }

  lemma FirstStays(s: string, n: nat, x: string)
    requires s != "" && n <= |s| - 1
    ensures s[|s| - n..] == s[1..][|s| - 1 - n..]
    ensures (s[..|s| - n] + x)[0] == s[0] && (s[..|s| - n] + x)[1..] == s[1..][..|s| - 1 - n] + x
  {
  }

  /** The text in front of the unread one. */
  function ReadPart(f: Format, s: string): string
    decreases |s|
  {
    ReadKeepsDelims(f, s, false, "", []);
    var r := ReadLine(f, s);
    if r.ok then s[..|s| - |r.rest|] + ReadPart(f, r.rest) else ""
  }

  /** The unread text belongs to no row. */
  lemma {:induction false} UnreadIsNoRow(f: Format, s: string, offset: int)
    ensures s == ReadPart(f, s) + Unread(f, s)
    ensures Rows(f, s, offset) == Rows(f, ReadPart(f, s), offset)
    decreases |s|
  {
    var r := ReadLine(f, s);
    if r.ok {
      var x := ReadPart(f, r.rest);
      ReadIgnoresRest(f, s, false, "", [], x);
      UnreadIsNoRow(f, r.rest, if offset <= 0 then offset else offset - 1);
      var front := s[..|s| - |r.rest|];
      assert s == front + r.rest;
      Assoc(front, x, Unread(f, r.rest));
      FirstRow(f, s, offset);
      FirstRow(f, front + x, offset);
    }
  }

  lemma FirstRow(f: Format, s: string, offset: int)
    requires ReadLine(f, s).ok
    ensures DelimsOk(ReadLine(f, s).line, ReadLine(f, s).delims)
    ensures var r := ReadLine(f, s);
            Rows(f, s, offset)
            == if offset <= 0 then [Columns(r.line, r.delims)] + Rows(f, r.rest, offset)
               else Rows(f, r.rest, offset - 1)
  {
    ReadKeepsDelims(f, s, false, "", []);
    var r := ReadLine(f, s);
    assert [] + Rows(f, r.rest, offset - 1) == Rows(f, r.rest, offset - 1);
  }

  /** Every line of a text becomes a row, so that nothing is left unread, if and only if the
      text is empty, or ends with a newline and, with quoting, has an even number of quotes. */
  lemma {:induction false} LastLineIsRowIff(f: Format, s: string)
    requires NoNul(s)
    ensures Unread(f, s) == "" <==>
              s == "" || (s[|s| - 1] == '\n' && (f.quoted ==> f.quote != '\n' && !Odd(s, f.quote)))
    decreases |s|
  {
    ReadsToEnd(f, s, false, "", []);
    var r := ReadLine(f, s);
    if r.ok {
      LastLineIsRowIff(f, r.rest);
    }
  }

  lemma {:induction false} NotALine(cells: seq<string>, line: string, delims: seq<nat>)
    requires forall i :: 0 <= i < |cells| ==> NoNul(cells[i])
    ensures !ReadFrom(CSV, Quoted(cells), false, line, delims).ok
    decreases |cells|
  {
    if cells == [] {
    } else if |cells| == 1 {
      assert CsvQuote(cells[0]) + "" == CsvQuote(cells[0]);
      ReadCell(cells[0], "", line, delims);
    } else {
      var x, tail := cells[0], Quoted(cells[1..]);
      Assoc(CsvQuote(x), ",", tail);
      ReadCell(x, "," + tail, line, delims);
      ReadComma(tail, line + DeleteQuotes(x), delims);
      NotALine(cells[1..], line + DeleteQuotes(x) + ",", delims + [|line + DeleteQuotes(x)|]);
    }
  }

  lemma {:induction false} DecodeUnterminated(cells: seq<string>, record: seq<string>)
    requires cells != [] && record + cells != [""]
    ensures Decode(Quoted(cells), FieldStart, "", record) == Some([record + cells])
    decreases |cells|
  {
    var x := cells[0];
    if |cells| == 1 {
      assert record + cells == record + [x];
      DecodeLastCell(x, record);
    } else {
      var tail := Quoted(cells[1..]);
      assert Quoted(cells) == CsvQuote(x) + [','] + tail;
      DecodeCell(x, ',', tail, record);
      MoveCell(record, cells);
      DecodeUnterminated(cells[1..], record + [x]);
    }
  }

  lemma MoveCell(record: seq<string>, cells: seq<string>)
    requires cells != []
    ensures (record + [cells[0]]) + cells[1..] == record + cells
  {
  }

  lemma DecodeLastCell(x: string, record: seq<string>)
    requires record + [x] != [""]
    ensures Decode(CsvQuote(x), FieldStart, "", record) == Some([record + [x]])
  {
    if x == "" {
      assert record != [] by {
        assert record == [] ==> record + [x] == [""];
      }
    } else {
      var t := Double(x) + "\"" + "";
      assert CsvQuote(x) == "\"" + t;
      DecodeOpen(t, record);
      DecodeBody(x, "", "", record);
      assert "" + x == x;
    }
  }

  /** The reference decoder takes a text whose last record lacks its newline. */
  lemma {:induction false} UnterminatedDecodes(records: seq<seq<string>>, last: seq<string>)
    requires last != [] && last != [""] && forall i :: 0 <= i < |records| ==> records[i] != []
    ensures Decode(Text(records) + Quoted(last), FieldStart, "", []) == Some(records + [last])
  {
    if records == [] {
      assert "" + Quoted(last) == Quoted(last) && [] + last == last && [] + [last] == [last];
      DecodeUnterminated(last, []);
    } else {
      var first, more := records[0], Text(records[1..]);
      Assoc(Quoted(first) + "\n", more, Quoted(last));
      DecodeLine(first, more + Quoted(last), []);
      UnterminatedDecodes(records[1..], last);
      assert [] + first == first && [first] + (records[1..] + [last]) == records + [last];
    }
  }

  /** Section 2 of RFC 4180 lets the last record lack its newline. Such a record is lost; with
      the newline it is the last row. */
  lemma {:induction false} UnterminatedRecordIsLost(records: seq<seq<string>>, last: seq<string>)
    requires last != [] && forall i :: 0 <= i < |records| ==> records[i] != []
    requires forall i :: 0 <= i < |last| ==> NoNul(last[i])
    requires forall i, j :: 0 <= i < |records| && 0 <= j < |records[i]| ==> NoNul(records[i][j])
    ensures Rows(CSV, Text(records) + Quoted(last), 0) == Rows(CSV, Text(records), 0)
    ensures |Rows(CSV, Text(records) + Quoted(last), 0)| == |records|
    ensures |Rows(CSV, Text(records) + Quoted(last) + "\n", 0)| == |records| + 1
  {
    ReadsText(records);
    RowsUnterminated(records, last);
    ReadsText(records + [last]);
    TextSnoc(records, last);
    Assoc(Text(records), Quoted(last), "\n");
  }

  lemma {:induction false} RowsUnterminated(records: seq<seq<string>>, last: seq<string>)
    requires forall i :: 0 <= i < |records| ==> records[i] != []
    requires forall i :: 0 <= i < |last| ==> NoNul(last[i])
    requires forall i, j :: 0 <= i < |records| && 0 <= j < |records[i]| ==> NoNul(records[i][j])
    ensures Rows(CSV, Text(records) + Quoted(last), 0) == Rows(CSV, Text(records), 0)
  {
    if records == [] {
      NotALine(last, "", []);
      assert "" + Quoted(last) == Quoted(last);
    } else {
      var more := Text(records[1..]);
      Assoc(Quoted(records[0]) + "\n", more, Quoted(last));
      RowsStep(records[0], more + Quoted(last), 0);
      RowsStep(records[0], more, 0);
      RowsUnterminated(records[1..], last);
    }
  }

  /** The same by hand: "A\nB" is one row, "A\nB\n" two. */
  lemma SecondLineIsLost()
    ensures Rows(CSV, "A\nB", 0) == [["A"]] && Rows(CSV, "A\nB\n", 0) == [["A"], ["B"]]
  {
    OneLetter('A', "B");
    assert "A" + "\n" + "B" == "A\nB";
    NoLine();
    OneLetter('A', "B\n");
    assert "A" + "\n" + "B\n" == "A\nB\n";
    OneLetter('B', "");
    assert "B" + "\n" + "" == "B\n";
  }

  lemma NoLine()
    ensures Rows(CSV, "B", 0) == [] && Rows(CSV, "", 0) == []
  {
    ReadsToEnd(CSV, "B", false, "", []);
    LastLineIsRowIff(CSV, "B");
    assert "B"[1..] == "";
    assert ReadLine(CSV, "B") == ReadFrom(CSV, "", false, "" + "B", []);
  }

  lemma OneLetter(c: char, rest: string)
    requires c == 'A' || c == 'B'
    ensures Rows(CSV, [c] + "\n" + rest, 0) == [[[c]]] + Rows(CSV, rest, 0)
  {
    var s := [c] + "\n" + rest;
    assert s[1..] == "\n" + rest && s[1..][1..] == rest;
    assert "" + [c] == [c];
    ReadNewline(rest, [c], []);
    assert ReadLine(CSV, s) == ReadFrom(CSV, s[1..], false, [c], []);
    assert Columns([c], []) == [[c]];
  }

  // ----- The control -----

  class CsvImport {
    var line: string
    var delims: seq<nat>
    var lines: seq<seq<string>>

    constructor ()
      ensures line == "" && delims == [] && lines == []
    {
      line, delims, lines := "", [], [];
    }

    /** Reads one line from position `pos` of the text, character by character. */
    method DoReadLine(f: Format, text: string, pos: nat) returns (rc: bool, next: nat)
      requires pos <= |text|
      modifies this`line, this`delims
      ensures pos <= next <= |text|
      ensures Line(rc, line, delims, text[next..]) == ReadFrom(f, text[pos..], false, old(line), old(delims))
    {
      rc, next := true, pos;
      var inString := false;
      while true
        invariant rc && pos <= next <= |text|
        invariant ReadFrom(f, text[next..], inString, line, delims)
                  == ReadFrom(f, text[pos..], false, old(line), old(delims))
        decreases |text| - next
      {
        if next == |text| || text[next] == '\0' {
          rc := false;
          break;
        }
        var c := text[next];
        assert text[next..][0] == c && text[next..][1..] == text[next + 1..];
        next := next + 1;
        if f.quoted && c == f.quote {
          inString := !inString;
          continue;
        }
        if c == '\n' {
          if f.quoted && inString {
            line := line + [c];
            continue;
          } else {
            break;
          }
        }
        if c == f.separator && !(f.quoted && inString) {
          delims := delims + [|line|];
        }
        line := line + [c];
      }
    }

    /** `loadFile`: lines are read, cut at the recorded positions and collected. */
    method LoadFile(f: Format, text: string, lineOffset: int)
      modifies this
      ensures lines == Rows(f, text, lineOffset)
    {
      line, delims, lines := "", [], [];
      var pos, offset := 0, lineOffset;
      RowsStart(f, text, lineOffset);
      while true
        invariant pos <= |text| && line == "" && delims == []
        invariant RowsFrom(f, text, lineOffset, text[pos..], offset, lines)
        decreases |text| - pos
      {
        RowsOneLine(f, text, lineOffset, text[pos..], offset, lines);
        ghost var was := text[pos..];
        var rc;
        rc, pos := DoReadLine(f, text, pos);
        assert Line(rc, line, delims, text[pos..]) == ReadLine(f, was);
        if !rc {
          break;
        }
        assert |text[pos..]| < |was|;
        if offset <= 0 {
          var columns := SliceColumns(line, delims);
          lines := lines + [columns];
        } else {
          offset := offset - 1;
        }
        line, delims := "", [];
      }
    }

    /** `OnGetItemText`, through which the import reads its cells. */
    method GetItemText(item: nat, column: nat) returns (text: string)
      ensures text == if item < |lines| then CellAt(lines[item], column) else ""
    {
      text := "";
      if item < |lines| && column < |lines[item]| {
        text := lines[item][column];
      }
    }

    method SliceColumns(line: string, delims: seq<nat>) returns (columns: seq<string>)
      requires DelimsOk(line, delims)
      ensures columns == Columns(line, delims)
    {
      columns := [];
      var p1 := 0;
      for i := 0 to |delims|
        invariant p1 == Start(delims, i)
        invariant |columns| == i && forall k :: 0 <= k < i ==> columns[k] == Piece(line, delims, k)
      {
        var p2 := delims[i];
        columns := columns + [line[p1..p2]];
        p1 := p2 + 1;
      }
      ColumnsBuilt(line, delims, columns);
      if p1 < |line| {
        columns := columns + [line[p1..]];
      }
    }
  }

  lemma ColumnsBuilt(line: string, delims: seq<nat>, pieces: seq<string>)
    requires DelimsOk(line, delims) && |pieces| == |delims|
    requires forall k :: 0 <= k < |pieces| ==> pieces[k] == Piece(line, delims, k)
    ensures var p1 := Start(delims, |delims|);
            Columns(line, delims) == if p1 < |line| then pieces + [line[p1..]] else pieces
  {
    assert pieces == Pieces(line, delims);
    assert pieces + [] == pieces;
  }

  // ----- Steps of the loading loop -----

  /** The lines collected so far and the rows of the rest make up the rows of the text. */
  ghost predicate RowsFrom(f: Format, text: string, lineOffset: int, rest: string, offset: int,
                           lines: seq<seq<string>>)
  {
    lines + Rows(f, rest, offset) == Rows(f, text, lineOffset)
  }

  lemma RowsStart(f: Format, text: string, lineOffset: int)
    ensures RowsFrom(f, text, lineOffset, text[0..], lineOffset, [])
  {
    assert text[0..] == text;
  }

  lemma RowsOneLine(f: Format, text: string, lineOffset: int, rest: string, offset: int, lines: seq<seq<string>>)
    requires RowsFrom(f, text, lineOffset, rest, offset, lines)
    ensures var r := ReadLine(f, rest);
            && DelimsOk(r.line, r.delims) && (r.ok ==> |r.rest| < |rest|)
            && (!r.ok ==> lines == Rows(f, text, lineOffset))
            && (r.ok && offset <= 0 ==>
                  RowsFrom(f, text, lineOffset, r.rest, offset, lines + [Columns(r.line, r.delims)]))
            && (r.ok && offset > 0 ==> RowsFrom(f, text, lineOffset, r.rest, offset - 1, lines))
  {
    ReadKeepsDelims(f, rest, false, "", []);
    var r := ReadLine(f, rest);
    if !r.ok {
      assert lines + [] == lines;
    } else if offset <= 0 {
      var c, later := [Columns(r.line, r.delims)], Rows(f, r.rest, offset);
      assert lines + (c + later) == (lines + c) + later;
    } else {
      assert [] + Rows(f, r.rest, offset - 1) == Rows(f, r.rest, offset - 1);
    }
  }
}
