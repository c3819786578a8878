/** The import control's reader for every format that its dialog offers, and the lines that it
    is told to skip. */
module CsvFormats {
  import opened Common
  import opened CsvFile
  import opened CsvReader

  // ----- Lines in any format -----

  /** The characters that the format gives a meaning are different ones. */
  predicate Sensible(f: Format) {
    && f.separator !in {'\n', '\0'}
    && (f.quoted ==> f.quote !in {'\n', '\0', f.separator})
  }

  /** A text that the format can hold: with quoting it has no quote, and without it has neither
      a separator nor a newline. */
  predicate Holds(f: Format, x: string) {
    forall i :: 0 <= i < |x| ==>
      x[i] != '\0' && (if f.quoted then x[i] != f.quote else x[i] != f.separator && x[i] != '\n')
  }

  function Written(f: Format, x: string): string {
    if f.quoted then [f.quote] + x + [f.quote] else x
  }

  function WrittenLine(f: Format, cells: seq<string>): string
    requires cells != []
  {
    if |cells| == 1 then Written(f, cells[0]) + "\n"
    else Written(f, cells[0]) + [f.separator] + WrittenLine(f, cells[1..])
  }

  lemma {:induction false} ReadsText(f: Format, x: string, rest: string, line: string, delims: seq<nat>)
    requires Sensible(f) && Holds(f, x)
    ensures ReadFrom(f, x + rest, f.quoted, line, delims) == ReadFrom(f, rest, f.quoted, line + x, delims)
  {
    if x == "" {
      assert x + rest == rest && line + x == line;
    } else {
      TakeOne(f, x + rest, f.quoted, line, delims);
      assert (x + rest)[1..] == x[1..] + rest;
      ReadsText(f, x[1..], rest, line + [x[0]], delims);
      assert (line + [x[0]]) + x[1..] == line + x;
    }
  }

  lemma ReadsWritten(f: Format, x: string, rest: string, line: string, delims: seq<nat>)
    requires Sensible(f) && Holds(f, x)
    ensures ReadFrom(f, Written(f, x) + rest, false, line, delims) == ReadFrom(f, rest, false, line + x, delims)
  {
    if f.quoted {
      var tail := [f.quote] + rest;
      assert Written(f, x) + rest == [f.quote] + (x + tail);
      assert ([f.quote] + (x + tail))[1..] == x + tail && tail[1..] == rest;
      ReadsText(f, x, tail, line, delims);
    } else {
      ReadsText(f, x, rest, line, delims);
    }
  }

  /** In every format a line of texts that the format can hold is read as just those texts,
      without an empty last one, and the reader stops behind it. */
  lemma {:induction false} ReadsAnyFormat(f: Format, cells: seq<string>, rest: string, line: string,
                                          delims: seq<nat>, before: seq<string>)
    requires Sensible(f) && cells != [] && (forall i :: 0 <= i < |cells| ==> Holds(f, cells[i]))
    requires Cut(line, delims, before)
    ensures Reads(ReadFrom(f, WrittenLine(f, cells) + rest, false, line, delims), rest, DropEmptyLast(before + cells))
    decreases |cells|
  {
    var x := cells[0];
    WrittenFirst(f, cells, rest);
    if |cells| == 1 {
      ReadsLast(f, x, rest, line, delims, before);
    } else {
      ReadsInner(f, x, WrittenLine(f, cells[1..]) + rest, line, delims, before);
      ReadsAnyFormat(f, cells[1..], rest, line + x + [f.separator], delims + [|line + x|], before + [x]);
      Moved(before, cells);
    }
  }

  lemma Moved(before: seq<string>, cells: seq<string>)
    requires cells != []
    ensures (before + [cells[0]]) + cells[1..] == before + cells
  {
  }

  lemma WrittenFirst(f: Format, cells: seq<string>, rest: string)
    requires cells != []
    ensures WrittenLine(f, cells) + rest
            == Written(f, cells[0])
               + (if |cells| == 1 then "\n" + rest else [f.separator] + (WrittenLine(f, cells[1..]) + rest))
    ensures |cells| == 1 ==> cells == [cells[0]]
  {
    if |cells| == 1 {
      Assoc(Written(f, cells[0]), "\n", rest);
    } else {
      Assoc(Written(f, cells[0]) + [f.separator], WrittenLine(f, cells[1..]), rest);
      Assoc(Written(f, cells[0]), [f.separator], WrittenLine(f, cells[1..]) + rest);
    }
  }

  lemma ReadsLast(f: Format, x: string, rest: string, line: string, delims: seq<nat>, before: seq<string>)
    requires Sensible(f) && Holds(f, x) && Cut(line, delims, before)
    ensures Reads(ReadFrom(f, Written(f, x) + ("\n" + rest), false, line, delims), rest, DropEmptyLast(before + [x]))
  {
    ReadsWritten(f, x, "\n" + rest, line, delims);
    assert ("\n" + rest)[1..] == rest;
    CutColumns(line, delims, before, x);
  }

  lemma ReadsInner(f: Format, x: string, tail: string, line: string, delims: seq<nat>, before: seq<string>)
    requires Sensible(f) && Holds(f, x) && Cut(line, delims, before)
    ensures ReadFrom(f, Written(f, x) + ([f.separator] + tail), false, line, delims)
            == ReadFrom(f, tail, false, line + x + [f.separator], delims + [|line + x|])
    ensures Cut(line + x + [f.separator], delims + [|line + x|], before + [x])
  {
    ReadsWritten(f, x, [f.separator] + tail, line, delims);
    assert ([f.separator] + tail)[1..] == tail;
    CutMore(line, delims, before, x, f.separator);
  }

  function WrittenText(f: Format, records: seq<seq<string>>): string
    requires forall i :: 0 <= i < |records| ==> records[i] != []
  {
    if records == [] then "" else WrittenLine(f, records[0]) + WrittenText(f, records[1..])
  }

  /** So a file of such lines shows one row for each, cell by cell as written. */
  lemma {:induction false} RowsOfAnyFormat(f: Format, records: seq<seq<string>>)
    requires Sensible(f) && forall i :: 0 <= i < |records| ==> records[i] != []
    requires forall i, j :: 0 <= i < |records| && 0 <= j < |records[i]| ==> Holds(f, records[i][j])
    ensures var rows := Rows(f, WrittenText(f, records), 0);
            && |rows| == |records|
            && forall i, column: nat :: 0 <= i < |rows| ==>
                 CellAt(rows[i], column) == (if column < |records[i]| then records[i][column] else "")
  {
    if records != [] {
      FirstRowWritten(f, records[0], WrittenText(f, records[1..]));
      RowsOfAnyFormat(f, records[1..]);
    }
  }

  lemma FirstRowWritten(f: Format, cells: seq<string>, rest: string)
    requires Sensible(f) && cells != [] && (forall i :: 0 <= i < |cells| ==> Holds(f, cells[i]))
    ensures Rows(f, WrittenLine(f, cells) + rest, 0) == [DropEmptyLast(cells)] + Rows(f, rest, 0)
  {
    ReadsAnyFormat(f, cells, rest, "", [], []);
    assert [] + cells == cells;
    FirstRow(f, WrittenLine(f, cells) + rest, 0);
  }

  // ----- Skipped lines -----

  /** The rows are those of the whole text without the skipped ones; a negative number skips
      none. */
  lemma {:induction false} RowsSkipped(f: Format, s: string, offset: int)
    ensures var all := Rows(f, s, 0);
            Rows(f, s, offset) == if offset <= 0 then all else if offset <= |all| then all[offset..] else []
    decreases |s|
  {
    ReadKeepsDelims(f, s, false, "", []);
    if ReadLine(f, s).ok {
      var r := ReadLine(f, s);
      FirstRow(f, s, 0);
      FirstRow(f, s, offset);
      RowsSkipped(f, r.rest, if offset <= 0 then offset else offset - 1);
      if offset > 0 {
        OneLessSkipped(Columns(r.line, r.delims), Rows(f, r.rest, 0), offset);
      }
    } else {
      assert Rows(f, s, 0) == [] && Rows(f, s, offset) == [];
    }
  }

  lemma OneLessSkipped(row: seq<string>, rest: seq<seq<string>>, offset: int)
    requires offset > 0
    ensures var all := [row] + rest;
            (if offset <= |all| then all[offset..] else [])
            == if offset - 1 <= 0 then rest else if offset - 1 <= |rest| then rest[offset - 1..] else []
  {
  }
}
