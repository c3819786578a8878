/** Export of contacts as comma-separated text (gui/contactspage.cpp) and the import
    control's reader (gui/csvimp.cpp), beside a reference decoder written from section 2 of
    RFC 4180. Lines end in '\n' here: the text streams translate the two-character ending. */
module CsvFile {
  import opened Common
  import opened Decimal

  // ----- Writing -----

  datatype Card = Card(fn: string, mn: string, ln: string, nn: string, title: string, sn: string, email: string,
                       organization: string, image: string, phones: seq<string>)

  function Double(s: string): string {
    if s == "" then "" else (if s[0] == '"' then "\"\"" else [s[0]]) + Double(s[1..])
  }

  function CsvQuote(s: string): string {
    if s == "" then "" else "\"" + Double(s) + "\""
  }

  function MaxPhones(cards: seq<Card>): nat {
    if cards == [] then 0 else Max(MaxPhones(cards[..|cards| - 1]), |cards[|cards| - 1].phones|)
  }

  function Fixed(c: Card): seq<string> {
    [c.fn, c.mn, c.ln, c.nn, c.title, c.sn, c.email, c.organization, c.image]
  }

  /** The cells of a record, padded with empty cells to the given number of phones. */
  function Cells(c: Card, numTel: nat): seq<string> {
    Fixed(c) + seq(numTel, j requires 0 <= j => if j < |c.phones| then c.phones[j] else "")
  }

  function TelName(i: nat): string {
    "TelNumber" + (if i < 10 then "0" else "") + Dec(i)
  }

  const FIXED_NAMES: seq<string> := ["FN", "MN", "LN", "NN", "Title", "SN", "Email", "Organization", "Image"]

  function Header(numTel: nat): seq<string> {
    FIXED_NAMES + seq(numTel, i requires 0 <= i => TelName(i))
  }

  /** Quoted cells with commas between them. */
  function Quoted(cells: seq<string>): string {
    if cells == [] then ""
    else if |cells| == 1 then CsvQuote(cells[0])
    else CsvQuote(cells[0]) + "," + Quoted(cells[1..])
  }

  function Records(cards: seq<Card>): seq<seq<string>> {
    var numTel := MaxPhones(cards);
    [Header(numTel)] + seq(|cards|, i requires 0 <= i < |cards| => Cells(cards[i], numTel))
  }

  function Text(records: seq<seq<string>>): string {
    if records == [] then "" else Quoted(records[0]) + "\n" + Text(records[1..])
  }

  lemma QuotedFirst(c: string, rest: seq<string>)
    requires rest != []
    ensures Quoted([c] + rest) == CsvQuote(c) + "," + Quoted(rest)
  {
    assert ([c] + rest)[1..] == rest;
  }

  lemma {:induction false} QuotedSnoc(cells: seq<string>, c: string)
    requires cells != []
    ensures Quoted(cells + [c]) == Quoted(cells) + "," + CsvQuote(c)
  {
    if |cells| == 1 {
      QuotedFirst(cells[0], [c]);
      assert cells + [c] == [cells[0]] + [c];
    } else {
      QuotedSnoc(cells[1..], c);
      QuotedFirst(cells[0], cells[1..] + [c]);
      assert cells + [c] == [cells[0]] + (cells[1..] + [c]);
      QuotedFirst(cells[0], cells[1..]);
      assert cells == [cells[0]] + cells[1..];
      Assoc(CsvQuote(cells[0]) + ",", Quoted(cells[1..]), "," + CsvQuote(c));
      Assoc(Quoted(cells[1..]), ",", CsvQuote(c));
      Assoc(Quoted(cells), ",", CsvQuote(c));
    }
  }

  lemma {:induction false} TextSnoc(records: seq<seq<string>>, r: seq<string>)
    ensures Text(records + [r]) == Text(records) + (Quoted(r) + "\n")
  {
    var all := records + [r];
    if records == [] {
      assert all[1..] == [];
      assert Text([]) == "";
      assert Text(all) == Quoted(r) + "\n" + "";
    } else {
      assert all[1..] == records[1..] + [r];
      TextSnoc(records[1..], r);
      assert Quoted(records[0]) + "\n" + (Text(records[1..]) + (Quoted(r) + "\n"))
             == (Quoted(records[0]) + "\n" + Text(records[1..])) + (Quoted(r) + "\n");
    }
  }

  predicate NoQuote(s: string) {
    forall i :: 0 <= i < |s| ==> s[i] != '"'
  }

  lemma {:induction false} DoublePlain(s: string)
    requires NoQuote(s)
    ensures Double(s) == s
  {
    if s != "" {
      DoublePlain(s[1..]);
    }
  }

  /** `DoExport`: the header, then one line per contact, built cell by cell. */
  method DoExport(cards: seq<Card>) returns (text: string)
    ensures text == Text(Records(cards))
  {
    var numTel := 0;
    for i := 0 to |cards|
      invariant numTel == MaxPhones(cards[..i])
    {
      assert cards[..i + 1][..i] == cards[..i];
      if |cards[i].phones| > numTel {
        numTel := |cards[i].phones|;
      }
    }
    assert cards[..|cards|] == cards;
    var line := HeaderLine(numTel);
    text := line + "\n";
    var records := Records(cards);
    assert records[..1] == [Header(numTel)];
    TextOne(Header(numTel));
    for i := 0 to |cards|
      invariant text == Text(records[..i + 1])
    {
      line := CardLine(cards[i], numTel);
      TextGrows(records, i + 1);
      text := text + (line + "\n");
    }
    assert records[..|cards| + 1] == records;
  }

  lemma TextGrows(records: seq<seq<string>>, n: nat)
    requires n < |records|
    ensures Text(records[..n + 1]) == Text(records[..n]) + (Quoted(records[n]) + "\n")
  {
    TextSnoc(records[..n], records[n]);
    assert records[..n + 1] == records[..n] + [records[n]];
  }

  lemma TextOne(r: seq<string>)
    ensures Text([r]) == Quoted(r) + "\n"
  {
    TextSnoc([], r);
    assert [] + [r] == [r];
  }

  lemma QuotePlain(s: string)
    requires NoQuote(s) && s != ""
    ensures CsvQuote(s) == "\"" + s + "\""
  {
    DoublePlain(s);
  }

  lemma TelNamePlain(i: nat)
    ensures NoQuote(TelName(i)) && TelName(i) != ""
  {
    DecIsDigits(i);
  }

  lemma FixedNamePlain(i: nat)
    requires i < |FIXED_NAMES|
    ensures NoQuote(FIXED_NAMES[i]) && FIXED_NAMES[i] != ""
  {
    assert NoQuote("FN") && NoQuote("MN") && NoQuote("LN") && NoQuote("NN") && NoQuote("Title");
    assert NoQuote("SN") && NoQuote("Email") && NoQuote("Organization") && NoQuote("Image");
  }

  lemma OneMoreName(cells: seq<string>, n: nat)
    requires 0 < n < |cells| && NoQuote(cells[n]) && cells[n] != ""
    ensures Quoted(cells[..n + 1]) == Quoted(cells[..n]) + "," + ("\"" + cells[n] + "\"")
  {
    QuotePlain(cells[n]);
    QuotedSnoc(cells[..n], cells[n]);
    assert cells[..n + 1] == cells[..n] + [cells[n]];
  }

  /** The header writes its names between literal quotes; none of them needs doubling. */
  method FixedHeaderLine(names: seq<string>) returns (line: string)
    requires names != [] && forall i :: 0 <= i < |names| ==> NoQuote(names[i]) && names[i] != ""
    ensures line == Quoted(names)
  {
    QuotePlain(names[0]);
    line := "\"" + names[0] + "\"";
    for i := 1 to |names|
      invariant line == Quoted(names[..i])
    {
      OneMoreName(names, i);
      line := line + "," + ("\"" + names[i] + "\"");
    }
    assert names[..|names|] == names;
  }

  method HeaderLine(numTel: nat) returns (line: string)
    ensures line == Quoted(Header(numTel))
  {
    HeaderParts(numTel);
    line := FixedHeaderLine(FIXED_NAMES);
    line := TelHeader(line, numTel, Header(numTel));
  }

  lemma HeaderParts(numTel: nat)
    ensures FIXED_NAMES != [] && forall i :: 0 <= i < |FIXED_NAMES| ==> NoQuote(FIXED_NAMES[i]) && FIXED_NAMES[i] != ""
    ensures |Header(numTel)| == 9 + numTel && Header(numTel)[..9] == FIXED_NAMES
    ensures forall k :: 9 <= k < 9 + numTel ==> Header(numTel)[k] == TelName(k - 9)
  {
    forall i | 0 <= i < |FIXED_NAMES| ensures NoQuote(FIXED_NAMES[i]) && FIXED_NAMES[i] != "" {
      FixedNamePlain(i);
    }
  }

  method TelHeader(start: string, numTel: nat, ghost names: seq<string>) returns (line: string)
    requires |names| == 9 + numTel && start == Quoted(names[..9])
    requires forall k :: 9 <= k < |names| ==> names[k] == TelName(k - 9)
    ensures line == Quoted(names)
  {
    line := start;
    for i := 0 to numTel
      invariant line == Quoted(names[..9 + i])
    {
      TelNamePlain(i);
      OneMoreName(names, 9 + i);
      line := line + ",";
      line := line + ("\"" + TelName(i) + "\"");
    }
    assert names[..9 + numTel] == names;
  }

  method FixedCells(fixed: seq<string>) returns (line: string)
    requires fixed != []
    ensures line == Quoted(fixed)
  {
    line := CsvQuote(fixed[0]);
    for i := 1 to |fixed|
      invariant line == Quoted(fixed[..i])
    {
      QuotedSnoc(fixed[..i], fixed[i]);
      assert fixed[..i + 1] == fixed[..i] + [fixed[i]];
      line := line + ",";
      line := line + CsvQuote(fixed[i]);
    }
    assert fixed[..|fixed|] == fixed;
  }

  method PhoneCells(start: string, phones: seq<string>, numTel: nat, ghost cells: seq<string>) returns (line: string)
    requires |cells| == 9 + numTel && start == Quoted(cells[..9])
    requires forall k :: 9 <= k < |cells| ==> cells[k] == if k - 9 < |phones| then phones[k - 9] else ""
    ensures line == Quoted(cells)
  {
    line := start;
    for j := 0 to numTel
      invariant line == Quoted(cells[..9 + j])
    {
      OneMoreCell(cells, 9 + j);
      line := line + ",";
      if j < |phones| {
        line := line + CsvQuote(phones[j]);
      }
    }
    assert cells[..9 + numTel] == cells;
  }

  lemma OneMoreCell(cells: seq<string>, k: nat)
    requires 0 < k < |cells|
    ensures Quoted(cells[..k + 1]) == Quoted(cells[..k]) + "," + CsvQuote(cells[k])
    ensures cells[k] == "" ==> Quoted(cells[..k + 1]) == Quoted(cells[..k]) + ","
  {
    QuotedSnoc(cells[..k], cells[k]);
    assert cells[..k + 1] == cells[..k] + [cells[k]];
    var line := Quoted(cells[..k]) + ",";
    assert line + "" == line;
  }

  lemma CellsShape(c: Card, numTel: nat)
    ensures |Cells(c, numTel)| == 9 + numTel && Cells(c, numTel)[..9] == Fixed(c)
    ensures forall k :: 9 <= k < 9 + numTel ==>
              Cells(c, numTel)[k] == if k - 9 < |c.phones| then c.phones[k - 9] else ""
  {
    var fixed := Fixed(c);
    assert |fixed| == 9;
  }

  method CardLine(c: Card, numTel: nat) returns (line: string)
    ensures line == Quoted(Cells(c, numTel))
  {
    line := FixedCells(Fixed(c));
    CellsShape(c, numTel);
    line := PhoneCells(line, c.phones, numTel, Cells(c, numTel));
  }
}
