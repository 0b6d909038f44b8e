/** The CSV printer (apps/dashboard/src/lib/csv.ts) and a reader for section 2 of RFC 4180 that inverts it. */
module Csv {
  import opened Prelude

  const CRLF: string := "\r\n"

  /** A cell; a number carries the text that `String(value)` gives for it. */
  datatype CsvValue = Str(s: string) | Num(text: string) | Bool(b: bool) | Null

  // ----- Printing -----

  /** `=` `+` `-` `@` TAB CR: what makes a spreadsheet read a cell as a formula. */
  predicate Trigger(c: char) {
    c == '=' || c == '+' || c == '-' || c == '@' || c == '\t' || c == '\r'
  }

  predicate Risky(s: string) {
    s != "" && Trigger(s[0])
  }

  function Guard(s: string): string {
    if Risky(s) then "'" + s else s
  }

  /** The text a reader of the file sees in the cell. */
  function Shown(value: CsvValue): string {
    match value
    case Null => ""
    case Num(text) => text
    case Bool(b) => if b then "true" else "false"
    case Str(s) => Guard(s)
  }

  function Doubled(s: string): string {
    if s == "" then "" else (if s[0] == '"' then "\"\"" else [s[0]]) + Doubled(s[1..])
  }

  predicate NeedsQuotes(s: string) {
    '"' in s || ',' in s || '\r' in s || '\n' in s
  }

  function EscapeCsvField(value: CsvValue): string {
    var shown := Shown(value);
    if value.Null? then ""
    else if NeedsQuotes(shown) then "\"" + Doubled(shown) + "\""
    else shown
  }

  function CsvRow(cells: seq<CsvValue>): string {
    if cells == [] then ""
    else if |cells| == 1 then EscapeCsvField(cells[0])
    else EscapeCsvField(cells[0]) + "," + CsvRow(cells[1..])
  }

  /** Every row followed by the terminator, the last one included. */
  function Document(rows: seq<seq<CsvValue>>): string {
    if rows == [] then "" else CsvRow(rows[0]) + CRLF + Document(rows[1..])
  }

  function HeaderCells(header: seq<string>): seq<CsvValue> {
    seq(|header|, i requires 0 <= i < |header| => Str(header[i]))
  }

  method ToCsv(header: seq<string>, rows: seq<seq<CsvValue>>) returns (out: string)
    ensures out == Document([HeaderCells(header)] + rows)
  {
    hide CsvRow, HeaderCells;
    out := CsvRow(HeaderCells(header)) + CRLF;
    DocumentConcat([HeaderCells(header)], []);
    for i := 0 to |rows|
      invariant out == Document([HeaderCells(header)] + rows[..i])
    {
      DocumentConcat([HeaderCells(header)] + rows[..i], [rows[i]]);
      assert [HeaderCells(header)] + rows[..i] + [rows[i]] == [HeaderCells(header)] + rows[..i + 1];
      out := out + CsvRow(rows[i]) + CRLF;
    }
    assert rows[..|rows|] == rows;
  }

  /** Pages printed one after another make the document of all their rows. */
  lemma {:induction false} DocumentConcat(a: seq<seq<CsvValue>>, b: seq<seq<CsvValue>>)
    ensures Document(a + b) == Document(a) + Document(b)
    ensures |b| == 1 ==> Document(b) == CsvRow(b[0]) + CRLF
  {
    if a == [] {
      assert a + b == b;
    } else {
      assert (a + b)[0] == a[0] && (a + b)[1..] == a[1..] + b;
      DocumentConcat(a[1..], b);
    }
  }

  // ----- Formula guarding -----

  lemma GuardIdempotent(s: string)
    ensures Guard(Guard(s)) == Guard(s) && !Risky(Guard(s))
  {
  }

  /** Guarding merges two texts exactly when one is the other with a quote mark before its trigger. */
  lemma GuardMerges(a: string, b: string)
    ensures Guard(a) == Guard(b) <==> a == b || (Risky(a) && b == "'" + a) || (Risky(b) && a == "'" + b)
  {
    if Guard(a) == Guard(b) && Risky(a) && Risky(b) {
      assert a == Guard(a)[1..] == Guard(b)[1..] == b;
    }
  }

  // ----- Reading -----

  datatype Mode =
    | FieldStart  // nothing of the field read
    | Bare        // inside an unquoted field
    | Quoted      // inside a quoted field
    | QuoteSeen   // after a quote inside a quoted field: its end, or half of a doubled quote
    | CrSeen      // after CR outside quotes: LF must follow
    | Broken      // not in the grammar

  datatype Reader = Reader(records: seq<seq<string>>, fields: seq<string>, field: string, mode: Mode)

  function EndField(r: Reader): Reader {
    r.(fields := r.fields + [r.field], field := "", mode := FieldStart)
  }

  /** One character of section 2 of RFC 4180, with any character but `"` `,` CR LF as plain text. */
  function Read(r: Reader, c: char): Reader {
    match r.mode
    case FieldStart =>
      if c == '"' then r.(mode := Quoted)
      else if c == ',' then EndField(r)
      else if c == '\r' then EndField(r).(mode := CrSeen)
      else if c == '\n' then r.(mode := Broken)
      else r.(field := r.field + [c], mode := Bare)
    case Bare =>
      if c == ',' then EndField(r)
      else if c == '\r' then EndField(r).(mode := CrSeen)
      else if c == '"' || c == '\n' then r.(mode := Broken)
      else r.(field := r.field + [c])
    case Quoted =>
      if c == '"' then r.(mode := QuoteSeen) else r.(field := r.field + [c])
    case QuoteSeen =>
      if c == '"' then r.(field := r.field + [c], mode := Quoted)
      else if c == ',' then EndField(r)
      else if c == '\r' then EndField(r).(mode := CrSeen)
      else r.(mode := Broken)
    case CrSeen =>
      if c == '\n' then Reader(r.records + [r.fields], [], "", FieldStart) else r.(mode := Broken)
    case Broken => r
  }

  function ReadAll(r: Reader, s: string): Reader
    decreases |s|
  {
    if s == "" then r else ReadAll(Read(r, s[0]), s[1..])
  }

  /** The records of a file; the last may lack its terminator. */
  function Parse(s: string): Option<seq<seq<string>>> {
    var r := ReadAll(Reader([], [], "", FieldStart), s);
    match r.mode
    case FieldStart => if r.fields == [] then Some(r.records) else Some(r.records + [r.fields + [""]])
    case Bare => Some(r.records + [r.fields + [r.field]])
    case QuoteSeen => Some(r.records + [r.fields + [r.field]])
    case _ => None
  }

  lemma {:induction false} ReadAllConcat(r: Reader, a: string, b: string)
    ensures ReadAll(r, a + b) == ReadAll(ReadAll(r, a), b)
    decreases |a|
  {
    hide Read;
    if a == "" {
      assert a + b == b;
    } else {
      assert (a + b)[0] == a[0] && (a + b)[1..] == a[1..] + b;
      ReadAllConcat(Read(r, a[0]), a[1..], b);
    }
  }

  lemma ReadOne(r: Reader, c: char)
    ensures ReadAll(r, [c]) == Read(r, c)
  {
    assert [c][1..] == "";
  }

  lemma {:induction false} ReadDoubled(r: Reader, s: string)
    requires r.mode == Quoted
    ensures ReadAll(r, Doubled(s)) == r.(field := r.field + s)
    decreases |s|
  {
    if s == "" {
      assert r.field + s == r.field;
    } else {
      var head := if s[0] == '"' then "\"\"" else [s[0]];
      var next := r.(field := r.field + [s[0]]);
      assert ReadAll(r, head) == next by {
        if s[0] == '"' {
          ReadAllConcat(r, "\"", "\"");
          ReadOne(r, '"');
          ReadOne(Read(r, '"'), '"');
          assert head == "\"" + "\"";
        } else {
          ReadOne(r, s[0]);
        }
      }
      ReadAllConcat(r, head, Doubled(s[1..]));
      ReadDoubled(next, s[1..]);
      assert r.field + [s[0]] + s[1..] == r.field + s;
    }
  }

  lemma {:induction false} ReadPlain(r: Reader, s: string)
    requires r.mode == Bare && !NeedsQuotes(s)
    ensures ReadAll(r, s) == r.(field := r.field + s)
    decreases |s|
  {
    if s == "" {
      assert r.field + s == r.field;
    } else {
      assert s[0] in s;
      forall c | c in s[1..] ensures c in s {}
      ReadPlain(r.(field := r.field + [s[0]]), s[1..]);
      assert r.field + [s[0]] + s[1..] == r.field + s;
    }
  }

  function Ready(records: seq<seq<string>>, fields: seq<string>): Reader {
    Reader(records, fields, "", FieldStart)
  }

  /** A field has been read in full and only its end is missing. */
  predicate FieldRead(r: Reader, records: seq<seq<string>>, fields: seq<string>, field: string) {
    r.records == records && r.fields == fields && r.field == field
    && (r.mode == Bare || r.mode == QuoteSeen || (r.mode == FieldStart && field == ""))
  }

  lemma NullShown()
    ensures Shown(Null) == ""
  {
  }

  lemma ReadEscaped(records: seq<seq<string>>, fields: seq<string>, value: CsvValue)
    ensures FieldRead(ReadAll(Ready(records, fields), EscapeCsvField(value)), records, fields, Shown(value))
  {
    hide Guard, Shown;
    var r, s := Ready(records, fields), Shown(value);
    assert value.Null? ==> s == "" by { NullShown(); }
    if NeedsQuotes(s) {
      var q := r.(mode := Quoted);
      ReadDoubled(q, s);
      ReadAllConcat(r, "\"" + Doubled(s), "\"");
      assert ("\"" + Doubled(s))[1..] == Doubled(s);
      ReadOne(ReadAll(r, "\"" + Doubled(s)), '"');
      assert r.field + s == s;
    } else if s != "" {
      assert s[0] in s && r.field + [s[0]] == [s[0]];
      forall c | c in s[1..] ensures c in s {}
      ReadPlain(r.(field := [s[0]], mode := Bare), s[1..]);
      assert [s[0]] + s[1..] == s;
    }
  }

  /** What a reader sees of a row; a row without cells is seen as one empty cell. */
  function ShownRow(cells: seq<CsvValue>): seq<string> {
    if cells == [] then [""] else seq(|cells|, i requires 0 <= i < |cells| => Shown(cells[i]))
  }

  lemma {:induction false} ReadRow(records: seq<seq<string>>, fields: seq<string>, cells: seq<CsvValue>)
    ensures ReadAll(Ready(records, fields), CsvRow(cells) + CRLF) == Ready(records + [fields + ShownRow(cells)], [])
    decreases |cells|
  {
    hide Read, ReadAll, FieldRead;
    if cells == [] {
      ReadLast(records, fields, Null);
    } else if |cells| == 1 {
      ReadLast(records, fields, cells[0]);
      assert ShownRow(cells) == [Shown(cells[0])];
    } else {
      hide EscapeCsvField, Shown;
      var r, e, rest := Ready(records, fields), EscapeCsvField(cells[0]), CsvRow(cells[1..]) + CRLF;
      assert CsvRow(cells) + CRLF == (e + ",") + rest;
      ReadEscaped(records, fields, cells[0]);
      ReadAllConcat(r, e, ",");
      ReadComma(ReadAll(r, e), records, fields, Shown(cells[0]));
      ReadAllConcat(r, e + ",", rest);
      ReadRow(records, fields + [Shown(cells[0])], cells[1..]);
      assert fields + [Shown(cells[0])] + ShownRow(cells[1..]) == fields + ShownRow(cells);
    }
  }

  lemma ReadLast(records: seq<seq<string>>, fields: seq<string>, value: CsvValue)
    ensures ReadAll(Ready(records, fields), EscapeCsvField(value) + CRLF)
         == Ready(records + [fields + [Shown(value)]], [])
  {
    hide Read, ReadAll, FieldRead, EscapeCsvField, Shown;
    var r, e := Ready(records, fields), EscapeCsvField(value);
    ReadEscaped(records, fields, value);
    ReadAllConcat(r, e, CRLF);
    ReadTerminator(ReadAll(r, e), records, fields, Shown(value));
  }

  lemma ReadComma(r: Reader, records: seq<seq<string>>, fields: seq<string>, field: string)
    requires FieldRead(r, records, fields, field)
    ensures ReadAll(r, ",") == Ready(records, fields + [field])
  {
    assert ","[1..] == "";
  }

  lemma ReadTerminator(r: Reader, records: seq<seq<string>>, fields: seq<string>, field: string)
    requires FieldRead(r, records, fields, field)
    ensures ReadAll(r, CRLF) == Ready(records + [fields + [field]], [])
  {
    assert CRLF[1..] == "\n" && "\n"[1..] == "";
    assert Read(r, '\r') == Reader(records, fields + [field], "", CrSeen);
  }

  function ShownRows(rows: seq<seq<CsvValue>>): (shown: seq<seq<string>>)
    ensures |shown| == |rows| && forall i :: 0 <= i < |rows| ==> shown[i] == ShownRow(rows[i])
  {
    if rows == [] then [] else [ShownRow(rows[0])] + ShownRows(rows[1..])
  }

  lemma {:induction false} ReadDocument(records: seq<seq<string>>, rows: seq<seq<CsvValue>>)
    ensures ReadAll(Ready(records, []), Document(rows)) == Ready(records + ShownRows(rows), [])
    decreases |rows|
  {
    hide ReadAll, Read, CsvRow, ShownRow;
    if rows == [] {
      ReadNothing(Ready(records, []));
      assert records + [] == records;
    } else {
      var line, first, rest := CsvRow(rows[0]) + CRLF, ShownRow(rows[0]), rows[1..];
      assert Document(rows) == line + Document(rest) && ShownRows(rows) == [first] + ShownRows(rest);
      hide Document, ShownRows, Ready;
      ReadAllConcat(Ready(records, []), line, Document(rest));
      ReadRow(records, [], rows[0]);
      assert [] + first == first;
      ReadDocument(records + [first], rest);
      Associative(records, [first], ShownRows(rest));
    }
  }

  lemma ReadNothing(r: Reader)
    ensures ReadAll(r, "") == r
  {
  }

  /** Reading back a printed document recovers every cell as it is shown, whatever the cells contain. */
  lemma ParsePrinted(rows: seq<seq<CsvValue>>)
    ensures Parse(Document(rows)) == Some(ShownRows(rows))
  {
    hide ReadAll, ShownRows;
    ReadDocument([], rows);
    assert [] + ShownRows(rows) == ShownRows(rows);
  }

  /** What each cell of a printed document reads back as. */
  lemma CellReadsBack(rows: seq<seq<CsvValue>>, i: nat, j: nat)
    requires i < |rows| && j < |rows[i]|
    ensures var parsed := Parse(Document(rows));
            && parsed.Some? && |parsed.value| == |rows| && |parsed.value[i]| == |rows[i]|
            && parsed.value[i][j] ==
               match rows[i][j]
               case Null => ""
               case Num(text) => text
               case Bool(b) => if b then "true" else "false"
               case Str(s) => if s != "" && s[0] in "=+-@\t\r" then "'" + s else s
  {
    hide Parse;
    ParsePrinted(rows);
  }

  /** A field is printed bare, as a reader will see it, unless that would break the framing of fields and records. */
  lemma QuotedOnlyIfNeeded(value: CsvValue)
    ensures EscapeCsvField(value) == Shown(value) <==>
            forall c :: c in Shown(value) ==> c != '"' && c != ',' && c != '\r' && c != '\n'
  {
    hide Shown;
    DoubledLonger(Shown(value));
    assert value.Null? ==> Shown(value) == "" by { NullShown(); }
  }

  lemma {:induction false} DoubledLonger(s: string)
    ensures |Doubled(s)| >= |s|
  {
    if s != "" {
      DoubledLonger(s[1..]);
    }
  }

  /** No string cell of a printed document reads back as a formula. */
  lemma NoFormulas(rows: seq<seq<CsvValue>>, i: nat, j: nat)
    requires i < |rows| && j < |rows[i]| && rows[i][j].Str?
    ensures Parse(Document(rows)).Some?
    ensures i < |Parse(Document(rows)).value| && j < |Parse(Document(rows)).value[i]|
    ensures !Risky(Parse(Document(rows)).value[i][j])
  {
    hide Parse;
    ParsePrinted(rows);
    GuardIdempotent(rows[i][j].s);
  }
}
