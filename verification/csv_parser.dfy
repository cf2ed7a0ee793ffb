/**
 * `parseCSV` (lib/csvParser.ts). Line endings are normalised, a byte-order
 * mark is dropped, a first pass splits the text into records at newlines
 * outside quotes, the first record picks the delimiter (`;` unless it has
 * more commas than semicolons), and each record is split into trimmed cells
 * at delimiters outside quotes.
 *
 * The first pass as written removes the quote characters it toggles on, so
 * the second pass never sees them and splits quoted delimiters. `Parse` uses
 * the first pass with the quotes kept; `ParseAsWritten` is the code as it
 * stands.
 */
module CsvParser {
  import opened Text

  datatype Csv = Csv(headers: seq<string>, rows: seq<seq<string>>)

  /** The characters the parser looks for, by code point: the double quote,
      the line feed, the carriage return and the byte-order mark. */
  const QuoteMark: char := 34 as char
  const LineFeed: char := 10 as char
  const CarriageReturn: char := 13 as char
  const Bom: char := 0xFEFF as char

  // ---------------------------------------------------------------------------
  // Normalisation

  /** A carriage return and line feed pair, and then any remaining carriage
      return, become a line feed. */
  function NormalizeNewlines(s: string): (r: string)
    ensures CarriageReturn !in r
    ensures |r| <= |s|
    decreases |s|
  {
    if |s| == 0 then ""
    else if s[0] == CarriageReturn && |s| > 1 && s[1] == LineFeed then [LineFeed] + NormalizeNewlines(s[2..])
    else if s[0] == CarriageReturn then [LineFeed] + NormalizeNewlines(s[1..])
    else [s[0]] + NormalizeNewlines(s[1..])
  }

  lemma {:induction false} NormalizeNewlinesNoCr(s: string)
    ensures CarriageReturn !in s ==> NormalizeNewlines(s) == s
    decreases |s|
  {
    if |s| > 0 && CarriageReturn !in s {
      assert s[1..] == s[1..];
      assert forall i :: 0 <= i < |s| - 1 ==> s[1..][i] == s[i + 1];
      NormalizeNewlinesNoCr(s[1..]);
    }
  }

  /** The normalised text the first pass reads. */
  function Normalize(s: string): (r: string)
    ensures CarriageReturn !in r
    ensures CarriageReturn !in s && (|s| == 0 || s[0] != Bom) ==> r == s
  {
    NormalizeNewlinesNoCr(s);
    var n := NormalizeNewlines(s);
    if |n| > 0 && n[0] == Bom then n[1..] else n
  }

  // ---------------------------------------------------------------------------
  // First pass: records

  /** The first pass from a given state; `keepQuotes` says whether a quote
      character is copied into the record it toggles in. */
  function Scan(s: string, keepQuotes: bool, inQuotes: bool, cur: string, lines: seq<string>): seq<string>
    decreases |s|
  {
    if |s| == 0 then (if |cur| > 0 then lines + [cur] else lines)
    else if s[0] == QuoteMark then Scan(s[1..], keepQuotes, !inQuotes, if keepQuotes then cur + [QuoteMark] else cur, lines)
    else if !inQuotes && s[0] == LineFeed then Scan(s[1..], keepQuotes, inQuotes, "", lines + [cur])
    else Scan(s[1..], keepQuotes, inQuotes, cur + [s[0]], lines)
  }

  /** Every record followed by a newline. */
  function Unlines(ls: seq<string>): string {
    if |ls| == 0 then "" else ls[0] + [LineFeed] + Unlines(ls[1..])
  }

  lemma {:induction false} UnlinesSnoc(ls: seq<string>, l: string)
    ensures Unlines(ls + [l]) == Unlines(ls) + l + [LineFeed]
    decreases |ls|
  {
    if |ls| == 0 {
      assert ls + [l] == [l];
    } else {
      assert (ls + [l])[1..] == ls[1..] + [l];
      UnlinesSnoc(ls[1..], l);
    }
  }

  lemma {:induction false} ScanNoQuote(s: string, inQuotes: bool, cur: string, lines: seq<string>)
    requires forall i :: 0 <= i < |lines| ==> QuoteMark !in lines[i]
    requires QuoteMark !in cur
    ensures forall i :: 0 <= i < |Scan(s, false, inQuotes, cur, lines)| ==> QuoteMark !in Scan(s, false, inQuotes, cur, lines)[i]
    decreases |s|
  {
    if |s| > 0 {
      if s[0] == QuoteMark {
        ScanNoQuote(s[1..], !inQuotes, cur, lines);
      } else if !inQuotes && s[0] == LineFeed {
        ScanNoQuote(s[1..], inQuotes, "", lines + [cur]);
      } else {
        ScanNoQuote(s[1..], inQuotes, cur + [s[0]], lines);
      }
    }
  }

  /** `u` is `x` with a final newline added unless `x` already ends with one
      (or is empty). */
  predicate Terminated(u: string, x: string) {
    u == x + [LineFeed] || ((|x| == 0 || x[|x| - 1] == LineFeed) && u == x)
  }

  lemma {:induction false} UnlinesEnds(ls: seq<string>)
    ensures |Unlines(ls)| == 0 || Unlines(ls)[|Unlines(ls)| - 1] == LineFeed
    decreases |ls|
  {
    if |ls| > 0 {
      UnlinesEnds(ls[1..]);
    }
  }

  lemma {:induction false} ScanSpells(s: string, inQuotes: bool, cur: string, lines: seq<string>)
    ensures Terminated(Unlines(Scan(s, true, inQuotes, cur, lines)), Unlines(lines) + cur + s)
    decreases |s|
  {
    var x := Unlines(lines) + cur + s;
    if |s| == 0 {
      assert x == Unlines(lines) + cur;
      if |cur| > 0 {
        UnlinesSnoc(lines, cur);
      } else {
        UnlinesEnds(lines);
      }
    } else if s[0] == QuoteMark {
      ScanSpells(s[1..], !inQuotes, cur + [QuoteMark], lines);
      assert Unlines(lines) + (cur + [QuoteMark]) + s[1..] == x;
    } else if !inQuotes && s[0] == LineFeed {
      ScanSpells(s[1..], inQuotes, "", lines + [cur]);
      UnlinesSnoc(lines, cur);
      assert Unlines(lines + [cur]) + "" + s[1..] == x;
    } else {
      ScanSpells(s[1..], inQuotes, cur + [s[0]], lines);
      assert Unlines(lines) + (cur + [s[0]]) + s[1..] == x;
    }
  }

  /** The first pass as written: no record keeps a quote character. */
  function RecordsAsWritten(s: string): (ls: seq<string>)
    ensures forall i :: 0 <= i < |ls| ==> QuoteMark !in ls[i]
  {
    ScanNoQuote(s, false, "", []);
    Scan(s, false, false, "", [])
  }

  /** The first pass with quotes kept: the records, each followed by a newline,
      spell out the text (which gains a newline unless it ends with one). */
  function Records(s: string): (ls: seq<string>)
    ensures Terminated(Unlines(ls), s)
  {
    ScanSpells(s, false, "", []);
    assert Unlines([]) + "" + s == s;
    Scan(s, true, false, "", [])
  }

  /** With the quotes kept, a stretch without quotes that holds no newline, or
      is inside quotes, is copied into the current record unchanged. */
  lemma {:induction false} ScanPlain(a: string, rest: string, keepQuotes: bool, inQuotes: bool, cur: string, lines: seq<string>)
    requires QuoteMark !in a
    requires inQuotes || LineFeed !in a
    ensures Scan(a + rest, keepQuotes, inQuotes, cur, lines) == Scan(rest, keepQuotes, inQuotes, cur + a, lines)
    decreases |a|
  {
    if |a| == 0 {
      assert a + rest == rest && cur + a == cur;
    } else {
      assert (a + rest)[0] == a[0] && (a + rest)[1..] == a[1..] + rest;
      assert (cur + [a[0]]) + a[1..] == cur + a;
      ScanPlain(a[1..], rest, keepQuotes, inQuotes, cur + [a[0]], lines);
    }
  }

  // ---------------------------------------------------------------------------
  // Delimiter and cells

  /** `;` unless the first record has more commas than semicolons. */
  function DetectDelimiter(line: string): (d: char)
    ensures d == ';' || d == ','
    ensures d == ',' <==> CountChar(line, ',') > CountChar(line, ';')
  {
    if CountChar(line, ';') >= CountChar(line, ',') then ';' else ','
  }

  /** Splitting at `d` outside quotes from a given state; quote characters are
      dropped and each cell is trimmed. */
  function Cells(row: string, d: char, inQuotes: bool, cell: string, out: seq<string>): (r: seq<string>)
    requires forall i :: 0 <= i < |out| ==> IsTrimmed(out[i])
    ensures |r| > |out|
    ensures forall i :: 0 <= i < |r| ==> IsTrimmed(r[i])
    decreases |row|
  {
    if |row| == 0 then out + [Trim(cell)]
    else if row[0] == QuoteMark then Cells(row[1..], d, !inQuotes, cell, out)
    else if !inQuotes && row[0] == d then Cells(row[1..], d, inQuotes, "", out + [Trim(cell)])
    else Cells(row[1..], d, inQuotes, cell + [row[0]], out)
  }

  /** `parseRow`: at least one cell, every cell trimmed. */
  function ParseRow(row: string, d: char): (cells: seq<string>)
    ensures |cells| > 0
    ensures forall i :: 0 <= i < |cells| ==> IsTrimmed(cells[i])
  {
    Cells(row, d, false, "", [])
  }

  lemma {:induction false} CellsPlain(a: string, rest: string, d: char, inQuotes: bool, cell: string, out: seq<string>)
    requires forall i :: 0 <= i < |out| ==> IsTrimmed(out[i])
    requires QuoteMark !in a
    requires inQuotes || d !in a
    ensures Cells(a + rest, d, inQuotes, cell, out) == Cells(rest, d, inQuotes, cell + a, out)
    decreases |a|
  {
    if |a| == 0 {
      assert a + rest == rest && cell + a == cell;
    } else {
      assert (a + rest)[0] == a[0] && (a + rest)[1..] == a[1..] + rest;
      assert (cell + [a[0]]) + a[1..] == cell + a;
      CellsPlain(a[1..], rest, d, inQuotes, cell + [a[0]], out);
    }
  }

  /** A field in quotes. */
  function Quote(f: string): string {
    [QuoteMark] + f + [QuoteMark]
  }

  /** Fields in quotes joined by `d`: the record a spreadsheet writes. */
  function QuotedRecord(fields: seq<string>, d: char): (r: string)
    requires |fields| > 0
    ensures |r| >= 2 && r[0] == QuoteMark
  {
    if |fields| == 1 then Quote(fields[0])
    else Quote(fields[0]) + [d] + QuotedRecord(fields[1..], d)
  }

  predicate QuoteFree(fields: seq<string>) {
    forall i :: 0 <= i < |fields| ==> QuoteMark !in fields[i]
  }

  predicate AllTrimmed(fields: seq<string>) {
    forall i :: 0 <= i < |fields| ==> IsTrimmed(fields[i])
  }

  /** A quoted field without quote characters becomes the pending cell. */
  lemma CellsQuotedField(f: string, tail: string, d: char, out: seq<string>)
    requires QuoteMark !in f && AllTrimmed(out)
    ensures Cells(Quote(f) + tail, d, false, "", out) == Cells(tail, d, false, f, out)
  {
    var x := Quote(f) + tail;
    assert x == [QuoteMark] + (f + ([QuoteMark] + tail));
    assert x[1..] == f + ([QuoteMark] + tail);
    CellsPlain(f, [QuoteMark] + tail, d, true, "", out);
    assert ([QuoteMark] + tail)[1..] == tail;
    assert "" + f == f;
  }

  lemma {:induction false} CellsQuoted(fields: seq<string>, d: char, out: seq<string>)
    requires |fields| > 0 && QuoteFree(fields) && AllTrimmed(fields) && AllTrimmed(out)
    requires d != QuoteMark
    ensures Cells(QuotedRecord(fields, d), d, false, "", out) == out + fields
    decreases |fields|
  {
    var f := fields[0];
    TrimOfTrimmed(f);
    if |fields| == 1 {
      CellsQuotedField(f, "", d, out);
      assert Quote(f) + "" == QuotedRecord(fields, d);
    } else {
      var rest := QuotedRecord(fields[1..], d);
      CellsQuotedField(f, [d] + rest, d, out);
      assert Quote(f) + ([d] + rest) == QuotedRecord(fields, d);
      assert ([d] + rest)[1..] == rest;
      assert AllTrimmed(out + [f]);
      CellsQuoted(fields[1..], d, out + [f]);
      assert out + [f] + fields[1..] == out + fields;
    }
  }

  /** Quoted, trimmed fields without quote characters come back from
      `parseRow` unchanged, even when they hold the delimiter. */
  lemma ParseRowQuoted(fields: seq<string>, d: char)
    requires |fields| > 0 && QuoteFree(fields) && AllTrimmed(fields)
    requires d != QuoteMark
    ensures ParseRow(QuotedRecord(fields, d), d) == fields
  {
    CellsQuoted(fields, d, []);
  }

  // ---------------------------------------------------------------------------
  // The whole parser

  function FromRecords(lines: seq<string>): (c: Csv)
    ensures |lines| == 0 ==> c == Csv([], [])
    ensures |lines| > 0 ==> |c.rows| == |lines| - 1 && |c.headers| > 0
  {
    if |lines| == 0 then Csv([], [])
    else
      var d := DetectDelimiter(lines[0]);
      Csv(ParseRow(lines[0], d), seq(|lines| - 1, i requires 0 <= i < |lines| - 1 => ParseRow(lines[i + 1], d)))
  }

  /** `parseCSV` as written. */
  function ParseAsWritten(text: string): (c: Csv)
    ensures c.headers == [] <==> RecordsAsWritten(Normalize(text)) == []
  {
    FromRecords(RecordsAsWritten(Normalize(text)))
  }

  /** `parseCSV` with the quote characters kept through the first pass. */
  function Parse(text: string): (c: Csv)
    ensures c.headers == [] <==> Records(Normalize(text)) == []
  {
    FromRecords(Records(Normalize(text)))
  }

  /** The file a spreadsheet writes for a table: every record quoted, records
      separated by newlines. */
  function QuotedFile(table: seq<seq<string>>, d: char): string
    requires forall r :: 0 <= r < |table| ==> |table[r]| > 0
  {
    if |table| == 0 then ""
    else if |table| == 1 then QuotedRecord(table[0], d)
    else QuotedRecord(table[0], d) + [LineFeed] + QuotedFile(table[1..], d)
  }

  lemma {:induction false} QuotedRecordNoCr(fields: seq<string>, d: char)
    requires |fields| > 0 && d != CarriageReturn
    requires forall i :: 0 <= i < |fields| ==> CarriageReturn !in fields[i]
    ensures CarriageReturn !in QuotedRecord(fields, d)
    decreases |fields|
  {
    if |fields| > 1 {
      QuotedRecordNoCr(fields[1..], d);
    }
  }

  lemma {:induction false} QuotedFileNoCr(table: seq<seq<string>>, d: char)
    requires forall r :: 0 <= r < |table| ==> |table[r]| > 0
    requires d != CarriageReturn
    requires forall r, i :: 0 <= r < |table| && 0 <= i < |table[r]| ==> CarriageReturn !in table[r][i]
    ensures CarriageReturn !in QuotedFile(table, d)
    decreases |table|
  {
    if |table| > 0 {
      QuotedRecordNoCr(table[0], d);
      if |table| > 1 {
        QuotedFileNoCr(table[1..], d);
      }
    }
  }

  /** A quoted record is read by the corrected first pass as one stretch,
      whatever delimiters or newlines its fields hold. */
  lemma {:induction false} ScanQuotedRecord(fields: seq<string>, d: char, rest: string, cur: string, lines: seq<string>)
    requires |fields| > 0 && QuoteFree(fields)
    requires d != QuoteMark && d != LineFeed
    ensures Scan(QuotedRecord(fields, d) + rest, true, false, cur, lines)
         == Scan(rest, true, false, cur + QuotedRecord(fields, d), lines)
    decreases |fields|
  {
    var f := fields[0];
    assert QuoteMark !in f;
    if |fields| == 1 {
      ScanQuotedField(f, rest, cur, lines);
    } else {
      var more := QuotedRecord(fields[1..], d);
      assert QuotedRecord(fields, d) + rest == Quote(f) + ([d] + (more + rest));
      ScanQuotedField(f, [d] + (more + rest), cur, lines);
      ScanDelimiter(d, more + rest, cur + Quote(f), lines);
      ScanQuotedRecord(fields[1..], d, rest, cur + Quote(f) + [d], lines);
      assert cur + Quote(f) + [d] + more == cur + QuotedRecord(fields, d);
    }
  }

  /** One quoted field is read as it stands, quotes included. */
  lemma ScanQuotedField(f: string, rest: string, cur: string, lines: seq<string>)
    requires QuoteMark !in f
    ensures Scan(Quote(f) + rest, true, false, cur, lines) == Scan(rest, true, false, cur + Quote(f), lines)
  {
    var inner := f + ([QuoteMark] + rest);
    assert Quote(f) + rest == [QuoteMark] + inner;
    assert ([QuoteMark] + inner)[1..] == inner;
    ScanPlain(f, [QuoteMark] + rest, true, true, cur + [QuoteMark], lines);
    assert ([QuoteMark] + rest)[1..] == rest;
    assert cur + [QuoteMark] + f + [QuoteMark] == cur + Quote(f);
  }

  /** A delimiter outside quotes is kept as it stands. */
  lemma ScanDelimiter(d: char, rest: string, cur: string, lines: seq<string>)
    requires d != QuoteMark && d != LineFeed
    ensures Scan([d] + rest, true, false, cur, lines) == Scan(rest, true, false, cur + [d], lines)
  {
    assert ([d] + rest)[1..] == rest;
  }

  lemma {:induction false} ScanQuotedFile(table: seq<seq<string>>, d: char, lines: seq<string>)
    requires |table| > 0
    requires forall r :: 0 <= r < |table| ==> |table[r]| > 0 && QuoteFree(table[r])
    requires d != QuoteMark && d != LineFeed
    ensures Scan(QuotedFile(table, d), true, false, "", lines)
         == lines + seq(|table|, r requires 0 <= r < |table| => QuotedRecord(table[r], d))
    decreases |table|
  {
    var q := QuotedRecord(table[0], d);
    var all := seq(|table|, r requires 0 <= r < |table| => QuotedRecord(table[r], d));
    if |table| == 1 {
      ScanQuotedRecord(table[0], d, "", "", lines);
      assert q + "" == q && "" + q == q;
      assert all == [q];
    } else {
      var rest := QuotedFile(table[1..], d);
      assert QuotedFile(table, d) == q + ([LineFeed] + rest);
      ScanQuotedRecord(table[0], d, [LineFeed] + rest, "", lines);
      assert "" + q == q;
      assert ([LineFeed] + rest)[1..] == rest;
      assert Scan([LineFeed] + rest, true, false, q, lines) == Scan(rest, true, false, "", lines + [q]);
      ScanQuotedFile(table[1..], d, lines + [q]);
      assert all == [q] + seq(|table| - 1, r requires 0 <= r < |table| - 1 => QuotedRecord(table[1..][r], d));
    }
  }

  lemma {:induction false} CountQuotedRecord(fields: seq<string>, d: char, c: char)
    requires |fields| > 0
    requires c != QuoteMark
    requires forall i :: 0 <= i < |fields| ==> c !in fields[i]
    ensures CountChar(QuotedRecord(fields, d), c) == if c == d then |fields| - 1 else 0
    decreases |fields|
  {
    var f := fields[0];
    CountCharZero(f, c);
    CountCharAppend([QuoteMark], f, c);
    CountCharAppend([QuoteMark] + f, [QuoteMark], c);
    if |fields| > 1 {
      CountQuotedRecord(fields[1..], d, c);
      CountCharAppend(Quote(f), [d], c);
      CountCharAppend(Quote(f) + [d], QuotedRecord(fields[1..], d), c);
    }
  }

  /** The delimiter a quoted header record is written with is the one detected,
      when the header names hold no comma or semicolon (a single column is
      read with `;`). */
  lemma DetectQuotedHeader(fields: seq<string>, d: char)
    requires |fields| > 0
    requires d == ',' || d == ';'
    requires forall i :: 0 <= i < |fields| ==> ',' !in fields[i] && ';' !in fields[i]
    requires d == ',' ==> |fields| > 1
    ensures DetectDelimiter(QuotedRecord(fields, d)) == d
  {
    CountQuotedRecord(fields, d, ',');
    CountQuotedRecord(fields, d, ';');
  }

  /** The text of a quoted table is already normalised. */
  lemma QuotedFileNormalized(table: seq<seq<string>>, d: char)
    requires |table| > 0
    requires d == ',' || d == ';'
    requires forall r :: 0 <= r < |table| ==> |table[r]| > 0
    requires forall r, i :: 0 <= r < |table| && 0 <= i < |table[r]| ==> CarriageReturn !in table[r][i]
    ensures Normalize(QuotedFile(table, d)) == QuotedFile(table, d)
  {
    var text := QuotedFile(table, d);
    QuotedFileNoCr(table, d);
    if |table| > 1 {
      assert text == QuotedRecord(table[0], d) + ([LineFeed] + QuotedFile(table[1..], d));
    }
    assert text[0] == QuoteMark;
  }

  /** Quoted records under a header that detects its own delimiter give the
      table back. */
  lemma FromQuotedRecords(table: seq<seq<string>>, d: char)
    requires |table| > 0
    requires d == ',' || d == ';'
    requires forall r :: 0 <= r < |table| ==> |table[r]| > 0 && QuoteFree(table[r]) && AllTrimmed(table[r])
    requires forall i :: 0 <= i < |table[0]| ==> ',' !in table[0][i] && ';' !in table[0][i]
    requires d == ',' ==> |table[0]| > 1
    ensures FromRecords(seq(|table|, r requires 0 <= r < |table| => QuotedRecord(table[r], d)))
         == Csv(table[0], table[1..])
  {
    var lines := seq(|table|, r requires 0 <= r < |table| => QuotedRecord(table[r], d));
    DetectQuotedHeader(table[0], d);
    ParseRowQuoted(table[0], d);
    forall r | 0 <= r < |table| - 1
      ensures ParseRow(lines[r + 1], d) == table[1..][r]
    {
      ParseRowQuoted(table[r + 1], d);
    }
  }

  /** A table written as quoted records parses back: header names and cells
      without quote characters or carriage returns, already trimmed, header
      names without a comma or semicolon. Cells may hold the delimiter and
      newlines. */
  lemma ParseQuotedFile(table: seq<seq<string>>, d: char)
    requires |table| > 0
    requires d == ',' || d == ';'
    requires forall r :: 0 <= r < |table| ==> |table[r]| > 0 && QuoteFree(table[r]) && AllTrimmed(table[r])
    requires forall r, i :: 0 <= r < |table| && 0 <= i < |table[r]| ==> CarriageReturn !in table[r][i]
    requires forall i :: 0 <= i < |table[0]| ==> ',' !in table[0][i] && ';' !in table[0][i]
    requires d == ',' ==> |table[0]| > 1
    ensures Parse(QuotedFile(table, d)) == Csv(table[0], table[1..])
  {
    QuotedFileNormalized(table, d);
    ScanQuotedFile(table, d, []);
    assert [] + seq(|table|, r requires 0 <= r < |table| => QuotedRecord(table[r], d))
        == seq(|table|, r requires 0 <= r < |table| => QuotedRecord(table[r], d));
    FromQuotedRecords(table, d);
  }

  /** The first pass as written reads `"a,b","c"` as the record `a,b,c`. */
  lemma RecordsAsWrittenExample()
    ensures RecordsAsWritten([QuoteMark, 'a', ',', 'b', QuoteMark, ',', QuoteMark, 'c', QuoteMark]) == ["a,b,c"]
  {
    var text := [QuoteMark, 'a', ',', 'b', QuoteMark, ',', QuoteMark, 'c', QuoteMark];
    assert text[1..] == "a,b" + [QuoteMark, ',', QuoteMark, 'c', QuoteMark];
    ScanPlain("a,b", [QuoteMark, ',', QuoteMark, 'c', QuoteMark], false, true, "", []);
    assert "" + "a,b" == "a,b";
    assert [QuoteMark, ',', QuoteMark, 'c', QuoteMark][1..] == "," + [QuoteMark, 'c', QuoteMark];
    ScanPlain(",", [QuoteMark, 'c', QuoteMark], false, false, "a,b", []);
    assert [QuoteMark, 'c', QuoteMark][1..] == "c" + [QuoteMark];
    ScanPlain("c", [QuoteMark], false, true, "a,b" + ",", []);
    assert "a,b" + "," + "c" == "a,b,c";
    assert [QuoteMark][1..] == "";
  }

  /** A plain trimmed cell followed by the delimiter is emitted as it is. */
  lemma CellsPlainCell(f: string, rest: string, d: char, out: seq<string>)
    requires QuoteMark !in f && d !in f && IsTrimmed(f) && AllTrimmed(out)
    requires d != QuoteMark
    ensures Cells(f + ([d] + rest), d, false, "", out) == Cells(rest, d, false, "", out + [f])
  {
    CellsPlain(f, [d] + rest, d, false, "", out);
    assert "" + f == f;
    assert ([d] + rest)[1..] == rest;
    TrimOfTrimmed(f);
  }

  lemma {:induction false} CellsPlainRecord(fields: seq<string>, d: char, out: seq<string>)
    requires |fields| > 0 && QuoteFree(fields) && AllTrimmed(fields) && AllTrimmed(out)
    requires forall i :: 0 <= i < |fields| ==> d !in fields[i]
    requires d != QuoteMark
    ensures Cells(Join(fields, d), d, false, "", out) == out + fields
    decreases |fields|
  {
    var f := fields[0];
    if |fields| == 1 {
      CellsLast(f, d, out);
    } else {
      var rest := Join(fields[1..], d);
      assert Join(fields, d) == f + ([d] + rest);
      CellsPlainCell(f, rest, d, out);
      assert AllTrimmed(out + [f]);
      CellsPlainRecord(fields[1..], d, out + [f]);
      assert out + [f] + fields[1..] == out + fields;
    }
  }

  /** A plain trimmed cell at the end of the record is emitted as it is. */
  lemma CellsLast(f: string, d: char, out: seq<string>)
    requires QuoteMark !in f && d !in f && IsTrimmed(f) && AllTrimmed(out)
    ensures Cells(f, d, false, "", out) == out + [f]
  {
    CellsPlain(f, "", d, false, "", out);
    assert f + "" == f && "" + f == f;
    TrimOfTrimmed(f);
  }

  /** Trimmed cells holding neither quotes nor the delimiter, joined by the
      delimiter, come back from `parseRow` unchanged. */
  lemma ParseRowPlain(fields: seq<string>, d: char)
    requires |fields| > 0 && QuoteFree(fields) && AllTrimmed(fields)
    requires forall i :: 0 <= i < |fields| ==> d !in fields[i]
    requires d != QuoteMark
    ensures ParseRow(Join(fields, d), d) == fields
  {
    CellsPlainRecord(fields, d, []);
  }

  lemma JoinExample()
    ensures Join(["a", "b", "c"], ',') == "a,b,c"
  {
    var fields := ["a", "b", "c"];
    assert fields[1..] == ["b", "c"] && fields[1..][1..] == ["c"];
  }

  lemma ExampleFields()
    ensures QuoteFree(["a", "b", "c"]) && AllTrimmed(["a", "b", "c"])
    ensures forall i :: 0 <= i < 3 ==> ',' !in ["a", "b", "c"][i]
    ensures QuoteFree(["a,b", "c"]) && AllTrimmed(["a,b", "c"])
  {
  }

  lemma ParseRowExample()
    ensures DetectDelimiter("a,b,c") == ','
    ensures ParseRow("a,b,c", ',') == ["a", "b", "c"]
  {
    JoinExample();
    ExampleFields();
    CountCharZero("a,b,c", ';');
    CountCharZero("a,b,c", ',');
    assert "a,b,c"[1] == ',';
    ParseRowPlain(["a", "b", "c"], ',');
  }

  lemma QuotedExample()
    ensures QuotedRecord(["a,b", "c"], ',') == [QuoteMark, 'a', ',', 'b', QuoteMark, ',', QuoteMark, 'c', QuoteMark]
  {
    var fields := ["a,b", "c"];
    assert fields[1..] == ["c"];
  }

  lemma RecordsExample()
    ensures Records([QuoteMark, 'a', ',', 'b', QuoteMark, ',', QuoteMark, 'c', QuoteMark]) == [[QuoteMark, 'a', ',', 'b', QuoteMark, ',', QuoteMark, 'c', QuoteMark]]
  {
    var text := [QuoteMark, 'a', ',', 'b', QuoteMark, ',', QuoteMark, 'c', QuoteMark];
    QuotedExample();
    ExampleFields();
    ScanQuotedRecord(["a,b", "c"], ',', "", "", []);
    assert text + "" == text && "" + text == text;
  }

  lemma QuotedDelimiterExample()
    ensures DetectDelimiter([QuoteMark, 'a', ',', 'b', QuoteMark, ',', QuoteMark, 'c', QuoteMark]) == ','
  {
    var text := [QuoteMark, 'a', ',', 'b', QuoteMark, ',', QuoteMark, 'c', QuoteMark];
    CountCharZero(text, ';');
    CountCharZero(text, ',');
    assert text[2] == ',';
  }

  lemma QuotedRowExample()
    ensures ParseRow([QuoteMark, 'a', ',', 'b', QuoteMark, ',', QuoteMark, 'c', QuoteMark], ',') == ["a,b", "c"]
  {
    QuotedExample();
    ExampleFields();
    ParseRowQuoted(["a,b", "c"], ',');
  }

  /** The header record `"a,b","c"` is read as three columns by the code as
      written, and as the two the file holds by the corrected parser. */
  lemma QuotedDelimiterSplitAsWritten()
    ensures ParseAsWritten([QuoteMark, 'a', ',', 'b', QuoteMark, ',', QuoteMark, 'c', QuoteMark]).headers == ["a", "b", "c"]
    ensures Parse([QuoteMark, 'a', ',', 'b', QuoteMark, ',', QuoteMark, 'c', QuoteMark]).headers == ["a,b", "c"]
  {
    var text := [QuoteMark, 'a', ',', 'b', QuoteMark, ',', QuoteMark, 'c', QuoteMark];
    NormalizeNewlinesNoCr(text);
    assert Normalize(text) == text;
    HeadersAsWritten(text);
    HeadersCorrected(text);
  }

  lemma HeadersAsWritten(text: string)
    requires text == [QuoteMark, 'a', ',', 'b', QuoteMark, ',', QuoteMark, 'c', QuoteMark] && Normalize(text) == text
    ensures ParseAsWritten(text).headers == ["a", "b", "c"]
  {
    RecordsAsWrittenExample();
    ParseRowExample();
    FirstHeaders(["a,b,c"]);
  }

  lemma HeadersCorrected(text: string)
    requires text == [QuoteMark, 'a', ',', 'b', QuoteMark, ',', QuoteMark, 'c', QuoteMark] && Normalize(text) == text
    ensures Parse(text).headers == ["a,b", "c"]
  {
    RecordsExample();
    QuotedDelimiterExample();
    QuotedRowExample();
    FirstHeaders([text]);
  }

  /** The headers are the first record split at its own delimiter. */
  lemma FirstHeaders(lines: seq<string>)
    requires |lines| > 0
    ensures FromRecords(lines).headers == ParseRow(lines[0], DetectDelimiter(lines[0]))
  {
  }
}
