/** The console's two CSV readers and its CSV writer.

    The record page reads a file by splitting it into lines on `\r\n` or
    `\n`, dropping blank lines, splitting each line on every comma (quotes
    do not protect commas) and cleaning each cell. The module builder has a
    second reader with different rules: `\n` only, trim first and then
    delete every quote character, and a one-line file is accepted.

    The writer doubles each `"` of a value but wraps the value in quotes
    only when it holds a comma or a newline; section 2 of RFC 4180 (rules 6
    and 7) also asks for the quotes when the value holds a `"`. */
module Csv {
  import opened Wrappers
  import opened Text
  import opened Seqs
  import opened Objects
  import opened Records

  // ---------------------------------------------------------------------
  // Cell cleaning of the record page (`cleanText`)

  predicate IsQuoteChar(c: char) {
    c == '\'' || c == '"'
  }

  predicate NotQuote(c: char) {
    !IsQuoteChar(c)
  }

  /** Removes the leading run of `'` and `"`. */
  function DropLeadingQuotes(s: string): (r: string)
    ensures |r| <= |s| && r == s[|s| - |r|..]
    ensures forall i :: 0 <= i < |s| - |r| ==> IsQuoteChar(s[i])
    ensures r == [] || !IsQuoteChar(r[0])
  {
    if s != [] && IsQuoteChar(s[0]) then DropLeadingQuotes(s[1..]) else s
  }

  /** Removes the trailing run of `'` and `"`. */
  function DropTrailingQuotes(s: string): (r: string)
    ensures |r| <= |s| && r == s[..|r|]
    ensures forall i :: |r| <= i < |s| ==> IsQuoteChar(s[i])
    ensures r == [] || !IsQuoteChar(r[|r| - 1])
  {
    if s != [] && IsQuoteChar(s[|s| - 1]) then DropTrailingQuotes(s[..|s| - 1]) else s
  }

  predicate IsLineBreak(c: char) {
    c == '\r' || c == '\n'
  }

  predicate NotLineBreak(c: char) {
    !IsLineBreak(c)
  }

  /** `.replace(/[\r\n]+/g, '')`: every CR and LF deleted. */
  function RemoveLineBreaks(s: string): (r: string)
    ensures |r| <= |s|
    ensures '\r' !in r && '\n' !in r
    ensures '\r' !in s && '\n' !in s ==> r == s
    ensures r == Filter(s, NotLineBreak)
  {
    if s == [] then []
    else (if IsLineBreak(s[0]) then [] else [s[0]]) + RemoveLineBreaks(s[1..])
  }

  /** `cleanText`: drop a leading and a trailing run of quote characters,
      delete the line breaks, then trim. Trimming comes last, so quotes
      standing behind spaces survive. */
  function CleanText(s: string): (r: string)
    ensures |r| <= |s|
    ensures '\r' !in r && '\n' !in r
    ensures r == [] || (!IsSpace(r[0]) && !IsSpace(r[|r| - 1]))
  {
    if s == [] then []
    else
      var body := RemoveLineBreaks(DropTrailingQuotes(DropLeadingQuotes(s)));
      TrimKeepsAbsence(body, '\r');
      TrimKeepsAbsence(body, '\n');
      Trim(body)
  }

  /** A value the writer and the record page's reader both pass through
      unchanged: no comma, quote character or line break, and no space at
      either end. */
  predicate IsPlainCell(v: string) {
    && ',' !in v && '"' !in v && '\'' !in v && '\r' !in v && '\n' !in v
    && (v == [] || (!IsSpace(v[0]) && !IsSpace(v[|v| - 1])))
  }

  lemma PlainCellEnds(v: string)
    requires IsPlainCell(v) && v != []
    ensures !IsQuoteChar(v[0]) && !IsQuoteChar(v[|v| - 1])
  {
    assert v[0] in v && v[|v| - 1] in v;
  }

  lemma {:induction false} CleanTextOfPlain(v: string)
    requires IsPlainCell(v)
    ensures CleanText(v) == v
  {
    if v != [] {
      PlainCellEnds(v);
      CleanTextSteps(v);
      NoQuotesToDrop(v);
      TrimOfTrimmed(v);
    }
  }

  /** A leading space character that is neither a quote nor a line break,
      such as the byte order mark the writer puts before the first header,
      is removed by `cleanText`. */
  lemma {:induction false} CleanTextAfterSpace(c: char, v: string)
    requires IsSpace(c) && !IsQuoteChar(c) && !IsLineBreak(c)
    requires IsPlainCell(v)
    ensures CleanText([c] + v) == v
  {
    var s := [c] + v;
    assert DropLeadingQuotes(s) == s;
    assert s[|s| - 1] == if v == [] then c else v[|v| - 1];
    assert DropTrailingQuotes(s) == s;
    assert RemoveLineBreaks(s) == s;
    TrimAfterSpace(c, v);
  }

  /** Text that neither starts nor ends with a quote character loses
      nothing to the quote runs. */
  lemma NoQuotesToDrop(s: string)
    requires s == [] || (!IsQuoteChar(s[0]) && !IsQuoteChar(s[|s| - 1]))
    ensures DropTrailingQuotes(DropLeadingQuotes(s)) == s
  {
  }

  /** A single quote character in front of text that does not start with
      one is the whole leading run. */
  lemma DropOneLeadingQuote(q: char, t: string)
    requires IsQuoteChar(q) && t != [] && !IsQuoteChar(t[0])
    ensures DropLeadingQuotes([q] + t) == t
  {
    assert ([q] + t)[1..] == t;
  }

  /** A single quote character after text that does not end with one is
      the whole trailing run. */
  lemma DropOneTrailingQuote(t: string, q: char)
    requires IsQuoteChar(q) && t != [] && !IsQuoteChar(t[|t| - 1])
    ensures DropTrailingQuotes(t + [q]) == t
  {
    assert (t + [q])[..|t|] == t;
  }

  /** Wrapping text without line breaks in two other characters adds none. */
  lemma NoLineBreaksBetween(c: char, v: string)
    requires !IsLineBreak(c) && '\r' !in v && '\n' !in v
    ensures '\r' !in [c] + v + [c] && '\n' !in [c] + v + [c]
  {
  }

  /** The steps of `cleanText` on text between two spaces. */
  lemma SpacedSteps(v: string)
    requires v != [] && !IsSpace(v[0]) && !IsSpace(v[|v| - 1])
    requires '\r' !in v && '\n' !in v
    ensures var s := [' '] + v + [' '];
      DropTrailingQuotes(DropLeadingQuotes(s)) == s && RemoveLineBreaks(s) == s && Trim(s) == v
  {
    var s := [' '] + v + [' '];
    assert s[0] == ' ' && s[|s| - 1] == ' ';
    NoQuotesToDrop(s);
    NoLineBreaksBetween(' ', v);
    TrimBetweenSpaces(v);
  }

  /** The steps of `cleanText` on text between two quote characters. */
  lemma QuotedSteps(q: char, v: string)
    requires IsQuoteChar(q)
    requires v != [] && !IsQuoteChar(v[0]) && !IsQuoteChar(v[|v| - 1])
    requires !IsSpace(v[0]) && !IsSpace(v[|v| - 1])
    requires '\r' !in v && '\n' !in v
    ensures DropTrailingQuotes(DropLeadingQuotes([q] + v + [q])) == v && RemoveLineBreaks(v) == v && Trim(v) == v
  {
    DropOneLeadingQuote(q, v + [q]);
    assert [q] + v + [q] == [q] + (v + [q]);
    DropOneTrailingQuote(v, q);
    TrimOfTrimmed(v);
  }

  lemma {:induction false} CleanTextSteps(s: string)
    requires s != []
    ensures CleanText(s) == Trim(RemoveLineBreaks(DropTrailingQuotes(DropLeadingQuotes(s))))
  {
  }

  /** Text standing between two spaces comes out whole, whatever quotes
      it starts or ends with: the quote runs are looked for before the
      spaces are trimmed. */
  lemma {:induction false} CleanTextKeepsQuotesBehindSpaces(v: string)
    requires v != [] && !IsSpace(v[0]) && !IsSpace(v[|v| - 1])
    requires '\r' !in v && '\n' !in v
    ensures CleanText([' '] + v + [' ']) == v
  {
    var s := [' '] + v + [' '];
    SpacedSteps(v);
    CleanTextSteps(s);
  }

  // ---------------------------------------------------------------------
  // Lines

  /** Removes one final CR. */
  function DropFinalCr(s: string): string {
    if s != [] && s[|s| - 1] == '\r' then s[..|s| - 1] else s
  }

  /** `text.split(/\r\n|\n/)`. The regular expression tries `\r\n` first at
      each position, so every LF separates, taking a CR right before it
      along; the piece after the last LF keeps a final CR. */
  function SplitLines(text: string): (r: seq<string>)
    ensures |r| == |Split(text, '\n')|
    ensures forall i :: 0 <= i < |r| ==> r[i] == if i < |r| - 1 then DropFinalCr(Split(text, '\n')[i]) else Split(text, '\n')[i]
  {
    var pieces := Split(text, '\n');
    seq(|pieces|, i requires 0 <= i < |pieces| => if i < |pieces| - 1 then DropFinalCr(pieces[i]) else pieces[i])
  }

  /** On text without CR the two readers cut the same lines. */
  lemma {:induction false} SplitLinesWithoutCr(text: string)
    requires '\r' !in text
    ensures SplitLines(text) == Split(text, '\n')
  {
    var pieces := Split(text, '\n');
    SplitThenJoin(text, '\n');
    forall i | 0 <= i < |pieces|
      ensures '\r' !in pieces[i]
    {
      PieceOfJoin(pieces, '\n', i, '\r');
    }
  }

  /** A character absent from a joined string is absent from each part. */
  lemma {:induction false} PieceOfJoin(parts: seq<string>, sep: char, i: nat, c: char)
    requires i < |parts| && c !in Join(parts, sep)
    ensures c !in parts[i]
    decreases |parts|
  {
    if |parts| > 1 {
      assert Join(parts, sep) == parts[0] + [sep] + Join(parts[1..], sep);
      if i > 0 {
        PieceOfJoin(parts[1..], sep, i - 1, c);
      }
    }
  }

  /** The lines that are not blank after trimming, in order. */
  predicate NotBlank(line: string) {
    !IsBlank(line)
  }

  function DropBlank(lines: seq<string>): (r: seq<string>)
    ensures |r| <= |lines|
    ensures forall i :: 0 <= i < |r| ==> !IsBlank(r[i]) && r[i] in lines
    ensures forall i :: 0 <= i < |lines| && !IsBlank(lines[i]) ==> lines[i] in r
    ensures (forall i :: 0 <= i < |lines| ==> !IsBlank(lines[i])) ==> r == lines
    ensures r == Filter(lines, NotBlank)
  {
    if lines == [] then []
    else
      var rest := DropBlank(lines[1..]);
      assert forall i :: 1 <= i < |lines| ==> lines[i] == lines[1..][i - 1];
      if IsBlank(lines[0]) then rest else [lines[0]] + rest
  }

  // ---------------------------------------------------------------------
  // The record page's reader

  /** The headers and rows read from a file. Each row maps each header to
      its cell; a repeated header keeps its first position and its last
      cell, as assignments into a JavaScript object do. */
  datatype CsvTable = CsvTable(headers: seq<string>, rows: seq<Dict<string>>)

  /** Cell `i` of a line: the cleaned value when it is present and
      non-empty, otherwise the empty string. */
  function CrudCell(values: seq<string>, i: nat): string {
    if i < |values| && values[i] != "" then CleanText(values[i]) else ""
  }

  /** The cells of a line, one per header. */
  function CrudCells(n: nat, values: seq<string>): (r: seq<string>)
    ensures |r| == n
    ensures forall i :: 0 <= i < n ==> r[i] == CrudCell(values, i)
  {
    seq(n, i requires 0 <= i < n => CrudCell(values, i))
  }

  function CrudRow(headers: seq<string>, line: string): (r: Dict<string>)
    ensures Valid(r) && r.keys == Dedup(headers)
  {
    FromPairs(headers, CrudCells(|headers|, Split(line, ',')))
  }

  /** The row holds, under each header, the cell in the same column (for a
      repeated header, the cell under its last occurrence); a line shorter
      than the header gives `''`. */
  lemma {:induction false} CrudRowCell(headers: seq<string>, line: string, i: nat)
    requires i < |headers| && headers[i] !in headers[i + 1..]
    ensures Get(CrudRow(headers, line), headers[i]) == Some(CrudCell(Split(line, ','), i))
    ensures i >= |Split(line, ',')| ==> Get(CrudRow(headers, line), headers[i]) == Some("")
  {
    FromPairsLastWins(headers, CrudCells(|headers|, Split(line, ',')), i);
  }

  function CrudRows(headers: seq<string>, lines: seq<string>): (r: seq<Dict<string>>)
    ensures |r| == |lines|
    ensures forall k :: 0 <= k < |lines| ==> r[k] == CrudRow(headers, lines[k])
  {
    seq(|lines|, k requires 0 <= k < |lines| => CrudRow(headers, lines[k]))
  }

  const InvalidFile: string := "Arquivo inválido."

  function CrudHeaders(line: string): (r: seq<string>)
    ensures |r| == |Split(line, ',')|
    ensures forall j :: 0 <= j < |r| ==> r[j] == CleanText(Split(line, ',')[j])
  {
    var cols := Split(line, ',');
    seq(|cols|, j requires 0 <= j < |cols| => CleanText(cols[j]))
  }

  /** The record page's reader. Fewer than two non-blank lines is an
      invalid file; otherwise the first line gives the headers and every
      other line a row keyed by them. */
  function ParseCrudCsv(text: string): (r: Result<CsvTable, string>)
    ensures r.Err? <==> |DropBlank(SplitLines(text))| < 2
    ensures r.Err? ==> r.error == InvalidFile
    ensures r.Ok? ==> |r.value.headers| >= 1
    ensures r.Ok? ==> |r.value.rows| == |DropBlank(SplitLines(text))| - 1
    ensures r.Ok? ==> forall j :: 0 <= j < |r.value.headers| ==>
              '\r' !in r.value.headers[j] && '\n' !in r.value.headers[j]
    ensures r.Ok? ==> forall k :: 0 <= k < |r.value.rows| ==>
              Valid(r.value.rows[k]) && r.value.rows[k].keys == Dedup(r.value.headers)
    ensures var lines := DropBlank(SplitLines(text));
      r.Ok? ==> && |lines| >= 2 && |r.value.rows| == |lines| - 1
                && r.value.headers == CrudHeaders(lines[0])
                && forall k :: 0 <= k < |r.value.rows| ==> r.value.rows[k] == CrudRow(r.value.headers, lines[k + 1])
  {
    var lines := DropBlank(SplitLines(text));
    if |lines| < 2 then Err(InvalidFile)
    else
      var headers := CrudHeaders(lines[0]);
      Ok(CsvTable(headers, CrudRows(headers, lines[1..])))
  }

  // ---------------------------------------------------------------------
  // The module builder's reader

  /** `.replace(/['"]+/g, '')`: every quote character deleted. */
  function StripQuotes(s: string): (r: string)
    ensures |r| <= |s|
    ensures '"' !in r && '\'' !in r
    ensures '"' !in s && '\'' !in s ==> r == s
    ensures r == Filter(s, NotQuote)
  {
    if s == [] then []
    else (if IsQuoteChar(s[0]) then [] else [s[0]]) + StripQuotes(s[1..])
  }

  /** A builder header or cell: trimmed, then stripped of quotes. */
  function BuilderText(s: string): (r: string)
    ensures '"' !in r && '\'' !in r
  {
    StripQuotes(Trim(s))
  }

  function BuilderCell(values: seq<string>, i: nat): string {
    if i < |values| && values[i] != "" then BuilderText(values[i]) else ""
  }

  function BuilderCells(n: nat, values: seq<string>): (r: seq<string>)
    ensures |r| == n
    ensures forall i :: 0 <= i < n ==> r[i] == BuilderCell(values, i)
  {
    seq(n, i requires 0 <= i < n => BuilderCell(values, i))
  }

  function BuilderRow(headers: seq<string>, line: string): (r: Dict<string>)
    ensures Valid(r) && r.keys == Dedup(headers)
  {
    FromPairs(headers, BuilderCells(|headers|, Split(line, ',')))
  }

  /** Header `i` holds the trimmed, quote-free cell `i`, or `''` when the
      line has no such cell or it is empty, unless a later header repeats
      it. */
  lemma {:induction false} BuilderRowCell(headers: seq<string>, line: string, i: nat)
    requires i < |headers| && headers[i] !in headers[i + 1..]
    ensures var cells := Split(line, ',');
      Get(BuilderRow(headers, line), headers[i])
        == Some(if i < |cells| && cells[i] != "" then StripQuotes(Trim(cells[i])) else "")
  {
    FromPairsLastWins(headers, BuilderCells(|headers|, Split(line, ',')), i);
  }

  /** `name.replace('.csv', '')`: the first occurrence of `.csv` removed. */
  function StripCsvExtension(name: string): (r: string)
    ensures !Contains(name, ".csv") ==> r == name
    ensures Contains(name, ".csv") ==> |r| + 4 == |name|
    decreases |name|
  {
    if ".csv" <= name then name[4..]
    else if name == [] then []
    else [name[0]] + StripCsvExtension(name[1..])
  }

  /** When the first `.csv` of the name starts at `i`, exactly those four
      characters are removed. */
  lemma {:induction false} StripCsvExtensionCutsFirst(name: string, i: nat)
    requires i + 4 <= |name| && ".csv" <= name[i..]
    requires forall j :: 0 <= j < i ==> !(".csv" <= name[j..])
    ensures StripCsvExtension(name) == name[..i] + name[i + 4..]
    decreases i
  {
    if i > 0 {
      assert name[0..] == name;
      forall j | 0 <= j < i - 1
        ensures !(".csv" <= name[1..][j..])
      {
        assert name[1..][j..] == name[j + 1..];
      }
      assert name[1..][i - 1..] == name[i..];
      StripCsvExtensionCutsFirst(name[1..], i - 1);
      assert name[..i] == [name[0]] + name[1..][..i - 1];
      assert name[1..][i + 3..] == name[i + 4..];
    }
  }

  lemma {:induction false} StripCsvExtensionOfFileName(base: string)
    requires '.' !in base
    ensures StripCsvExtension(base + ".csv") == base
    decreases |base|
  {
    var s := base + ".csv";
    if base == [] {
    } else {
      assert s[0] != '.';
      assert s[1..] == base[1..] + ".csv";
      StripCsvExtensionOfFileName(base[1..]);
      assert [base[0]] + base[1..] == base;
    }
  }

  /** The file as the builder reads it, with the file name that becomes
      the new table's name in create mode. */
  datatype BuilderCsv = BuilderCsv(headers: seq<string>, rows: seq<Dict<string>>, tableName: string)

  const EmptyFile: string := "Arquivo vazio ou inválido."

  function BuilderHeaders(line: string): (r: seq<string>)
    ensures |r| == |Split(line, ',')|
    ensures forall j :: 0 <= j < |r| ==> r[j] == BuilderText(Split(line, ',')[j])
  {
    var cols := Split(line, ',');
    seq(|cols|, j requires 0 <= j < |cols| => BuilderText(cols[j]))
  }

  /** The builder's reader: lines split on LF only, blank lines dropped; no
      line at all is an error, a header line alone is a file with no rows. */
  function ParseBuilderCsv(text: string, fileName: string): (r: Result<BuilderCsv, string>)
    ensures r.Err? <==> DropBlank(Split(text, '\n')) == []
    ensures r.Err? ==> r.error == EmptyFile
    ensures r.Ok? ==> |r.value.rows| == |DropBlank(Split(text, '\n'))| - 1
    ensures r.Ok? ==> forall j :: 0 <= j < |r.value.headers| ==>
              '"' !in r.value.headers[j] && '\'' !in r.value.headers[j]
    ensures r.Ok? ==> forall k :: 0 <= k < |r.value.rows| ==>
              Valid(r.value.rows[k]) && r.value.rows[k].keys == Dedup(r.value.headers)
    ensures r.Ok? ==> r.value.tableName == StripCsvExtension(fileName)
    ensures var lines := DropBlank(Split(text, '\n'));
      r.Ok? ==> && |lines| >= 1 && |r.value.rows| == |lines| - 1
                && r.value.headers == BuilderHeaders(lines[0])
                && forall k :: 0 <= k < |r.value.rows| ==> r.value.rows[k] == BuilderRow(r.value.headers, lines[k + 1])
  {
    var lines := DropBlank(Split(text, '\n'));
    if lines == [] then Err(EmptyFile)
    else
      var headers := BuilderHeaders(lines[0]);
      Ok(BuilderCsv(headers, BuilderRows(headers, lines[1..]), StripCsvExtension(fileName)))
  }

  /** One row per data line, each keyed by the distinct headers. */
  function BuilderRows(headers: seq<string>, lines: seq<string>): (r: seq<Dict<string>>)
    ensures |r| == |lines|
    ensures forall k :: 0 <= k < |r| ==> r[k] == BuilderRow(headers, lines[k])
    ensures forall k :: 0 <= k < |r| ==> Valid(r[k]) && r[k].keys == Dedup(headers)
  {
    seq(|lines|, k requires 0 <= k < |lines| => BuilderRow(headers, lines[k]))
  }

  /** A file holding only a header line is refused by the record page and
      accepted, with no rows, by the builder. */
  lemma {:induction false} HeaderOnlyFile(line: string, fileName: string)
    requires '\n' !in line && !IsBlank(line)
    ensures ParseCrudCsv(line).Err?
    ensures ParseBuilderCsv(line, fileName).Ok? && ParseBuilderCsv(line, fileName).value.rows == []
  {
    SplitWithoutSeparator(line, '\n');
    assert SplitLines(line) == [line];
    assert DropBlank([line]) == [line];
  }

  /** `cleanText` removes the quotes around a value and keeps those
      inside it, where the builder's reader removes them all. */
  lemma {:induction false} CleanTextKeepsInnerQuotes(q: char, v: string)
    requires IsQuoteChar(q)
    requires v != [] && !IsQuoteChar(v[0]) && !IsQuoteChar(v[|v| - 1])
    requires !IsSpace(v[0]) && !IsSpace(v[|v| - 1])
    requires '\r' !in v && '\n' !in v
    ensures CleanText([q] + v + [q]) == v
  {
    QuotedSteps(q, v);
    CleanTextSteps([q] + v + [q]);
  }

  // ---------------------------------------------------------------------
  // The writer

  /** Every double quote doubled. */
  function DoubleQuotes(s: string): (r: string)
    ensures |r| >= |s|
    ensures '"' !in s ==> r == s
    ensures '"' in s ==> |r| > |s|
    ensures (',' in r <==> ',' in s) && ('\n' in r <==> '\n' in s)
    ensures s != [] && s[0] != '"' ==> r != [] && r[0] == s[0]
  {
    if s == [] then []
    else (if s[0] == '"' then "\"\"" else [s[0]]) + DoubleQuotes(s[1..])
  }

  /** What an RFC 4180 reader makes of the inside of a quoted field: each
      `""` stands for one `"`. */
  function UndoubleQuotes(s: string): string
  {
    if |s| >= 2 && s[0] == '"' && s[1] == '"' then "\"" + UndoubleQuotes(s[2..])
    else if s == [] then []
    else [s[0]] + UndoubleQuotes(s[1..])
  }

  lemma {:induction false} UndoubleDouble(s: string)
    ensures UndoubleQuotes(DoubleQuotes(s)) == s
  {
    if s != [] {
      UndoubleDouble(s[1..]);
      if s[0] == '"' {
        assert DoubleQuotes(s) == "\"\"" + DoubleQuotes(s[1..]);
        assert DoubleQuotes(s)[2..] == DoubleQuotes(s[1..]);
      } else {
        var d := DoubleQuotes(s);
        assert d == [s[0]] + DoubleQuotes(s[1..]);
        assert d[1..] == DoubleQuotes(s[1..]);
      }
      assert [s[0]] + s[1..] == s;
    }
  }

  /** How an RFC 4180 reader reads one field: a field enclosed in quotes
      loses them and has its doubled quotes undone; any other field is
      taken as it stands. */
  function ReadRfcField(f: string): string {
    if |f| >= 2 && f[0] == '"' && f[|f| - 1] == '"' then UndoubleQuotes(f[1..|f| - 1]) else f
  }

  /** The writer's escaping of one value. */
  function EscapeCell(v: string): string {
    var d := DoubleQuotes(v);
    if ',' in d || '\n' in d then "\"" + d + "\"" else d
  }

  /** A value with a comma or newline, or with no quote, is read back as
      written by an RFC 4180 reader. */
  lemma {:induction false} EscapeCellReadBack(v: string)
    requires ',' in v || '\n' in v || '"' !in v
    ensures ReadRfcField(EscapeCell(v)) == v
  {
    var d := DoubleQuotes(v);
    if ',' in v || '\n' in v {
      var f := "\"" + d + "\"";
      assert f[1..|f| - 1] == d;
      UndoubleDouble(v);
    } else {
      assert d == v;
    }
  }

  /** A value holding a quote but no comma or newline is written with its
      quotes doubled and no enclosing quotes; unless it starts and ends
      with a quote, an RFC 4180 reader reads it back with the quotes still
      doubled, so the value changes. */
  lemma {:induction false} EscapeCellQuoteNotEnclosed(v: string)
    requires '"' in v && ',' !in v && '\n' !in v
    requires v[0] != '"'
    ensures EscapeCell(v) == DoubleQuotes(v)
    ensures ReadRfcField(EscapeCell(v)) != v
  {
    var d := DoubleQuotes(v);
    assert d[0] == v[0];
  }

  /** The shortest case: a cell holding one quote is written `""`, which
      an RFC 4180 reader takes for an empty field. */
  lemma EscapeCellLoneQuote()
    ensures EscapeCell("\"") == "\"\""
    ensures ReadRfcField(EscapeCell("\"")) == ""
  {
    assert DoubleQuotes("\"") == "\"\"";
  }

  lemma {:induction false} EscapeCellOfPlain(v: string)
    requires IsPlainCell(v)
    ensures EscapeCell(v) == v
  {
  }

  /** The status column: approved is `Aprovado`, rejected is `Negado`,
      anything else `Pendente`. */
  function StatusLabel(s: Status): string {
    match s
    case Approved => "Aprovado"
    case Rejected => "Negado"
    case Pending => "Pendente"
  }

  lemma StatusLabelIsPlain(s: Status)
    ensures IsPlainCell(StatusLabel(s)) && StatusLabel(s) != ""
  {
    match s
    case Approved => LettersArePlain("Aprovado");
    case Rejected => LettersArePlain("Negado");
    case Pending => LettersArePlain("Pendente");
  }

  /** Text made of ASCII letters only is a plain cell. */
  lemma LettersArePlain(v: string)
    requires forall i :: 0 <= i < |v| ==> 'A' <= v[i] <= 'Z' || 'a' <= v[i] <= 'z'
    ensures IsPlainCell(v)
  {
  }

  /** The fields whose name is among the selected ones, in field order. */
  function SelectedFields(fields: seq<Field>, selected: seq<string>): (r: seq<Field>)
    ensures |r| <= |fields|
    ensures forall i :: 0 <= i < |r| ==> r[i] in fields && r[i].name in selected
    ensures forall i :: 0 <= i < |fields| && fields[i].name in selected ==> fields[i] in r
    ensures r == Filter(fields, (f: Field) => f.name in selected)
  {
    if fields == [] then []
    else
      var rest := SelectedFields(fields[1..], selected);
      assert forall i :: 1 <= i < |fields| ==> fields[i] == fields[1..][i - 1];
      if fields[0].name in selected then [fields[0]] + rest else rest
  }

  /** The header cells: `ID`, `Status`, `Data`, then the captions of the
      exported fields. The captions are not escaped. */
  function HeaderCells(active: seq<Field>): (r: seq<string>)
    ensures |r| == |active| + 3 && r[..3] == ["ID", "Status", "Data"]
    ensures forall i :: 0 <= i < |active| ==> r[i + 3] == active[i].caption
  {
    ["ID", "Status", "Data"] + seq(|active|, i requires 0 <= i < |active| => active[i].caption)
  }

  /** A record's stored value for a field, `''` when missing. */
  function ValueOf(rec: Record, f: Field): string {
    Get(rec.data, f.name).GetOr("")
  }

  /** The cells of a record's line: its id, status label, formatted date
      and the escaped value of each exported field. */
  function LineCells(rec: Record, active: seq<Field>, formatDate: int -> string): (r: seq<string>)
    ensures |r| == |active| + 3
    ensures r[0] == rec.id && r[1] == StatusLabel(rec.status) && r[2] == formatDate(rec.createdAt)
    ensures forall i :: 0 <= i < |active| ==> r[i + 3] == EscapeCell(ValueOf(rec, active[i]))
  {
    [rec.id, StatusLabel(rec.status), formatDate(rec.createdAt)]
      + seq(|active|, i requires 0 <= i < |active| => EscapeCell(ValueOf(rec, active[i])))
  }

  const Bom: char := '\U{FEFF}'
  const NothingToExport: string := "Nada para exportar."

  function ExportLines(records: seq<Record>, active: seq<Field>, formatDate: int -> string): (r: seq<string>)
    ensures |r| == |records| + 1
    ensures r[0] == Join(HeaderCells(active), ',')
    ensures forall k :: 0 <= k < |records| ==> r[k + 1] == Join(LineCells(records[k], active, formatDate), ',')
  {
    [Join(HeaderCells(active), ',')]
      + seq(|records|, k requires 0 <= k < |records| => Join(LineCells(records[k], active, formatDate), ','))
  }

  /** The exported file: nothing to export is a warning and no file;
      otherwise a byte order mark, the header line and one line per record,
      joined by LF. Dates are rendered by `formatDate`. */
  function ExportCsv(records: seq<Record>, fields: seq<Field>, selected: seq<string>, formatDate: int -> string): (r: Result<string, string>)
    ensures r.Err? <==> records == []
    ensures r.Err? ==> r.error == NothingToExport
    ensures r.Ok? ==> r.value != [] && r.value[0] == Bom
  {
    if records == [] then Err(NothingToExport)
    else Ok([Bom] + Join(ExportLines(records, SelectedFields(fields, selected), formatDate), '\n'))
  }

  /** The values a record's exported line carries, unescaped. */
  function ExpectedCells(rec: Record, active: seq<Field>, formatDate: int -> string): seq<string> {
    [rec.id, StatusLabel(rec.status), formatDate(rec.createdAt)]
      + seq(|active|, i requires 0 <= i < |active| => ValueOf(rec, active[i]))
  }

  /** The rows a reader should find for the records: each record's
      expected cells under the header cells. */
  function ExpectedRows(records: seq<Record>, active: seq<Field>, formatDate: int -> string): (r: seq<Dict<string>>)
    ensures |r| == |records|
    ensures forall k :: 0 <= k < |records| ==> r[k] == FromPairs(HeaderCells(active), ExpectedCells(records[k], active, formatDate))
  {
    seq(|records|, k requires 0 <= k < |records| => FromPairs(HeaderCells(active), ExpectedCells(records[k], active, formatDate)))
  }

  /** The data of an export that the record page's reader can take back:
      ids, dates, captions and exported values are plain. */
  predicate PlainExport(records: seq<Record>, active: seq<Field>, formatDate: int -> string) {
    && (forall i :: 0 <= i < |active| ==> IsPlainCell(active[i].caption))
    && (forall k :: 0 <= k < |records| ==> IsPlainCell(records[k].id) && IsPlainCell(formatDate(records[k].createdAt)))
    && (forall k, i :: 0 <= k < |records| && 0 <= i < |active| ==> IsPlainCell(ValueOf(records[k], active[i])))
  }

  /** The cells written for a plain record are its expected values. */
  lemma {:induction false} LineCellsOfPlain(rec: Record, active: seq<Field>, formatDate: int -> string)
    requires IsPlainCell(rec.id) && IsPlainCell(formatDate(rec.createdAt))
    requires forall i :: 0 <= i < |active| ==> IsPlainCell(ValueOf(rec, active[i]))
    ensures LineCells(rec, active, formatDate) == ExpectedCells(rec, active, formatDate)
    ensures forall j :: 0 <= j < |active| + 3 ==> IsPlainCell(ExpectedCells(rec, active, formatDate)[j])
  {
    var cells := LineCells(rec, active, formatDate);
    var expected := ExpectedCells(rec, active, formatDate);
    StatusLabelIsPlain(rec.status);
    forall j | 0 <= j < |cells|
      ensures cells[j] == expected[j] && IsPlainCell(expected[j])
    {
      if j >= 3 {
        EscapeCellOfPlain(ValueOf(rec, active[j - 3]));
        assert cells[(j - 3) + 3] == EscapeCell(ValueOf(rec, active[j - 3]));
      }
    }
  }

  lemma {:induction false} HeaderCellsPlain(active: seq<Field>)
    requires forall i :: 0 <= i < |active| ==> IsPlainCell(active[i].caption)
    ensures forall j :: 0 <= j < |HeaderCells(active)| ==> IsPlainCell(HeaderCells(active)[j])
  {
    var headers := HeaderCells(active);
    forall j | 0 <= j < |headers|
      ensures IsPlainCell(headers[j])
    {
      if j >= 3 {
        assert headers[(j - 3) + 3] == active[j - 3].caption;
      } else {
        assert headers[j] == ["ID", "Status", "Data"][j];
      }
    }
  }

  /** A mark put before a comma-joined line stays with its first cell. */
  lemma {:induction false} SplitAfterMark(mark: char, cells: seq<string>)
    requires |cells| >= 1 && mark != ','
    requires forall j :: 0 <= j < |cells| ==> ',' !in cells[j]
    ensures Split([mark] + Join(cells, ','), ',') == [[mark] + cells[0]] + cells[1..]
  {
    var cut := [[mark] + cells[0]] + cells[1..];
    JoinPrepend([mark], cells, ',');
    assert forall j :: 1 <= j < |cut| ==> cut[j] == cells[j];
    JoinThenSplit(cut, ',');
  }

  /** The header line reads back as the header cells, the byte order mark
      in front of the first one trimmed away. */
  lemma {:induction false} HeaderLineReadBack(headers: seq<string>)
    requires |headers| >= 1
    requires forall j :: 0 <= j < |headers| ==> IsPlainCell(headers[j])
    ensures CrudHeaders([Bom] + Join(headers, ',')) == headers
  {
    var line := [Bom] + Join(headers, ',');
    var cut := [[Bom] + headers[0]] + headers[1..];
    SplitAfterMark(Bom, headers);
    forall j | 0 <= j < |cut|
      ensures CleanText(cut[j]) == headers[j]
    {
      CleanMarkedCell(headers, j);
    }
    CrudHeadersOfCells(line, cut, headers);
  }

  /** A line whose cells clean to the given headers reads as those headers. */
  lemma CrudHeadersOfCells(line: string, cells: seq<string>, headers: seq<string>)
    requires Split(line, ',') == cells && |cells| == |headers|
    requires forall j :: 0 <= j < |cells| ==> CleanText(cells[j]) == headers[j]
    ensures CrudHeaders(line) == headers
  {
  }

  lemma {:induction false} CleanMarkedCell(headers: seq<string>, j: nat)
    requires j < |headers|
    requires forall i :: 0 <= i < |headers| ==> IsPlainCell(headers[i])
    ensures CleanText(([[Bom] + headers[0]] + headers[1..])[j]) == headers[j]
  {
    if j == 0 {
      CleanTextAfterSpace(Bom, headers[0]);
    } else {
      assert ([[Bom] + headers[0]] + headers[1..])[j] == headers[j];
      CleanTextOfPlain(headers[j]);
    }
  }

  /** A record line reads back as a row holding the record's values. */
  lemma {:induction false} RecordLineReadBack(headers: seq<string>, cells: seq<string>)
    requires |headers| == |cells| >= 1
    requires forall j :: 0 <= j < |cells| ==> IsPlainCell(cells[j])
    ensures CrudRow(headers, Join(cells, ',')) == FromPairs(headers, cells)
  {
    JoinThenSplit(cells, ',');
    var read := CrudCells(|headers|, cells);
    forall i | 0 <= i < |headers|
      ensures read[i] == cells[i]
    {
      CleanTextOfPlain(cells[i]);
    }
    assert read == cells;
  }

  /** The exported text splits into its lines again, none of them blank. */
  lemma {:induction false} ExportLinesReadBack(lines: seq<string>)
    requires |lines| >= 2
    requires forall l :: 0 <= l < |lines| ==> ',' in lines[l] && '\n' !in lines[l] && '\r' !in lines[l]
    ensures DropBlank(SplitLines([Bom] + Join(lines, '\n'))) == [[Bom] + lines[0]] + lines[1..]
  {
    var text := [Bom] + Join(lines, '\n');
    var cut := [[Bom] + lines[0]] + lines[1..];
    JoinPrepend([Bom], lines, '\n');
    assert forall l :: 1 <= l < |cut| ==> cut[l] == lines[l];
    assert '\n' !in cut[0] && '\r' !in cut[0];
    JoinThenSplit(cut, '\n');
    JoinKeepsAbsence(cut, '\n', '\r');
    SplitLinesWithoutCr(text);
    forall l | 0 <= l < |cut|
      ensures !IsBlank(cut[l])
    {
      if l == 0 {
        var p :| 0 <= p < |lines[0]| && lines[0][p] == ',';
        assert cut[0][p + 1] == ',';
      }
      NotBlankWithComma(cut[l]);
    }
  }

  lemma {:induction false} ParseCrudCsvOfLines(text: string, lines: seq<string>)
    requires DropBlank(SplitLines(text)) == lines && |lines| >= 2
    ensures ParseCrudCsv(text) == Ok(CsvTable(CrudHeaders(lines[0]), CrudRows(CrudHeaders(lines[0]), lines[1..])))
  {
  }

  /** Each record line of a plain export is a comma-joined plain line that
      reads back as the record's expected row. */
  lemma {:induction false} RecordLinesReadBack(records: seq<Record>, active: seq<Field>, formatDate: int -> string)
    requires PlainExport(records, active, formatDate)
    ensures var lines := ExportLines(records, active, formatDate);
      && (forall l :: 0 <= l < |lines| ==> ',' in lines[l] && '\n' !in lines[l] && '\r' !in lines[l])
      && (forall k :: 0 <= k < |records| ==>
            CrudRow(HeaderCells(active), lines[k + 1]) == ExpectedRows(records, active, formatDate)[k])
  {
    var headers := HeaderCells(active);
    var lines := ExportLines(records, active, formatDate);
    HeaderCellsPlain(active);
    PlainLineOfCells(headers);
    forall l | 1 <= l < |lines|
      ensures ',' in lines[l] && '\n' !in lines[l] && '\r' !in lines[l]
      ensures CrudRow(headers, lines[l]) == ExpectedRows(records, active, formatDate)[l - 1]
    {
      var expected := ExpectedCells(records[l - 1], active, formatDate);
      LineCellsOfPlain(records[l - 1], active, formatDate);
      PlainLineOfCells(expected);
      RecordLineReadBack(headers, expected);
    }
    forall k | 0 <= k < |records|
      ensures CrudRow(headers, lines[k + 1]) == ExpectedRows(records, active, formatDate)[k]
    {
      assert (k + 1) - 1 == k;
    }
  }

  /** Reading an export back: for plain data the record page's reader gives
      back the header cells (the byte order mark trimmed away) and, for each
      record, a row holding its id, status label, date and values. */
  lemma {:induction false} ExportThenImport(records: seq<Record>, fields: seq<Field>, selected: seq<string>, formatDate: int -> string)
    requires records != []
    requires PlainExport(records, SelectedFields(fields, selected), formatDate)
    ensures var active := SelectedFields(fields, selected);
      ParseCrudCsv(ExportCsv(records, fields, selected, formatDate).value)
        == Ok(CsvTable(HeaderCells(active), ExpectedRows(records, active, formatDate)))
  {
    var active := SelectedFields(fields, selected);
    var headers := HeaderCells(active);
    var lines := ExportLines(records, active, formatDate);
    var text := ExportCsv(records, fields, selected, formatDate).value;
    assert text == [Bom] + Join(lines, '\n');
    RecordLinesReadBack(records, active, formatDate);
    ExportLinesReadBack(lines);
    HeaderCellsPlain(active);
    HeaderLineReadBack(headers);
    var cut := [[Bom] + lines[0]] + lines[1..];
    assert cut[1..] == lines[1..];
    ParseCrudCsvOfLines(text, cut);
    RowsOfLines(headers, lines, ExpectedRows(records, active, formatDate));
  }

  lemma {:induction false} RowsOfLines(headers: seq<string>, lines: seq<string>, expected: seq<Dict<string>>)
    requires |lines| == |expected| + 1
    requires forall k :: 0 <= k < |expected| ==> CrudRow(headers, lines[k + 1]) == expected[k]
    ensures CrudRows(headers, lines[1..]) == expected
  {
    var rows := CrudRows(headers, lines[1..]);
    forall k | 0 <= k < |expected|
      ensures rows[k] == expected[k]
    {
      assert lines[1..][k] == lines[k + 1];
    }
  }

  /** The cells of a line are plain and joined by commas. */
  ghost predicate PlainLine(line: string, cells: seq<string>) {
    && |cells| >= 3
    && line == Join(cells, ',')
    && (forall j :: 0 <= j < |cells| ==> IsPlainCell(cells[j]))
    && ',' in line && '\n' !in line && '\r' !in line
  }

  lemma {:induction false} PlainLineOfCells(cells: seq<string>)
    requires |cells| >= 3
    requires forall j :: 0 <= j < |cells| ==> IsPlainCell(cells[j])
    ensures PlainLine(Join(cells, ','), cells)
  {
    JoinHasSeparator(cells, ',');
    JoinKeepsAbsence(cells, ',', '\n');
    JoinKeepsAbsence(cells, ',', '\r');
  }

  lemma {:induction false} NotBlankWithComma(s: string)
    requires ',' in s
    ensures !IsBlank(s)
  {
    var p :| 0 <= p < |s| && s[p] == ',';
    assert !IsSpace(s[p]);
  }
}
