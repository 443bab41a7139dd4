/**
 * python_updater_app/update_db.py: the interactive loader that reads a table
 * name, a comma-separated column list and comma-separated rows, then drops,
 * recreates and fills the table. Standard input is a sequence of lines given
 * up front; the three statements are returned instead of executed.
 * Python strings are sequences of code points; each char stands for one.
 */
module UpdateDb {
  import opened Wrappers
  import opened PhpText

  // ---------------------------------------------------------------------------
  // Python string primitives
  // ---------------------------------------------------------------------------

  /** str.isspace() for one character: the whitespace str.strip() removes. */
  predicate PyIsSpace(c: char) {
    c == ' ' || ('\t' <= c <= '\r') || ('\U{1C}' <= c <= '\U{1F}')
      || c == '\U{85}' || c == '\U{A0}' || c == '\U{1680}' || ('\U{2000}' <= c <= '\U{200A}')
      || c == '\U{2028}' || c == '\U{2029}' || c == '\U{202F}' || c == '\U{205F}' || c == '\U{3000}'
  }

  /** str.strip() */
  function Strip(s: string): string {
    TrimBoth(s, PyIsSpace)
  }

  /** A string str.strip() leaves alone: empty, or neither end is whitespace. */
  predicate IsStripped(s: string) {
    s == [] || (!PyIsSpace(s[0]) && !PyIsSpace(s[|s| - 1]))
  }

  lemma {:induction false} StripIsStripped(s: string)
    ensures IsStripped(Strip(s))
  {
  }

  lemma {:induction false} StrippedIsUnchanged(s: string)
    requires IsStripped(s)
    ensures Strip(s) == s
  {
  }

  /** Stripping only removes characters: what is left occurs in the original. */
  lemma {:induction false} StripKeepsCharsOf(s: string)
    ensures forall k :: 0 <= k < |Strip(s)| ==> Strip(s)[k] in s
  {
    var t := TrimStart(s, PyIsSpace);
    var r := TrimEnd(t, PyIsSpace);
    TrimStartIsSuffix(s, PyIsSpace);
    TrimEndIsPrefix(t, PyIsSpace);
    forall k | 0 <= k < |r|
      ensures r[k] in s
    {
      assert r[k] == t[k] == s[|s| - |t| + k];
    }
  }

  /** s.split(sep): the pieces between occurrences of `sep`; never empty. */
  function SplitOn(s: string, sep: char): (pieces: seq<string>)
    ensures |pieces| >= 1
    ensures forall k :: 0 <= k < |pieces| ==> sep !in pieces[k]
    decreases |s|
  {
    if s == [] then [""]
    else
      var rest := SplitOn(s[1..], sep);
      if s[0] == sep then [""] + rest
      else [[s[0]] + rest[0]] + rest[1..]
  }

  /** Splitting loses nothing: joining the pieces with the separator gives the string back. */
  lemma {:induction false} SplitThenJoin(s: string, sep: char)
    ensures Join(SplitOn(s, sep), [sep]) == s
    decreases |s|
  {
    if s != [] {
      var rest := SplitOn(s[1..], sep);
      SplitThenJoin(s[1..], sep);
      if s[0] == sep {
        assert ([""] + rest)[1..] == rest;
        assert s == [sep] + s[1..];
      } else {
        var pieces := [[s[0]] + rest[0]] + rest[1..];
        assert pieces[1..] == rest[1..];
        if |rest| == 1 {
          assert s == [s[0]] + rest[0];
        } else {
          assert Join(rest, [sep]) == rest[0] + [sep] + Join(rest[1..], [sep]);
          assert s == [s[0]] + s[1..];
        }
      }
    }
  }

  /** A piece without the separator, the separator, then more text: the piece comes off first. */
  lemma {:induction false} SplitAfterPiece(a: string, sep: char, b: string)
    requires sep !in a
    ensures SplitOn(a + [sep] + b, sep) == [a] + SplitOn(b, sep)
    decreases |a|
  {
    if a == [] {
      assert a + [sep] + b == [sep] + b;
      assert ([sep] + b)[1..] == b;
    } else {
      SplitAfterPiece(a[1..], sep, b);
      assert (a + [sep] + b)[1..] == a[1..] + [sep] + b;
      assert [a[0]] + a[1..] == a;
    }
  }

  lemma {:induction false} SplitWithoutSeparator(a: string, sep: char)
    requires sep !in a
    ensures SplitOn(a, sep) == [a]
    decreases |a|
  {
    if a != [] {
      SplitWithoutSeparator(a[1..], sep);
      assert [a[0]] + a[1..] == a;
    }
  }

  /** Joining separator-free pieces and splitting again gives the pieces back. */
  lemma {:induction false} JoinThenSplit(pieces: seq<string>, sep: char)
    requires |pieces| >= 1
    requires forall k :: 0 <= k < |pieces| ==> sep !in pieces[k]
    ensures SplitOn(Join(pieces, [sep]), sep) == pieces
    decreases |pieces|
  {
    if |pieces| == 1 {
      SplitWithoutSeparator(pieces[0], sep);
    } else {
      JoinThenSplit(pieces[1..], sep);
      SplitAfterPiece(pieces[0], sep, Join(pieces[1..], [sep]));
      assert [pieces[0]] + pieces[1..] == pieces;
    }
  }

  // ---------------------------------------------------------------------------
  // Column list and rows
  // ---------------------------------------------------------------------------

  /** [p.strip() for p in pieces] */
  function StripAll(pieces: seq<string>): (stripped: seq<string>)
    ensures |stripped| == |pieces|
  {
    if pieces == [] then [] else [Strip(pieces[0])] + StripAll(pieces[1..])
  }

  lemma {:induction false} StripAllAt(pieces: seq<string>, k: nat)
    requires k < |pieces|
    ensures StripAll(pieces)[k] == Strip(pieces[k])
    decreases k
  {
    if k > 0 {
      StripAllAt(pieces[1..], k - 1);
    }
  }

  /** [p for p in pieces if p]: the non-empty strings, in order. */
  function NonBlank(pieces: seq<string>): (kept: seq<string>)
    ensures forall p :: p in kept ==> p != "" && p in pieces
  {
    if pieces == [] then []
    else (if pieces[0] != "" then [pieces[0]] else []) + NonBlank(pieces[1..])
  }

  /** The column names read from the second input line: the stripped, non-empty comma-separated pieces. */
  function ParseColumns(line: string): seq<string> {
    NonBlank(StripAll(SplitOn(Strip(line), ',')))
  }

  /** A column name as the loader produces it: non-empty, stripped, without a comma. */
  predicate IsColumnName(c: string) {
    c != "" && IsStripped(c) && ',' !in c
  }

  /** Stripped pieces are stripped and keep no character their piece did not have. */
  lemma {:induction false} StripAllMeaning(pieces: seq<string>, sep: char)
    requires forall k :: 0 <= k < |pieces| ==> sep !in pieces[k]
    ensures forall p :: p in StripAll(pieces) ==> IsStripped(p) && sep !in p
  {
    forall p | p in StripAll(pieces)
      ensures IsStripped(p) && sep !in p
    {
      var k :| 0 <= k < |pieces| && StripAll(pieces)[k] == p;
      StripAllAt(pieces, k);
      StripIsStripped(pieces[k]);
      StripKeepsCharsOf(pieces[k]);
    }
  }

  /** Every parsed column is a non-empty, stripped, comma-free name. */
  lemma {:induction false} ParsedColumnsAreNames(line: string)
    ensures forall c :: c in ParseColumns(line) ==> IsColumnName(c)
  {
    StripAllMeaning(SplitOn(Strip(line), ','), ',');
  }

  lemma {:induction false} NonBlankKeepsNonEmpty(pieces: seq<string>)
    requires forall k :: 0 <= k < |pieces| ==> pieces[k] != ""
    ensures NonBlank(pieces) == pieces
    decreases |pieces|
  {
    if pieces != [] {
      NonBlankKeepsNonEmpty(pieces[1..]);
      assert [pieces[0]] + pieces[1..] == pieces;
    }
  }

  /** With non-empty pieces, the joined text starts with the first piece's first character and ends with the last piece's last. */
  lemma {:induction false} JoinEnds(cols: seq<string>, sep: string)
    requires |cols| >= 1
    requires forall k :: 0 <= k < |cols| ==> cols[k] != ""
    ensures var j := Join(cols, sep); |j| >= 1 && j[0] == cols[0][0] && j[|j| - 1] == cols[|cols| - 1][|cols[|cols| - 1]| - 1]
    decreases |cols|
  {
    if |cols| > 1 {
      var rest := cols[1..];
      JoinEnds(rest, sep);
      assert rest[|rest| - 1] == cols[|cols| - 1];
    }
  }

  /**
   * The column line round-trips: names written out separated by commas are
   * read back as exactly those names, in that order.
   */
  lemma {:induction false} ColumnListRoundTrip(cols: seq<string>)
    requires |cols| >= 1
    requires forall k :: 0 <= k < |cols| ==> IsColumnName(cols[k])
    ensures ParseColumns(Join(cols, ",")) == cols
  {
    var line := Join(cols, ",");
    JoinedNamesAreStripped(cols);
    assert Strip(line) == line;
    JoinThenSplit(cols, ',');
    assert SplitOn(Strip(line), ',') == cols;
    StrippedPiecesStay(cols);
    NonBlankKeepsNonEmpty(cols);
  }

  lemma {:induction false} JoinedNamesAreStripped(cols: seq<string>)
    requires |cols| >= 1
    requires forall k :: 0 <= k < |cols| ==> IsColumnName(cols[k])
    ensures Strip(Join(cols, ",")) == Join(cols, ",")
  {
    var j := Join(cols, ",");
    JoinEnds(cols, ",");
    assert IsColumnName(cols[0]) && IsColumnName(cols[|cols| - 1]);
    assert IsStripped(j);
    StrippedIsUnchanged(j);
  }

  lemma {:induction false} StrippedPiecesStay(pieces: seq<string>)
    requires forall k :: 0 <= k < |pieces| ==> IsStripped(pieces[k])
    ensures StripAll(pieces) == pieces
    decreases |pieces|
  {
    if pieces != [] {
      StrippedIsUnchanged(pieces[0]);
      StrippedPiecesStay(pieces[1..]);
      assert [pieces[0]] + pieces[1..] == pieces;
    }
  }

  /** [val.strip() for val in row.split(',')] */
  function RowValues(row: string): seq<string> {
    StripAll(SplitOn(row, ','))
  }

  /**
   * The values of a row are stripped and contain no comma, and there is one
   * value per comma-separated piece of the row, which the pieces make up.
   */
  lemma {:induction false} RowValuesMeaning(row: string)
    ensures forall v :: v in RowValues(row) ==> IsStripped(v) && ',' !in v
    ensures |RowValues(row)| == |SplitOn(row, ',')| && Join(SplitOn(row, ','), ",") == row
  {
    StripAllMeaning(SplitOn(row, ','), ',');
    SplitThenJoin(row, ',');
  }

  /** What one input line means to the row loop: the end of input, or a row's values. */
  datatype Line = BlankLine | RowLine(values: seq<string>)

  /** A line that strips to "" ends the rows; any other line is split into stripped values. */
  function LineOf(line: string): Line {
    var row := Strip(line);
    if row == "" then BlankLine else RowLine(RowValues(row))
  }

  function LinesOf(lines: seq<string>): (ls: seq<Line>)
    ensures |ls| == |lines|
  {
    if lines == [] then [] else [LineOf(lines[0])] + LinesOf(lines[1..])
  }

  /**
   * The rows collected from the remaining input lines: None when the input
   * ends before a blank line, otherwise the rows of the expected width in
   * order. Rows of another width are dropped.
   */
  function CollectFrom(ls: seq<Line>, width: nat): Option<seq<seq<string>>> {
    if ls == [] then None
    else if ls[0].BlankLine? then Some([])
    else
      var rest := CollectFrom(ls[1..], width);
      if |ls[0].values| != width || rest.None? then rest
      else Some([ls[0].values] + rest.value)
  }

  function PrependRows(rows: seq<seq<string>>, o: Option<seq<seq<string>>>): Option<seq<seq<string>>> {
    if o.None? then None else Some(rows + o.value)
  }

  lemma {:induction false} LinesOfStep(lines: seq<string>, i: nat)
    requires i < |lines|
    ensures LinesOf(lines[i..]) == [LineOf(lines[i])] + LinesOf(lines[i + 1..])
  {
    assert lines[i..][0] == lines[i];
    assert lines[i..][1..] == lines[i + 1..];
  }

  /** Moving an accepted row from the collected part to the rows found so far. */
  lemma {:induction false} PrependAccepted(rows: seq<seq<string>>, values: seq<string>, o: Option<seq<seq<string>>>)
    ensures PrependRows(rows, if o.None? then o else Some([values] + o.value)) == PrependRows(rows + [values], o)
  {
    if o.Some? {
      assert rows + ([values] + o.value) == (rows + [values]) + o.value;
    }
  }

  /**
   * The `while True` loop of main: prompts for rows until a line that strips
   * to "", keeping rows with the right number of values. `rowNum` is the
   * counter shown in the prompt; it advances only for accepted rows. None
   * stands for input() hitting the end of input, which raises EOFError.
   */
  method CollectRows(lines: seq<string>, width: nat) returns (tableData: Option<seq<seq<string>>>, rowNum: nat)
    ensures tableData == CollectFrom(LinesOf(lines), width)
    ensures tableData.Some? ==> rowNum == |tableData.value| + 1
  {
    var rows: seq<seq<string>> := [];
    rowNum := 1;
    var i := 0;
    assert lines[0..] == lines;
    if CollectFrom(LinesOf(lines), width).Some? {
      assert [] + CollectFrom(LinesOf(lines), width).value == CollectFrom(LinesOf(lines), width).value;
    }
    while true
      invariant 0 <= i <= |lines|
      invariant CollectFrom(LinesOf(lines), width) == PrependRows(rows, CollectFrom(LinesOf(lines[i..]), width))
      invariant rowNum == |rows| + 1
      decreases |lines| - i
    {
      if i == |lines| {
        assert lines[i..] == [];
        return None, rowNum;
      }
      var rowStr := Strip(lines[i]);
      LinesOfStep(lines, i);
      ghost var rest := LinesOf(lines[i + 1..]);
      assert LinesOf(lines[i..])[1..] == rest;
      i := i + 1;
      if rowStr == "" {
        assert rows + [] == rows;
        break;
      }
      var values := RowValues(rowStr);
      if |values| != width {
        continue;
      }
      PrependAccepted(rows, values, CollectFrom(rest, width));
      rows := rows + [values];
      rowNum := rowNum + 1;
    }
    tableData := Some(rows);
  }

  /** Where the input ends the row section: the first blank line. */
  function FirstBlank(ls: seq<Line>): (r: Option<nat>)
    ensures r.Some? ==> r.value < |ls| && ls[r.value].BlankLine?
  {
    if ls == [] then None
    else if ls[0].BlankLine? then Some(0)
    else match FirstBlank(ls[1..])
      case None => None
      case Some(k) => Some(k + 1)
  }

  /** Reference definition: the values of the non-blank lines with the expected number of values. */
  function AcceptedRows(ls: seq<Line>, width: nat): (rows: seq<seq<string>>)
    ensures forall k :: 0 <= k < |rows| ==> |rows[k]| == width
  {
    if ls == [] then []
    else (if ls[0].RowLine? && |ls[0].values| == width then [ls[0].values] else []) + AcceptedRows(ls[1..], width)
  }

  /**
   * Row collection ends at the first blank line and keeps, in order, exactly
   * the right-width rows before it; without a blank line the input runs out.
   */
  lemma {:induction false} CollectMeaning(ls: seq<Line>, width: nat)
    ensures CollectFrom(ls, width) == match FirstBlank(ls)
      case None => None
      case Some(k) => Some(AcceptedRows(ls[..k], width))
    decreases |ls|
  {
    if ls != [] && ls[0].RowLine? {
      CollectMeaning(ls[1..], width);
      match FirstBlank(ls[1..])
      case None =>
      case Some(k) =>
        assert FirstBlank(ls) == Some(k + 1);
        assert ls[..k + 1][0] == ls[0];
        assert ls[..k + 1][1..] == ls[1..][..k];
        assert AcceptedRows(ls[..k + 1], width)
          == (if |ls[0].values| == width then [ls[0].values] else []) + AcceptedRows(ls[1..][..k], width);
        assert [] + AcceptedRows(ls[1..][..k], width) == AcceptedRows(ls[1..][..k], width);
    }
  }

  /** Whatever follows the blank line is never read. */
  lemma {:induction false} LinesAfterBlankAreIgnored(ls: seq<Line>, more: seq<Line>, width: nat)
    requires FirstBlank(ls).Some?
    ensures CollectFrom(ls + more, width) == CollectFrom(ls, width)
    decreases |ls|
  {
    assert (ls + more)[0] == ls[0];
    if ls[0].RowLine? {
      assert (ls + more)[1..] == ls[1..] + more;
      LinesAfterBlankAreIgnored(ls[1..], more, width);
    }
  }

  // ---------------------------------------------------------------------------
  // Statements
  // ---------------------------------------------------------------------------

  /** The statement templates; `tableText` is what goes between the table's backticks. */
  function DropStatement(tableText: string): string {
    "DROP TABLE IF EXISTS `" + tableText + "`"
  }

  /** One column declaration: the backtick-doubled name, typed VARCHAR(255). */
  function ColumnDef(col: string): string {
    "`" + DoubleBackticks(col) + "`" + " VARCHAR(255)"
  }

  function ColumnDefs(cols: seq<string>): (defs: seq<string>)
    ensures |defs| == |cols|
  {
    seq(|cols|, k requires 0 <= k < |cols| => ColumnDef(cols[k]))
  }

  function CreateText(tableText: string, defs: seq<string>): string {
    "CREATE TABLE `" + tableText + "` (" + Join(defs, ", ") + ")"
  }

  function CreateStatement(tableText: string, cols: seq<string>): string {
    CreateText(tableText, ColumnDefs(cols))
  }

  function QuotedColumns(cols: seq<string>): (names: seq<string>)
    ensures |names| == |cols|
  {
    seq(|cols|, k requires 0 <= k < |cols| => "`" + DoubleBackticks(cols[k]) + "`")
  }

  /** ['%s'] * n */
  function Repeat(s: string, n: nat): seq<string> {
    seq(n, k => s)
  }

  /** What follows the table name in the INSERT: the column list and the VALUES list. */
  function InsertTail(names: seq<string>, marks: seq<string>): string {
    " (" + Join(names, ", ") + ") VALUES (" + Join(marks, ", ") + ")"
  }

  function InsertText(tableText: string, names: seq<string>, marks: seq<string>): string {
    "INSERT INTO `" + tableText + "`" + InsertTail(names, marks)
  }

  function InsertStatement(tableText: string, cols: seq<string>): string {
    InsertText(tableText, QuotedColumns(cols), Repeat("%s", |cols|))
  }

  /**
   * Every column definition names its column: read as a MySQL quoted
   * identifier it gives back the column name exactly, followed by its type.
   */
  lemma {:induction false} ColumnDefsNameTheirColumns(cols: seq<string>)
    ensures forall k :: 0 <= k < |cols| ==>
      ColumnDefs(cols)[k][0] == '`' && ReadQuotedBody(ColumnDefs(cols)[k][1..]) == Some((cols[k], " VARCHAR(255)"))
  {
    forall k | 0 <= k < |cols|
      ensures ColumnDefs(cols)[k][0] == '`' && ReadQuotedBody(ColumnDefs(cols)[k][1..]) == Some((cols[k], " VARCHAR(255)"))
    {
      ColumnDefNamesItsColumn(cols[k]);
    }
  }

  lemma {:induction false} ColumnDefNamesItsColumn(col: string)
    ensures ColumnDef(col)[0] == '`' && ReadQuotedBody(ColumnDef(col)[1..]) == Some((col, " VARCHAR(255)"))
  {
    QuotedNameReadsBack(col, " VARCHAR(255)");
    assert ColumnDef(col) == "`" + (DoubleBackticks(col) + "`" + " VARCHAR(255)");
  }

  /** The INSERT binds one `%s` per column and names the columns in the same order. */
  lemma {:induction false} InsertListsAligned(cols: seq<string>)
    ensures |Repeat("%s", |cols|)| == |QuotedColumns(cols)| == |cols|
    ensures forall k :: 0 <= k < |cols| ==> Repeat("%s", |cols|)[k] == "%s"
    ensures forall k :: 0 <= k < |cols| ==> ReadQuotedBody(QuotedColumns(cols)[k][1..]) == Some((cols[k], ""))
  {
    forall k | 0 <= k < |cols|
      ensures ReadQuotedBody(QuotedColumns(cols)[k][1..]) == Some((cols[k], ""))
    {
      QuotedNameReadsBack(cols[k], "");
      assert QuotedColumns(cols)[k][1..] == DoubleBackticks(cols[k]) + "`" + "";
    }
  }

  /**
   * With the table name backtick-doubled as the column names are, each of
   * the three statements names exactly the table that was entered.
   */
  lemma {:induction false} DropNamesTheTable(tableName: string)
    ensures var sql := DropStatement(DoubleBackticks(tableName));
      && |sql| >= 22 && sql[..22] == "DROP TABLE IF EXISTS `"
      && ReadQuotedBody(sql[22..]) == Some((tableName, ""))
  {
    var body := DoubleBackticks(tableName) + "`" + "";
    QuotedNameReadsBack(tableName, "");
    assert DropStatement(DoubleBackticks(tableName)) == "DROP TABLE IF EXISTS `" + body;
  }

  lemma {:induction false} CreateNamesTheTable(tableName: string, defs: seq<string>)
    ensures var sql := CreateText(DoubleBackticks(tableName), defs);
      && |sql| >= 14 && sql[..14] == "CREATE TABLE `"
      && ReadQuotedBody(sql[14..]) == Some((tableName, " (" + Join(defs, ", ") + ")"))
  {
    var rest := " (" + Join(defs, ", ") + ")";
    var body := DoubleBackticks(tableName) + "`" + rest;
    QuotedNameReadsBack(tableName, rest);
    assert CreateText(DoubleBackticks(tableName), defs) == "CREATE TABLE `" + body;
  }

  lemma {:induction false} InsertNamesTheTable(tableName: string, names: seq<string>, marks: seq<string>)
    ensures var sql := InsertText(DoubleBackticks(tableName), names, marks);
      && |sql| >= 13 && sql[..13] == "INSERT INTO `"
      && ReadQuotedBody(sql[13..]) == Some((tableName, InsertTail(names, marks)))
  {
    var rest := InsertTail(names, marks);
    var body := DoubleBackticks(tableName) + "`" + rest;
    QuotedNameReadsBack(tableName, rest);
    assert InsertText(DoubleBackticks(tableName), names, marks) == "INSERT INTO `" + body;
  }

  // ---------------------------------------------------------------------------
  // main
  // ---------------------------------------------------------------------------

  /** How a run of the loader ends, short of talking to the database. */
  datatype LoaderOutcome =
    | MissingSettings
    | EmptyTableName
    | NoColumns
    | InputEnded
    | Statements(drop: string, create: string, insert: Option<string>, rows: seq<seq<string>>)

  /** all([db_host, db_user, db_pass, db_name]): each variable set and non-empty. */
  predicate SettingsComplete(env: map<string, string>) {
    forall key | key in {"DB_HOST", "DB_USER", "DB_PASS", "DB_NAME"} :: key in env && env[key] != ""
  }

  /**
   * What main splices between the table's backticks: as written, the stripped
   * name itself; escaped, the name backtick-doubled as the column names are.
   */
  function TableText(tableName: string, escape: bool): string {
    if escape then DoubleBackticks(tableName) else tableName
  }

  function LoaderRun(env: map<string, string>, lines: seq<string>, escape: bool): LoaderOutcome {
    if !SettingsComplete(env) then MissingSettings
    else if |lines| == 0 then InputEnded
    else if Strip(lines[0]) == "" then EmptyTableName
    else if |lines| == 1 then InputEnded
    else if ParseColumns(lines[1]) == [] then NoColumns
    else
      var t := TableText(Strip(lines[0]), escape);
      var cols := ParseColumns(lines[1]);
      match CollectFrom(LinesOf(lines[2..]), |cols|)
      case None => InputEnded
      case Some(rows) =>
        Statements(DropStatement(t), CreateStatement(t, cols),
                   if rows != [] then Some(InsertStatement(t, cols)) else None, rows)
  }

  /** main as written: the table name goes between the backticks unescaped. */
  function LoaderResult(env: map<string, string>, lines: seq<string>): LoaderOutcome {
    LoaderRun(env, lines, false)
  }

  /** main with the table name escaped the way its column names are. */
  function EscapedLoaderResult(env: map<string, string>, lines: seq<string>): LoaderOutcome {
    LoaderRun(env, lines, true)
  }

  /**
   * main up to the database work: the settings check, the two prompts with
   * their exits, the row loop, and the statements it would execute in order
   * (DROP, CREATE, then INSERT for the collected rows if there are any).
   */
  method RunLoader(env: map<string, string>, lines: seq<string>) returns (outcome: LoaderOutcome)
    ensures outcome == LoaderResult(env, lines)
  {
    if !SettingsComplete(env) {
      return MissingSettings;
    }
    if |lines| == 0 {
      return InputEnded;
    }
    var tableName := Strip(lines[0]);
    if tableName == "" {
      return EmptyTableName;
    }
    if |lines| == 1 {
      return InputEnded;
    }
    var columns := ParseColumns(lines[1]);
    if columns == [] {
      return NoColumns;
    }
    var tableData, _ := CollectRows(lines[2..], |columns|);
    if tableData.None? {
      return InputEnded;
    }
    var insert := None;
    if tableData.value != [] {
      insert := Some(InsertStatement(tableName, columns));
    }
    outcome := Statements(DropStatement(tableName), CreateStatement(tableName, columns), insert, tableData.value);
  }

  /**
   * As written, a backtick in the table name ends the quoted identifier. For
   * the name "t1`,`t2" the DROP that main executes is a complete statement
   * naming two tables, `t1` and `t2`, while the CREATE after it names `t1`
   * and then meets a comma where its column list should open. MySQL commits
   * a DROP TABLE at once, so the rollback on the error path cannot bring
   * either table back.
   */
  lemma BacktickTableNameDropsTwoTables()
    ensures var env := map["DB_HOST" := "h", "DB_USER" := "u", "DB_PASS" := "p", "DB_NAME" := "d"];
      var run := LoaderResult(env, ["t1`,`t2", "a", ""]);
      && run.Statements? && run.rows == [] && run.insert == None
      && |run.drop| == 30
      && ReadQuotedBody(run.drop[22..]) == Some(("t1", ",`t2`"))
      && run.drop[25..27] == ",`"
      && ReadQuotedBody(run.drop[27..]) == Some(("t2", ""))
      && ReadQuotedBody(run.create[14..]) == Some(("t1", ",`t2` (" + Join(ColumnDefs(["a"]), ", ") + ")"))
  {
    SampleRunStatements();
    SampleDropNamesTwoTables();
    SampleCreateStopsAfterT1(ColumnDefs(["a"]));
  }

  /** The run behind BacktickTableNameDropsTwoTables gets as far as the statements. */
  lemma SampleRunStatements()
    ensures LoaderResult(map["DB_HOST" := "h", "DB_USER" := "u", "DB_PASS" := "p", "DB_NAME" := "d"], ["t1`,`t2", "a", ""])
      == Statements(DropStatement("t1`,`t2"), CreateStatement("t1`,`t2", ["a"]), None, [])
  {
    var lines := ["t1`,`t2", "a", ""];
    StrippedIsUnchanged(lines[0]);
    StrippedIsUnchanged("a");
    StrippedIsUnchanged("");
    assert SplitOn("a", ',') == ["a"] by {
      assert "a"[1..] == [];
      assert SplitOn([], ',') == [""];
      assert ['a'] + "" == "a";
    }
    assert StripAll(["a"]) == ["a"];
    assert ParseColumns(lines[1]) == ["a"];
    assert lines[2..] == [""];
    assert LinesOf([""]) == [BlankLine];
    assert CollectFrom([BlankLine], 1) == Some([]);
  }

  lemma SampleDropNamesTwoTables()
    ensures var sql := DropStatement("t1`,`t2");
      && |sql| == 30
      && ReadQuotedBody(sql[22..]) == Some(("t1", ",`t2`"))
      && sql[25..27] == ",`"
      && ReadQuotedBody(sql[27..]) == Some(("t2", ""))
  {
    var sql := DropStatement("t1`,`t2");
    assert sql[22..] == "t1`,`t2`";
    QuotedNameReadsBack("t1", ",`t2`");
    QuotedNameReadsBack("t2", "");
    assert "t1`,`t2`" == DoubleBackticks("t1") + "`" + ",`t2`";
    assert sql[27..] == DoubleBackticks("t2") + "`" + "";
  }

  /** Whatever the column definitions, the CREATE reads `t1` and then a comma. */
  lemma {:induction false} SampleCreateStopsAfterT1(defs: seq<string>)
    ensures var sql := CreateText("t1`,`t2", defs);
      |sql| >= 14 && ReadQuotedBody(sql[14..]) == Some(("t1", ",`t2` (" + Join(defs, ", ") + ")"))
  {
    var rest := ",`t2` (" + Join(defs, ", ") + ")";
    QuotedNameReadsBack("t1", rest);
    assert DoubleBackticks("t1") == "t1";
    assert CreateText("t1`,`t2", defs) == "CREATE TABLE `" + ("t1" + "`" + rest);
  }

  /** A name without backticks is read as intended even unescaped: only backticks set the two apart. */
  lemma {:induction false} EscapingMattersOnlyForBackticks(env: map<string, string>, lines: seq<string>)
    requires |lines| >= 1 && '`' !in Strip(lines[0])
    ensures LoaderResult(env, lines) == EscapedLoaderResult(env, lines)
  {
    assert TableText(Strip(lines[0]), true) == TableText(Strip(lines[0]), false);
  }

  /**
   * With the table name escaped, each statement of a finished run names
   * exactly the table that was entered, followed by the rest of its text.
   */
  lemma {:induction false} EscapedLoaderNamesTheTable(env: map<string, string>, lines: seq<string>)
    ensures var run := EscapedLoaderResult(env, lines);
      run.Statements? ==>
        && |lines| >= 2
        && |run.drop| >= 22 && ReadQuotedBody(run.drop[22..]) == Some((Strip(lines[0]), ""))
        && |run.create| >= 14
        && ReadQuotedBody(run.create[14..]) == Some((Strip(lines[0]), " (" + Join(ColumnDefs(ParseColumns(lines[1])), ", ") + ")"))
        && (run.insert.Some? ==>
              var cols := ParseColumns(lines[1]);
              |run.insert.value| >= 13
              && ReadQuotedBody(run.insert.value[13..]) == Some((Strip(lines[0]), InsertTail(QuotedColumns(cols), Repeat("%s", |cols|)))))
  {
    var run := EscapedLoaderResult(env, lines);
    if run.Statements? {
      var name := Strip(lines[0]);
      var cols := ParseColumns(lines[1]);
      assert run.drop == DropStatement(DoubleBackticks(name));
      assert run.create == CreateText(DoubleBackticks(name), ColumnDefs(cols));
      DropNamesTheTable(name);
      CreateNamesTheTable(name, ColumnDefs(cols));
      if run.insert.Some? {
        assert run.insert.value == InsertText(DoubleBackticks(name), QuotedColumns(cols), Repeat("%s", |cols|));
        InsertNamesTheTable(name, QuotedColumns(cols), Repeat("%s", |cols|));
      }
    }
  }

  /**
   * What a finished run has checked: the table name was non-empty after
   * stripping, there is at least one column, every row has exactly one value
   * per column, and an INSERT is issued exactly when there are rows.
   */
  lemma {:induction false} LoaderOutcomeMeaning(env: map<string, string>, lines: seq<string>)
    ensures LoaderResult(env, lines).Statements? ==>
      && SettingsComplete(env)
      && |lines| >= 2 && Strip(lines[0]) != ""
      && |ParseColumns(lines[1])| >= 1
      && (forall k :: 0 <= k < |LoaderResult(env, lines).rows| ==> |LoaderResult(env, lines).rows[k]| == |ParseColumns(lines[1])|)
      && (LoaderResult(env, lines).insert.Some? <==> LoaderResult(env, lines).rows != [])
    ensures LoaderResult(env, lines) == EmptyTableName <==> SettingsComplete(env) && |lines| >= 1 && Strip(lines[0]) == ""
  {
    if SettingsComplete(env) && |lines| >= 2 && Strip(lines[0]) != "" && ParseColumns(lines[1]) != [] {
      var cols := ParseColumns(lines[1]);
      CollectMeaning(LinesOf(lines[2..]), |cols|);
    }
  }
}
