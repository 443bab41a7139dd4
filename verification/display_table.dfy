/**
 * php_app/display_table.php: choosing the table to show (format check, then
 * the SHOW TABLES list), the add-entry INSERT builder, and the input type the
 * add form gives each column.
 */
module DisplayTable {
  import opened Wrappers
  import opened PhpText
  import opened Names
  import opened SeqLemmas
  import opened Schema

  // ---------------------------------------------------------------------------
  // Table selection
  // ---------------------------------------------------------------------------

  /** The error message the selection leaves behind. */
  datatype SelectError =
    | NoTableChosen      // table_name missing or empty()
    | BadNameFormat      // fails ^[a-zA-Z0-9_]+$
    | ConnectionFailed   // environment variables missing or the PDO constructor threw
    | UnknownTable       // not among the SHOW TABLES answer
    | TableListFailed    // SHOW TABLES threw

  /**
   * The selection as the page does it. `requested` is `$_GET['table_name']`,
   * `connected` whether a connection was obtained, and `tables` the answer of
   * SHOW TABLES (None when the query throws).
   */
  method SelectTable(requested: Option<string>, connected: bool, tables: Option<seq<string>>)
    returns (selected: Option<string>, error: Option<SelectError>)
    ensures requested.None? || IsEmpty(requested.value) ==> selected.None? && error == Some(NoTableChosen)
    ensures requested.Some? && !IsEmpty(requested.value) && !MatchesWordPattern(requested.value) ==>
      selected.None? && error == Some(BadNameFormat)
    ensures requested.Some? && !IsEmpty(requested.value) && MatchesWordPattern(requested.value) ==>
      if !connected then selected == requested && error == Some(ConnectionFailed)
      else if tables.None? then selected.None? && error == Some(TableListFailed)
      else if requested.value !in tables.value then selected.None? && error == Some(UnknownTable)
      else selected == requested && error.None?
  {
    selected, error := None, None;
    if requested.Some? && !IsEmpty(requested.value) {
      if MatchesWordPattern(requested.value) {
        selected := requested;
      } else {
        error := Some(BadNameFormat);
      }
    } else {
      error := Some(NoTableChosen);
    }
    if error.None? && !connected {
      error := Some(ConnectionFailed);
    }
    if connected && selected.Some? {
      if tables.None? {
        error := Some(TableListFailed);
        selected := None;
      } else if selected.value !in tables.value {
        error := Some(UnknownTable);
        selected := None;
      }
    }
  }

  /** A table is selected without error only when its name is well formed and the database lists it. */
  lemma {:induction false} SelectedTableExists(requested: Option<string>, connected: bool, tables: Option<seq<string>>,
                            selected: Option<string>, error: Option<SelectError>)
    requires requested.None? || IsEmpty(requested.value) ==> selected.None? && error == Some(NoTableChosen)
    requires requested.Some? && !IsEmpty(requested.value) && !MatchesWordPattern(requested.value) ==>
      selected.None? && error == Some(BadNameFormat)
    requires requested.Some? && !IsEmpty(requested.value) && MatchesWordPattern(requested.value) ==>
      if !connected then selected == requested && error == Some(ConnectionFailed)
      else if tables.None? then selected.None? && error == Some(TableListFailed)
      else if requested.value !in tables.value then selected.None? && error == Some(UnknownTable)
      else selected == requested && error.None?
    ensures selected.Some? && error.None? <==>
      requested.Some? && connected && tables.Some? && requested.value in tables.value
        && !IsEmpty(requested.value) && MatchesWordPattern(requested.value)
    ensures selected.Some? && error.None? ==> '`' !in selected.value && selected.value != ""
  {
    if selected.Some? && error.None? {
      ValidNamesNeedNoEscaping(selected.value);
    }
  }

  // ---------------------------------------------------------------------------
  // The add-entry INSERT builder
  // ---------------------------------------------------------------------------

  /** stripos($type, ...) for 'int', 'decimal', 'float' or 'double' (lower-case needles, so strpos on the lowered type). */
  predicate IsNumericType(colType: string) {
    var t := ToLower(colType);
    Contains(t, "int") || Contains(t, "decimal") || Contains(t, "float") || Contains(t, "double")
  }

  /** stripos($type, 'boolean') or stripos($type, 'tinyint(1)'). */
  predicate IsBooleanType(colType: string) {
    var t := ToLower(colType);
    Contains(t, "boolean") || Contains(t, "tinyint(1)")
  }

  /** What the loop does with one column of DESCRIBE. */
  datatype Cell =
    | Omit                                 // skipped: auto-increment left empty, or nothing submitted
    | Fatal                                // array_key_exists on a missing data array: a TypeError ends the script
    | Bound(col: string, value: SqlValue)  // a column, a placeholder and a value
    | Unbound(col: string)                 // a column and a placeholder, but no value

  /** The quoted column name as it goes into the statement. */
  function QuoteIdent(name: string): string {
    "`" + DoubleBackticks(name) + "`"
  }

  /** The value side of one submitted column: empty to an int-like NOT NULL column binds nothing. */
  function CoerceValue(c: ColumnMeta, v: string): Option<SqlValue> {
    if v == "" && IsNumericType(c.colType) && c.nullable == "NO" then None
    else if IsBooleanType(c.colType) then Some(Int(if FilterValidatesTrue(v) then 1 else 0))
    else Some(if v == "" then Null else Text(v))
  }

  function InsertCell(c: ColumnMeta, data: Option<map<string, string>>): Cell {
    var submitted := Submitted(data, c.field);
    if IsAutoIncrement(c) && (submitted.None? || IsEmpty(submitted.value)) then Omit
    else if data.None? then Fatal
    else if submitted.None? then Omit
    else match CoerceValue(c, submitted.value)
      case None => Unbound(QuoteIdent(c.field))
      case Some(v) => Bound(QuoteIdent(c.field), v)
  }

  function Cells(meta: seq<ColumnMeta>, data: Option<map<string, string>>): (cs: seq<Cell>)
    ensures |cs| == |meta|
  {
    if meta == [] then [] else Cells(meta[..|meta| - 1], data) + [InsertCell(meta[|meta| - 1], data)]
  }

  /** The column list: one entry per bound or unbound cell, in order. */
  function Columns(cs: seq<Cell>): seq<string> {
    if cs == [] then []
    else
      var last := cs[|cs| - 1];
      Columns(cs[..|cs| - 1]) + (if last.Bound? || last.Unbound? then [last.col] else [])
  }

  function Placeholders(cs: seq<Cell>): seq<string> {
    if cs == [] then []
    else
      var last := cs[|cs| - 1];
      Placeholders(cs[..|cs| - 1]) + (if last.Bound? || last.Unbound? then ["?"] else [])
  }

  function Values(cs: seq<Cell>): seq<SqlValue> {
    if cs == [] then []
    else
      var last := cs[|cs| - 1];
      Values(cs[..|cs| - 1]) + (if last.Bound? then [last.value] else [])
  }

  predicate Aborts(cs: seq<Cell>) {
    cs != [] && (Aborts(cs[..|cs| - 1]) || cs[|cs| - 1].Fatal?)
  }

  function InsertSql(table: string, cols: seq<string>, placeholders: seq<string>): string {
    "INSERT INTO `" + DoubleBackticks(table) + "`" + ValuesClause(cols, placeholders)
  }

  /** The statement after the table name: the column list and the placeholder list. */
  function ValuesClause(cols: seq<string>, placeholders: seq<string>): string {
    " (" + Join(cols, ", ") + ") VALUES (" + Join(placeholders, ", ") + ")"
  }

  /** The end of the add-entry block: a statement and its bound values, the "more data" error, or a fatal error. */
  datatype InsertOutcome =
    | Insert(sql: string, columns: seq<string>, placeholders: seq<string>, values: seq<SqlValue>)
    | NothingSubmitted
    | Aborted

  function InsertResult(table: string, meta: seq<ColumnMeta>, data: Option<map<string, string>>): InsertOutcome {
    var cs := Cells(meta, data);
    if Aborts(cs) then Aborted
    else if Columns(cs) == [] then NothingSubmitted
    else Insert(InsertSql(table, Columns(cs), Placeholders(cs)), Columns(cs), Placeholders(cs), Values(cs))
  }

  /**
   * The add-entry block as written: `meta` is the DESCRIBE answer and `data`
   * is `$_POST['data']` (None when the form sent no data array).
   */
  method BuildInsert(table: string, meta: seq<ColumnMeta>, data: Option<map<string, string>>)
    returns (outcome: InsertOutcome)
    ensures outcome == InsertResult(table, meta, data)
  {
    var fatal, insertCols, insertValues, insertPlaceholders := CollectInsertParts(meta, data);
    if fatal {
      return Aborted;
    }
    if insertCols != [] {
      outcome := Insert(InsertSql(table, insertCols, insertPlaceholders), insertCols, insertPlaceholders, insertValues);
    } else {
      outcome := NothingSubmitted;
    }
  }

  /**
   * The foreach over the DESCRIBE rows; `fatal` reports the TypeError that
   * array_key_exists raises when there is no data array.
   */
  method CollectInsertParts(meta: seq<ColumnMeta>, data: Option<map<string, string>>)
    returns (fatal: bool, insertCols: seq<string>, insertValues: seq<SqlValue>, insertPlaceholders: seq<string>)
    ensures fatal == Aborts(Cells(meta, data))
    ensures !fatal ==>
      && insertCols == Columns(Cells(meta, data))
      && insertPlaceholders == Placeholders(Cells(meta, data))
      && insertValues == Values(Cells(meta, data))
  {
    insertCols, insertValues, insertPlaceholders := [], [], [];
    var i := 0;
    while i < |meta|
      invariant 0 <= i <= |meta|
      invariant !Aborts(Cells(meta[..i], data))
      invariant insertCols == Columns(Cells(meta[..i], data))
      invariant insertPlaceholders == Placeholders(Cells(meta[..i], data))
      invariant insertValues == Values(Cells(meta[..i], data))
    {
      var colMeta := meta[i];
      ghost var cell := InsertCell(colMeta, data);
      CellsStep(meta, i, data);
      ScanStep(Cells(meta[..i], data), cell);
      var colName := colMeta.field;
      var submitted := Submitted(data, colName);
      if IsAutoIncrement(colMeta) && (submitted.None? || IsEmpty(submitted.value)) {
        i := i + 1;
        continue;
      }
      if data.None? {
        SplitAround(meta, i);
        FatalCellAborts(meta[..i], colMeta, meta[i + 1..], data);
        return true, [], [], [];
      }
      insertCols, insertValues, insertPlaceholders :=
        AppendSubmitted(colMeta, data.value, insertCols, insertValues, insertPlaceholders);
      i := i + 1;
    }
    assert meta[..i] == meta;
    fatal := false;
  }

  /**
   * The rest of the loop body, once the auto-increment skip and the missing
   * data array are out of the way: a submitted key adds the quoted column and
   * a placeholder, and a value unless the irregular empty branch is taken.
   */
  method AppendSubmitted(colMeta: ColumnMeta, d: map<string, string>,
                         cols: seq<string>, values: seq<SqlValue>, placeholders: seq<string>)
    returns (cols': seq<string>, values': seq<SqlValue>, placeholders': seq<string>)
    requires !(IsAutoIncrement(colMeta) && (colMeta.field !in d || IsEmpty(d[colMeta.field])))
    ensures var x := InsertCell(colMeta, Some(d));
      && cols' == cols + (if x.Bound? || x.Unbound? then [x.col] else [])
      && placeholders' == placeholders + (if x.Bound? || x.Unbound? then ["?"] else [])
      && values' == values + (if x.Bound? then [x.value] else [])
  {
    cols', values', placeholders' := cols, values, placeholders;
    var colName := colMeta.field;
    if colName in d {
      cols' := cols' + [QuoteIdent(colName)];
      var submittedValue := d[colName];
      if submittedValue == "" && IsNumericType(colMeta.colType) && colMeta.nullable == "NO" {
      } else if IsBooleanType(colMeta.colType) {
        values' := values' + [Int(if FilterValidatesTrue(submittedValue) then 1 else 0)];
      } else {
        values' := values' + [if submittedValue == "" then Null else Text(submittedValue)];
      }
      placeholders' := placeholders' + ["?"];
    }
  }

  // --- Lemmas about the cell scan ---

  lemma {:induction false} CellsConcat(a: seq<ColumnMeta>, b: seq<ColumnMeta>, data: Option<map<string, string>>)
    ensures Cells(a + b, data) == Cells(a, data) + Cells(b, data)
    decreases |b|
  {
    if b == [] {
      assert a + b == a;
    } else {
      CellsConcat(a, b[..|b| - 1], data);
      assert (a + b)[..|a + b| - 1] == a + b[..|b| - 1];
      assert (a + b)[|a + b| - 1] == b[|b| - 1];
    }
  }

  lemma {:induction false} CellAt(meta: seq<ColumnMeta>, j: nat, data: Option<map<string, string>>)
    requires j < |meta|
    ensures Cells(meta, data)[j] == InsertCell(meta[j], data)
  {
    SplitAround(meta, j);
    assert [meta[j]][..0] == [];
    CellsConcat(meta[..j], [meta[j]], data);
    CellsConcat(meta[..j] + [meta[j]], meta[j + 1..], data);
  }

  /** Splitting the cells anywhere splits every list the scan builds. */
  lemma ScanConcat(a: seq<Cell>, b: seq<Cell>)
    ensures Columns(a + b) == Columns(a) + Columns(b)
    ensures Placeholders(a + b) == Placeholders(a) + Placeholders(b)
    ensures Values(a + b) == Values(a) + Values(b)
    ensures Aborts(a + b) == (Aborts(a) || Aborts(b))
  {
    ColumnsConcat(a, b);
    PlaceholdersConcat(a, b);
    ValuesConcat(a, b);
    AbortsConcat(a, b);
  }

  lemma {:induction false} ColumnsConcat(a: seq<Cell>, b: seq<Cell>)
    ensures Columns(a + b) == Columns(a) + Columns(b)
    decreases |b|
  {
    if b == [] {
      assert a + b == a;
    } else {
      var init, last := b[..|b| - 1], b[|b| - 1];
      ColumnsConcat(a, init);
      assert a + b == (a + init) + [last];
      ScanStep(a + init, last);
      ScanStep(init, last);
    }
  }

  lemma {:induction false} PlaceholdersConcat(a: seq<Cell>, b: seq<Cell>)
    ensures Placeholders(a + b) == Placeholders(a) + Placeholders(b)
    decreases |b|
  {
    if b == [] {
      assert a + b == a;
    } else {
      var init, last := b[..|b| - 1], b[|b| - 1];
      PlaceholdersConcat(a, init);
      assert a + b == (a + init) + [last];
      ScanStep(a + init, last);
      ScanStep(init, last);
    }
  }

  lemma {:induction false} ValuesConcat(a: seq<Cell>, b: seq<Cell>)
    ensures Values(a + b) == Values(a) + Values(b)
    decreases |b|
  {
    if b == [] {
      assert a + b == a;
    } else {
      var init, last := b[..|b| - 1], b[|b| - 1];
      ValuesConcat(a, init);
      assert a + b == (a + init) + [last];
      ScanStep(a + init, last);
      ScanStep(init, last);
    }
  }

  lemma {:induction false} AbortsConcat(a: seq<Cell>, b: seq<Cell>)
    ensures Aborts(a + b) == (Aborts(a) || Aborts(b))
    decreases |b|
  {
    if b == [] {
      assert a + b == a;
    } else {
      var init, last := b[..|b| - 1], b[|b| - 1];
      AbortsConcat(a, init);
      assert a + b == (a + init) + [last];
      ScanStep(a + init, last);
      ScanStep(init, last);
    }
  }

  /** One more DESCRIBE row adds its cell. */
  lemma {:induction false} CellsStep(meta: seq<ColumnMeta>, i: nat, data: Option<map<string, string>>)
    requires i < |meta|
    ensures Cells(meta[..i + 1], data) == Cells(meta[..i], data) + [InsertCell(meta[i], data)]
  {
    assert meta[..i + 1][..i] == meta[..i];
  }

  /** What one more cell adds to each list. */
  lemma {:induction false} ScanStep(cs: seq<Cell>, x: Cell)
    ensures Columns(cs + [x]) == Columns(cs) + (if x.Bound? || x.Unbound? then [x.col] else [])
    ensures Placeholders(cs + [x]) == Placeholders(cs) + (if x.Bound? || x.Unbound? then ["?"] else [])
    ensures Values(cs + [x]) == Values(cs) + (if x.Bound? then [x.value] else [])
    ensures Aborts(cs + [x]) == (Aborts(cs) || x.Fatal?)
  {
    assert (cs + [x])[..|cs|] == cs;
  }

  /** The column the loop dies on makes the whole submission abort. */
  lemma {:induction false} FatalCellAborts(before: seq<ColumnMeta>, c: ColumnMeta, after: seq<ColumnMeta>, data: Option<map<string, string>>)
    requires InsertCell(c, data).Fatal?
    ensures Aborts(Cells(before + [c] + after, data))
  {
    assert [c][..0] == [];
    CellsConcat(before, [c], data);
    CellsConcat(before + [c], after, data);
    ScanConcat(Cells(before, data), [InsertCell(c, data)]);
    ScanConcat(Cells(before, data) + [InsertCell(c, data)], Cells(after, data));
  }

  // --- Reference definitions, stated on DESCRIBE rows and the submitted map ---

  /** The column gets into the INSERT: a key was submitted, and it is not an auto-increment column left empty. */
  predicate IsIncluded(c: ColumnMeta, d: map<string, string>) {
    c.field in d && !(IsAutoIncrement(c) && IsEmpty(d[c.field]))
  }

  /** The column gets a placeholder but no bound value (the branch with an empty body). */
  predicate IsUnbound(c: ColumnMeta, d: map<string, string>) {
    IsIncluded(c, d) && d[c.field] == "" && IsNumericType(c.colType) && c.nullable == "NO"
  }

  /** The names of the included columns, in DESCRIBE order. */
  function IncludedFields(meta: seq<ColumnMeta>, d: map<string, string>): (fs: seq<string>)
    ensures |fs| <= |meta|
  {
    if meta == [] then []
    else
      var last := meta[|meta| - 1];
      IncludedFields(meta[..|meta| - 1], d) + (if IsIncluded(last, d) then [last.field] else [])
  }

  function CountUnbound(meta: seq<ColumnMeta>, d: map<string, string>): nat {
    if meta == [] then 0
    else CountUnbound(meta[..|meta| - 1], d) + (if IsUnbound(meta[|meta| - 1], d) then 1 else 0)
  }

  /** The values bound: the coerced value of every included column that is not unbound, in DESCRIBE order. */
  function BoundValues(meta: seq<ColumnMeta>, d: map<string, string>): seq<SqlValue> {
    if meta == [] then []
    else
      var last := meta[|meta| - 1];
      BoundValues(meta[..|meta| - 1], d)
        + (if IsIncluded(last, d) && !IsUnbound(last, d) then [CoerceValue(last, d[last.field]).value] else [])
  }

  function QuoteAll(fs: seq<string>): (qs: seq<string>)
    ensures |qs| == |fs|
  {
    if fs == [] then [] else QuoteAll(fs[..|fs| - 1]) + [QuoteIdent(fs[|fs| - 1])]
  }

  /** What one column contributes, in the terms of the reference definitions. */
  lemma {:induction false} CellMeaning(c: ColumnMeta, d: map<string, string>)
    ensures InsertCell(c, Some(d)).Bound? || InsertCell(c, Some(d)).Unbound? <==> IsIncluded(c, d)
    ensures InsertCell(c, Some(d)).Unbound? <==> IsUnbound(c, d)
    ensures !InsertCell(c, Some(d)).Fatal?
    ensures IsIncluded(c, d) ==> InsertCell(c, Some(d)).col == QuoteIdent(c.field)
  {
  }

  /** With a data array, the INSERT columns are exactly the quoted included fields, in DESCRIBE order. */
  lemma {:induction false} ColumnsAreIncludedFields(meta: seq<ColumnMeta>, d: map<string, string>)
    ensures Columns(Cells(meta, Some(d))) == QuoteAll(IncludedFields(meta, d))
    ensures !Aborts(Cells(meta, Some(d)))
    decreases |meta|
  {
    if meta != [] {
      var init, last := meta[..|meta| - 1], meta[|meta| - 1];
      ColumnsAreIncludedFields(init, d);
      CellMeaning(last, d);
      ScanConcat(Cells(init, Some(d)), [InsertCell(last, Some(d))]);
      assert [InsertCell(last, Some(d))][..0] == [];
      var fs := IncludedFields(init, d);
      if IsIncluded(last, d) {
        assert (fs + [last.field])[..|fs|] == fs;
      } else {
        assert fs + [] == fs;
      }
    }
  }

  /** With a data array, the bound values are exactly the reference values, in DESCRIBE order. */
  lemma {:induction false} ValuesAreBoundValues(meta: seq<ColumnMeta>, d: map<string, string>)
    ensures Values(Cells(meta, Some(d))) == BoundValues(meta, d)
    decreases |meta|
  {
    if meta != [] {
      var init, last := meta[..|meta| - 1], meta[|meta| - 1];
      ValuesAreBoundValues(init, d);
      CellMeaning(last, d);
      ScanConcat(Cells(init, Some(d)), [InsertCell(last, Some(d))]);
      assert [InsertCell(last, Some(d))][..0] == [];
    }
  }

  /**
   * Column and placeholder lists always have the same length and every
   * placeholder is "?"; the values fall short by one for every unbound column.
   */
  lemma {:induction false} ListsAligned(meta: seq<ColumnMeta>, d: map<string, string>)
    ensures |Placeholders(Cells(meta, Some(d)))| == |Columns(Cells(meta, Some(d)))|
    ensures forall k :: 0 <= k < |Placeholders(Cells(meta, Some(d)))| ==> Placeholders(Cells(meta, Some(d)))[k] == "?"
    ensures |Values(Cells(meta, Some(d)))| + CountUnbound(meta, d) == |Columns(Cells(meta, Some(d)))|
    decreases |meta|
  {
    if meta != [] {
      var init, last := meta[..|meta| - 1], meta[|meta| - 1];
      ListsAligned(init, d);
      CellMeaning(last, d);
      ScanConcat(Cells(init, Some(d)), [InsertCell(last, Some(d))]);
      assert [InsertCell(last, Some(d))][..0] == [];
    }
  }

  /** The outcome of the block, in the terms of the reference definitions. */
  lemma {:induction false} InsertOutcomeMeaning(table: string, meta: seq<ColumnMeta>, d: map<string, string>)
    ensures InsertResult(table, meta, Some(d)) != Aborted
    ensures InsertResult(table, meta, Some(d)) == NothingSubmitted <==> IncludedFields(meta, d) == []
    ensures InsertResult(table, meta, Some(d)).Insert? ==>
      var r := InsertResult(table, meta, Some(d));
      && r.columns == QuoteAll(IncludedFields(meta, d))
      && |r.placeholders| == |r.columns|
      && (forall k :: 0 <= k < |r.placeholders| ==> r.placeholders[k] == "?")
      && r.values == BoundValues(meta, d)
      && |r.values| + CountUnbound(meta, d) == |r.columns|
      && r.sql == InsertSql(table, r.columns, r.placeholders)
  {
    ColumnsAreIncludedFields(meta, d);
    ListsAligned(meta, d);
    ValuesAreBoundValues(meta, d);
  }

  /** Without a data array the script dies exactly when some column is not auto-increment. */
  lemma {:induction false} NoDataAbortsUnlessAllAutoIncrement(table: string, meta: seq<ColumnMeta>)
    ensures InsertResult(table, meta, None) == Aborted <==> exists j :: 0 <= j < |meta| && !IsAutoIncrement(meta[j])
    ensures InsertResult(table, meta, None) != Aborted ==> InsertResult(table, meta, None) == NothingSubmitted
    decreases |meta|
  {
    if meta != [] {
      var init, last := meta[..|meta| - 1], meta[|meta| - 1];
      NoDataAbortsUnlessAllAutoIncrement(table, init);
      ScanConcat(Cells(init, None), [InsertCell(last, None)]);
      assert [InsertCell(last, None)][..0] == [];
      assert forall j :: 0 <= j < |init| ==> init[j] == meta[j];
      if !IsAutoIncrement(last) {
        assert !IsAutoIncrement(meta[|meta| - 1]);
      }
    }
  }

  /**
   * Per-column coercion: an auto-increment column left empty and a column
   * without a submitted key are left out; a boolean column binds 1 exactly for
   * the FILTER_VALIDATE_BOOLEAN true set and 0 otherwise; an empty value for
   * any other column binds null; anything else binds the submitted text.
   */
  lemma {:induction false} CellCoercion(c: ColumnMeta, d: map<string, string>)
    ensures IsAutoIncrement(c) && (c.field !in d || IsEmpty(d[c.field])) ==> InsertCell(c, Some(d)) == Omit
    ensures c.field !in d ==> InsertCell(c, Some(d)) == Omit
    ensures InsertCell(c, Some(d)).Bound? && IsBooleanType(c.colType) ==>
      InsertCell(c, Some(d)).value == Int(if FilterValidatesTrue(d[c.field]) then 1 else 0)
    ensures InsertCell(c, Some(d)).Bound? && !IsBooleanType(c.colType) ==>
      InsertCell(c, Some(d)).value == (if d[c.field] == "" then Null else Text(d[c.field]))
    ensures InsertCell(c, Some(d)).Bound? ==> IsIncluded(c, d) && !IsUnbound(c, d)
  {
  }

  /** The columns of an earlier part of DESCRIBE come before those of a later part. */
  lemma {:induction false} ColumnsInDescribeOrder(a: seq<ColumnMeta>, b: seq<ColumnMeta>, data: Option<map<string, string>>)
    ensures Columns(Cells(a + b, data)) == Columns(Cells(a, data)) + Columns(Cells(b, data))
    ensures Values(Cells(a + b, data)) == Values(Cells(a, data)) + Values(Cells(b, data))
  {
    CellsConcat(a, b, data);
    ScanConcat(Cells(a, data), Cells(b, data));
  }

  /** MySQL reads the quoted table name in the statement back as exactly the table name. */
  lemma {:induction false} InsertNamesTable(table: string, cols: seq<string>, placeholders: seq<string>)
    ensures var sql := InsertSql(table, cols, placeholders);
      && |sql| >= 13 && sql[..13] == "INSERT INTO `"
      && ReadQuotedBody(sql[13..]) == Some((table, ValuesClause(cols, placeholders)))
  {
    var rest := ValuesClause(cols, placeholders);
    var body := DoubleBackticks(table) + "`" + rest;
    QuotedNameReadsBack(table, rest);
    assert InsertSql(table, cols, placeholders) == "INSERT INTO `" + body;
  }

  // ---------------------------------------------------------------------------
  // The add form's input type
  // ---------------------------------------------------------------------------

  /**
   * The successive ifs on the lowered type: each later match overrides the
   * earlier ones, so checkbox beats number, number beats datetime-local, and
   * datetime-local beats date.
   */
  method AddFormInputType(colType: string) returns (inputType: InputType)
    ensures var t := ToLower(colType);
      if Contains(t, "boolean") || Contains(t, "tinyint(1)") then inputType == CheckboxInput
      else if Contains(t, "int") || Contains(t, "decimal") then inputType == NumberInput
      else if Contains(t, "datetime") || Contains(t, "timestamp") then inputType == DatetimeLocalInput
      else if Contains(t, "date") then inputType == DateInput
      else inputType == TextInput
    ensures ToLower(colType) == "timestamp" ==> inputType == DatetimeLocalInput
  {
    if ToLower(colType) == "timestamp" {
      assert OccursAt("timestamp", "timestamp", 0);
      MissingCharNotContained("timestamp", "boolean", 0);
      MissingCharNotContained("timestamp", "tinyint(1)", 2);
      MissingCharNotContained("timestamp", "int", 1);
      MissingCharNotContained("timestamp", "decimal", 0);
    }
    inputType := TextInput;
    var colTypeLower := ToLower(colType);
    if Contains(colTypeLower, "date") && !Contains(colTypeLower, "datetime") {
      inputType := DateInput;
    }
    if Contains(colTypeLower, "datetime") || Contains(colTypeLower, "timestamp") {
      inputType := DatetimeLocalInput;
    }
    if Contains(colTypeLower, "int") || Contains(colTypeLower, "decimal") {
      inputType := NumberInput;
    }
    if Contains(colTypeLower, "boolean") || Contains(colTypeLower, "tinyint(1)") {
      inputType := CheckboxInput;
    }
  }

  /**
   * The overriding matters: every `tinyint(1)` type also contains "int", and
   * every `datetime` type also contains "date".
   */
  lemma {:induction false} OverriddenRulesAlsoMatch(t: string)
    ensures Contains(t, "tinyint(1)") ==> Contains(t, "int")
    ensures Contains(t, "datetime") ==> Contains(t, "date")
  {
    ContainsWithin(t, "tinyint(1)", "int", 4);
    ContainsWithin(t, "datetime", "date", 0);
  }
}
