/**
 * The create-table handler of php_app/index.php: trims and validates the table
 * name, walks the submitted column rows in order, skips blank ones, aborts on
 * the first invalid name or type, promotes an `id` INT column to an
 * auto-increment primary key and assembles the CREATE TABLE statement.
 */
module CreateTable {
  import opened Wrappers
  import opened PhpText
  import opened Names
  import opened SeqLemmas

  /** One submitted column row: `$col['name'] ?? ''` and `$col['type'] ?? ''` (a missing key arrives as ""). */
  datatype ColumnRow = ColumnRow(name: string, colType: string)

  /** The column types the form may submit, compared exactly. */
  const ValidColumnTypes: seq<string> :=
    ["VARCHAR(255)", "INT", "TEXT", "DATE", "TIMESTAMP", "DECIMAL(10,2)", "BOOLEAN"]

  /** Why a column row aborts the handler: "Invalid column name" or "Invalid column type". */
  datatype ColumnError = BadName(name: string) | BadType(colType: string)

  /** What the handler ends with: an error message, or the statement it executes. */
  datatype CreateOutcome =
    | InvalidTableName
    | InvalidColumn(error: ColumnError)
    | NoValidColumns
    | Create(sql: string, hasPkId: bool)

  /** What one pass of the loop does with a row: skip it, abort with an error, or add a definition. */
  datatype Verdict = Skip | Reject(error: ColumnError) | Accept(def: string, pk: bool)

  /** A row whose trimmed name or (untrimmed) type is empty is skipped. */
  predicate IsBlank(row: ColumnRow) {
    Trim(row.name) == "" || row.colType == ""
  }

  /** A column named `id` in any letter case with type exactly INT. */
  predicate IsPrimaryKeyRow(row: ColumnRow) {
    ToLower(Trim(row.name)) == "id" && row.colType == "INT"
  }

  /** One row: the name is checked before the type; an `id` INT column becomes the primary key. */
  function Judge(row: ColumnRow): Verdict {
    var name := Trim(row.name);
    if name == "" || row.colType == "" then Skip
    else if !IsValidNameIndex(name) then Reject(BadName(name))
    else if row.colType !in ValidColumnTypes then Reject(BadType(row.colType))
    else if ToLower(name) == "id" && row.colType == "INT" then
      Accept("`" + DoubleBackticks(name) + "` INT PRIMARY KEY AUTO_INCREMENT", true)
    else Accept("`" + DoubleBackticks(name) + "` " + row.colType, false)
  }

  /** The verdict of every row, in submission order. */
  function Verdicts(rows: seq<ColumnRow>): (vs: seq<Verdict>)
    ensures |vs| == |rows|
  {
    if rows == [] then [] else Verdicts(rows[..|rows| - 1]) + [Judge(rows[|rows| - 1])]
  }

  lemma {:induction false} VerdictAt(rows: seq<ColumnRow>, j: nat)
    requires j < |rows|
    ensures Verdicts(rows)[j] == Judge(rows[j])
    decreases |rows|
  {
    if j < |rows| - 1 {
      VerdictAt(rows[..|rows| - 1], j);
    }
  }

  lemma {:induction false} VerdictsConcat(a: seq<ColumnRow>, b: seq<ColumnRow>)
    ensures Verdicts(a + b) == Verdicts(a) + Verdicts(b)
    decreases |b|
  {
    if b == [] {
      assert a + b == a;
    } else {
      VerdictsConcat(a, b[..|b| - 1]);
      assert (a + b)[..|a + b| - 1] == a + b[..|b| - 1];
      assert (a + b)[|a + b| - 1] == b[|b| - 1];
    }
  }

  /** The first error among the verdicts, in submission order. */
  function FirstError(vs: seq<Verdict>): Option<ColumnError> {
    if vs == [] then None
    else
      var before := FirstError(vs[..|vs| - 1]);
      if before.Some? then before
      else if vs[|vs| - 1].Reject? then Some(vs[|vs| - 1].error)
      else None
  }

  /** The definitions of the accepted rows, in submission order. */
  function Defs(vs: seq<Verdict>): seq<string> {
    if vs == [] then []
    else Defs(vs[..|vs| - 1]) + (if vs[|vs| - 1].Accept? then [vs[|vs| - 1].def] else [])
  }

  /** Some accepted row is the primary key. */
  predicate HasPk(vs: seq<Verdict>) {
    vs != [] && (HasPk(vs[..|vs| - 1]) || (vs[|vs| - 1].Accept? && vs[|vs| - 1].pk))
  }

  function CreateSql(table: string, defs: seq<string>): string {
    "CREATE TABLE `" + DoubleBackticks(table) + "` (" + Join(defs, ", ")
      + ") ENGINE=InnoDB DEFAULT CHARSET=utf8mb4;"
  }

  /**
   * The statement names the table that was entered: read as a MySQL quoted
   * identifier, the text after "CREATE TABLE `" gives back the name exactly.
   */
  lemma {:induction false} CreateSqlNamesTable(table: string, defs: seq<string>)
    ensures var sql := CreateSql(table, defs);
      && |sql| >= 14 && sql[..14] == "CREATE TABLE `"
      && ReadQuotedBody(sql[14..])
        == Some((table, " (" + Join(defs, ", ") + ") ENGINE=InnoDB DEFAULT CHARSET=utf8mb4;"))
  {
    var rest := " (" + Join(defs, ", ") + ") ENGINE=InnoDB DEFAULT CHARSET=utf8mb4;";
    var body := DoubleBackticks(table) + "`" + rest;
    QuotedNameReadsBack(table, rest);
    assert CreateSql(table, defs) == "CREATE TABLE `" + body;
  }

  /** The handler's outcome, stated over whole row lists rather than step by step. */
  function CreateTableResult(tableName: string, rows: seq<ColumnRow>): CreateOutcome {
    var table := Trim(tableName);
    var vs := Verdicts(rows);
    if !IsValidNameIndex(table) then InvalidTableName
    else match FirstError(vs)
      case Some(e) => InvalidColumn(e)
      case None =>
        if Defs(vs) == [] then NoValidColumns
        else Create(CreateSql(table, Defs(vs)), HasPk(vs))
  }

  /**
   * The handler as written: validate the trimmed table name, scan the rows,
   * then report "No valid columns" or build the statement.
   */
  method HandleCreateTable(tableName: string, rows: seq<ColumnRow>) returns (outcome: CreateOutcome)
    ensures outcome == CreateTableResult(tableName, rows)
  {
    var newTableName := Trim(tableName);
    if !IsValidNameIndex(newTableName) {
      return InvalidTableName;
    }
    var columnDefs, hasPkId, error := ScanColumnRows(rows);
    if columnDefs == [] && error.None? {
      outcome := NoValidColumns;
    } else if columnDefs != [] {
      outcome := Create(CreateSql(newTableName, columnDefs), hasPkId);
    } else {
      outcome := InvalidColumn(error.value);
    }
  }

  /**
   * The foreach over the submitted rows: appends one definition per valid row,
   * sets has_pk_id, and on the first invalid row records the error, clears the
   * definitions and breaks.
   */
  method ScanColumnRows(rows: seq<ColumnRow>) returns (columnDefs: seq<string>, hasPkId: bool, error: Option<ColumnError>)
    ensures error == FirstError(Verdicts(rows))
    ensures error.None? ==> columnDefs == Defs(Verdicts(rows)) && hasPkId == HasPk(Verdicts(rows))
    ensures error.Some? ==> columnDefs == []
  {
    columnDefs := [];
    hasPkId := false;
    error := None;
    var i := 0;
    while i < |rows|
      invariant 0 <= i <= |rows|
      invariant error.None? && FirstError(Verdicts(rows[..i])).None?
      invariant columnDefs == Defs(Verdicts(rows[..i]))
      invariant hasPkId == HasPk(Verdicts(rows[..i]))
    {
      var col := rows[i];
      assert rows[..i + 1][..i] == rows[..i];
      assert Verdicts(rows[..i + 1]) == Verdicts(rows[..i]) + [Judge(col)];
      var colName := Trim(col.name);
      var colType := col.colType;
      if colName != "" && colType != "" {
        if !IsValidNameIndex(colName) {
          error := Some(BadName(colName));
          columnDefs := [];
          SplitAround(rows, i);
          RejectedRowStopsScan(rows[..i], col, rows[i + 1..]);
          break;
        }
        if colType !in ValidColumnTypes {
          error := Some(BadType(colType));
          columnDefs := [];
          SplitAround(rows, i);
          RejectedRowStopsScan(rows[..i], col, rows[i + 1..]);
          break;
        }
        if ToLower(colName) == "id" && colType == "INT" {
          columnDefs := columnDefs + ["`" + DoubleBackticks(colName) + "` INT PRIMARY KEY AUTO_INCREMENT"];
          hasPkId := true;
        } else {
          columnDefs := columnDefs + ["`" + DoubleBackticks(colName) + "` " + colType];
        }
      }
      i := i + 1;
    }
    if error.None? {
      assert rows[..i] == rows;
    }
  }

  /** A rejection after error-free verdicts is the error of the whole list. */
  lemma {:induction false} FirstRejectDecides(before: seq<Verdict>, v: Verdict, after: seq<Verdict>)
    requires FirstError(before).None? && v.Reject?
    ensures FirstError(before + [v] + after) == Some(v.error)
  {
    assert (before + [v])[..|before|] == before;
    ScanConcat(before + [v], after);
  }

  /** The row the loop breaks on decides the error, whatever rows follow it. */
  lemma {:induction false} RejectedRowStopsScan(before: seq<ColumnRow>, row: ColumnRow, after: seq<ColumnRow>)
    requires FirstError(Verdicts(before)).None? && Judge(row).Reject?
    ensures FirstError(Verdicts(before + [row] + after)) == Some(Judge(row).error)
  {
    VerdictsAround(before, row, after);
    FirstRejectDecides(Verdicts(before), Judge(row), Verdicts(after));
  }

  /** What a verdict says about its row, in the handler's own terms. */
  lemma {:induction false} JudgeMeaning(row: ColumnRow)
    ensures Judge(row).Skip? <==> IsBlank(row)
    ensures Judge(row).Reject? <==>
      !IsBlank(row) && (!IsValidNameIndex(Trim(row.name)) || row.colType !in ValidColumnTypes)
    ensures Judge(row).Reject? ==>
      Judge(row).error == if !IsValidNameIndex(Trim(row.name)) then BadName(Trim(row.name)) else BadType(row.colType)
    ensures Judge(row).Accept? ==> Judge(row).pk == IsPrimaryKeyRow(row)
  {
  }

  /**
   * Splitting the rows anywhere: the definitions of the first part come before
   * those of the second, an error in the first part wins, and either part can
   * supply the primary key.
   */
  lemma {:induction false} ScanConcat(a: seq<Verdict>, b: seq<Verdict>)
    ensures Defs(a + b) == Defs(a) + Defs(b)
    ensures FirstError(a + b) == if FirstError(a).Some? then FirstError(a) else FirstError(b)
    ensures HasPk(a + b) == (HasPk(a) || HasPk(b))
    decreases |b|
  {
    if b == [] {
      assert a + b == a;
    } else {
      var init := b[..|b| - 1];
      ScanConcat(a, init);
      assert (a + b)[..|a + b| - 1] == a + init;
      assert (a + b)[|a + b| - 1] == b[|b| - 1];
    }
  }

  /** A skipped verdict contributes nothing to the scan. */
  lemma {:induction false} SkipIsNeutral(before: seq<Verdict>, after: seq<Verdict>)
    ensures Defs(before + [Skip] + after) == Defs(before + after)
    ensures FirstError(before + [Skip] + after) == FirstError(before + after)
    ensures HasPk(before + [Skip] + after) == HasPk(before + after)
  {
    assert (before + [Skip])[..|before|] == before;
    ScanConcat(before, [Skip]);
    ScanConcat(before + [Skip], after);
    ScanConcat(before, after);
  }

  /** The outcome depends on the rows only through their verdicts. */
  lemma {:induction false} ResultByVerdicts(tableName: string, rows1: seq<ColumnRow>, rows2: seq<ColumnRow>)
    requires Defs(Verdicts(rows1)) == Defs(Verdicts(rows2))
    requires FirstError(Verdicts(rows1)) == FirstError(Verdicts(rows2))
    requires HasPk(Verdicts(rows1)) == HasPk(Verdicts(rows2))
    ensures CreateTableResult(tableName, rows1) == CreateTableResult(tableName, rows2)
  {
  }

  /** The verdicts around one row: those before it, its own, those after it. */
  lemma {:induction false} VerdictsAround(before: seq<ColumnRow>, row: ColumnRow, after: seq<ColumnRow>)
    ensures Verdicts(before + [row] + after) == Verdicts(before) + [Judge(row)] + Verdicts(after)
  {
    assert [row][..0] == [];
    VerdictsConcat(before, [row]);
    VerdictsConcat(before + [row], after);
  }

  /** A blank row anywhere in the submission changes nothing: it is skipped silently. */
  lemma {:induction false} BlankRowIsSkipped(tableName: string, rows: seq<ColumnRow>, k: nat)
    requires k < |rows| && IsBlank(rows[k])
    ensures CreateTableResult(tableName, rows) == CreateTableResult(tableName, rows[..k] + rows[k + 1..])
  {
    JudgeMeaning(rows[k]);
    SplitAround(rows, k);
    VerdictsAround(rows[..k], rows[k], rows[k + 1..]);
    VerdictsConcat(rows[..k], rows[k + 1..]);
    SkipIsNeutral(Verdicts(rows[..k]), Verdicts(rows[k + 1..]));
    ResultByVerdicts(tableName, rows, rows[..k] + rows[k + 1..]);
  }

  /** Verdicts without a rejection leave no error behind, and conversely. */
  lemma {:induction false} NoErrorIffNoReject(vs: seq<Verdict>)
    ensures FirstError(vs) == None <==> forall j :: 0 <= j < |vs| ==> !vs[j].Reject?
    decreases |vs|
  {
    if vs != [] {
      var init := vs[..|vs| - 1];
      NoErrorIffNoReject(init);
      assert forall j :: 0 <= j < |init| ==> init[j] == vs[j];
    }
  }

  /**
   * Abort on the first error: when row k is the first row rejected for an
   * invalid name or a type outside the allow-list, the outcome is that row's
   * error, whatever follows it.
   */
  lemma {:induction false} FirstInvalidRowDecides(tableName: string, rows: seq<ColumnRow>, k: nat)
    requires IsValidNameIndex(Trim(tableName))
    requires k < |rows| && !IsBlank(rows[k])
    requires !IsValidNameIndex(Trim(rows[k].name)) || rows[k].colType !in ValidColumnTypes
    requires forall j :: 0 <= j < k ==>
      IsBlank(rows[j]) || (IsValidNameIndex(Trim(rows[j].name)) && rows[j].colType in ValidColumnTypes)
    ensures CreateTableResult(tableName, rows) == InvalidColumn(
      if !IsValidNameIndex(Trim(rows[k].name)) then BadName(Trim(rows[k].name)) else BadType(rows[k].colType))
  {
    var before := Verdicts(rows[..k]);
    forall j | 0 <= j < k
      ensures !before[j].Reject?
    {
      VerdictAt(rows[..k], j);
      JudgeMeaning(rows[j]);
    }
    NoErrorIffNoReject(before);
    JudgeMeaning(rows[k]);
    SplitAround(rows, k);
    VerdictsAround(rows[..k], rows[k], rows[k + 1..]);
    FirstRejectDecides(before, Judge(rows[k]), Verdicts(rows[k + 1..]));
  }

  lemma {:induction false} DefsEmptyIffNoAccept(vs: seq<Verdict>)
    ensures Defs(vs) == [] <==> forall j :: 0 <= j < |vs| ==> !vs[j].Accept?
    decreases |vs|
  {
    if vs != [] {
      var init := vs[..|vs| - 1];
      DefsEmptyIffNoAccept(init);
      assert forall j :: 0 <= j < |init| ==> init[j] == vs[j];
    }
  }

  /** With a valid table name, "No valid columns" is reported exactly when every row is blank. */
  lemma {:induction false} NoValidColumnsIffAllBlank(tableName: string, rows: seq<ColumnRow>)
    requires IsValidNameIndex(Trim(tableName))
    ensures CreateTableResult(tableName, rows) == NoValidColumns
        <==> forall j :: 0 <= j < |rows| ==> IsBlank(rows[j])
  {
    var vs := Verdicts(rows);
    DefsEmptyIffNoAccept(vs);
    NoErrorIffNoReject(vs);
    forall j | 0 <= j < |rows|
      ensures vs[j].Skip? <==> IsBlank(rows[j])
    {
      VerdictAt(rows, j);
      JudgeMeaning(rows[j]);
    }
  }

  lemma {:induction false} HasPkExists(vs: seq<Verdict>)
    ensures HasPk(vs) <==> exists j :: 0 <= j < |vs| && vs[j].Accept? && vs[j].pk
    decreases |vs|
  {
    if vs != [] {
      var init := vs[..|vs| - 1];
      HasPkExists(init);
      assert forall j :: 0 <= j < |init| ==> init[j] == vs[j];
    }
  }

  /**
   * A statement is issued only when the table name and every non-blank row are
   * valid and at least one row is non-blank; `has_pk_id` is set exactly when
   * some non-blank row is an `id` column of type INT.
   */
  lemma {:induction false} CreatedTablesAreValid(tableName: string, rows: seq<ColumnRow>)
    requires CreateTableResult(tableName, rows).Create?
    ensures IsValidNameIndex(Trim(tableName))
    ensures forall j :: 0 <= j < |rows| && !IsBlank(rows[j]) ==>
      IsValidNameIndex(Trim(rows[j].name)) && rows[j].colType in ValidColumnTypes
    ensures exists j :: 0 <= j < |rows| && !IsBlank(rows[j])
    ensures CreateTableResult(tableName, rows).hasPkId <==>
      exists j :: 0 <= j < |rows| && !IsBlank(rows[j]) && IsPrimaryKeyRow(rows[j])
  {
    var vs := Verdicts(rows);
    RowVerdicts(rows);
    NoErrorIffNoReject(vs);
    forall j | 0 <= j < |rows| && !IsBlank(rows[j])
      ensures IsValidNameIndex(Trim(rows[j].name)) && rows[j].colType in ValidColumnTypes
    {
      assert !vs[j].Reject?;
    }
    DefsEmptyIffNoAccept(vs);
    var i :| 0 <= i < |vs| && vs[i].Accept?;
    assert !IsBlank(rows[i]);
    assert CreateTableResult(tableName, rows).hasPkId == HasPk(vs);
    PkRowsDecide(rows);
  }

  /** Without a rejected row, the pk flag is set exactly when some non-blank row is the `id` INT row. */
  lemma {:induction false} PkRowsDecide(rows: seq<ColumnRow>)
    requires FirstError(Verdicts(rows)).None?
    ensures HasPk(Verdicts(rows)) <==> exists j :: 0 <= j < |rows| && !IsBlank(rows[j]) && IsPrimaryKeyRow(rows[j])
  {
    if HasPk(Verdicts(rows)) {
      PkFlagHasRow(rows);
    }
    if exists j :: 0 <= j < |rows| && !IsBlank(rows[j]) && IsPrimaryKeyRow(rows[j]) {
      var j :| 0 <= j < |rows| && !IsBlank(rows[j]) && IsPrimaryKeyRow(rows[j]);
      PkRowSetsFlag(rows, j);
    }
  }

  lemma {:induction false} PkFlagHasRow(rows: seq<ColumnRow>)
    requires HasPk(Verdicts(rows))
    ensures exists j :: 0 <= j < |rows| && !IsBlank(rows[j]) && IsPrimaryKeyRow(rows[j])
  {
    var j := PkIndex(Verdicts(rows));
    PkVerdictAt(rows, j);
  }

  lemma {:induction false} PkRowSetsFlag(rows: seq<ColumnRow>, j: nat)
    requires FirstError(Verdicts(rows)).None?
    requires j < |rows| && !IsBlank(rows[j]) && IsPrimaryKeyRow(rows[j])
    ensures HasPk(Verdicts(rows))
  {
    NoRejectAt(Verdicts(rows), j);
    PkVerdictAt(rows, j);
    PkAtSetsFlag(Verdicts(rows), j);
  }

  /** Where the pk flag comes from: some accepted primary-key verdict. */
  lemma {:induction false} PkIndex(vs: seq<Verdict>) returns (j: nat)
    requires HasPk(vs)
    ensures j < |vs| && vs[j].Accept? && vs[j].pk
    decreases |vs|
  {
    if HasPk(vs[..|vs| - 1]) {
      j := PkIndex(vs[..|vs| - 1]);
      assert vs[j] == vs[..|vs| - 1][j];
    } else {
      j := |vs| - 1;
    }
  }

  /** An accepted primary-key verdict anywhere sets the flag. */
  lemma {:induction false} PkAtSetsFlag(vs: seq<Verdict>, j: nat)
    requires j < |vs| && vs[j].Accept? && vs[j].pk
    ensures HasPk(vs)
    decreases |vs|
  {
    if j < |vs| - 1 {
      assert vs[..|vs| - 1][j] == vs[j];
      PkAtSetsFlag(vs[..|vs| - 1], j);
    }
  }

  /** Without an error, no verdict is a rejection. */
  lemma {:induction false} NoRejectAt(vs: seq<Verdict>, j: nat)
    requires FirstError(vs).None? && j < |vs|
    ensures !vs[j].Reject?
    decreases |vs|
  {
    if j < |vs| - 1 {
      assert vs[..|vs| - 1][j] == vs[j];
      NoRejectAt(vs[..|vs| - 1], j);
    }
  }

  /** A row that is not rejected is the accepted pk row exactly when it is a non-blank `id` INT row. */
  lemma {:induction false} PkVerdictAt(rows: seq<ColumnRow>, j: nat)
    requires j < |rows| && !Verdicts(rows)[j].Reject?
    ensures Verdicts(rows)[j].Accept? && Verdicts(rows)[j].pk <==> !IsBlank(rows[j]) && IsPrimaryKeyRow(rows[j])
  {
    VerdictAt(rows, j);
    JudgeMeaning(rows[j]);
  }

  /** What each row's verdict means, for all rows at once. */
  lemma {:induction false} RowVerdicts(rows: seq<ColumnRow>)
    ensures |Verdicts(rows)| == |rows|
    ensures forall j :: 0 <= j < |rows| ==>
      && (Verdicts(rows)[j].Skip? <==> IsBlank(rows[j]))
      && (Verdicts(rows)[j].Reject? <==>
            !IsBlank(rows[j]) && (!IsValidNameIndex(Trim(rows[j].name)) || rows[j].colType !in ValidColumnTypes))
      && (Verdicts(rows)[j].Accept? ==> Verdicts(rows)[j].pk == IsPrimaryKeyRow(rows[j]))
  {
    forall j | 0 <= j < |rows|
      ensures Verdicts(rows)[j] == Judge(rows[j])
    {
      VerdictAt(rows, j);
      JudgeMeaning(rows[j]);
    }
  }

  /**
   * The statement lists the definitions in submission order: the definitions
   * from an earlier part of the submission precede those from a later part.
   */
  lemma {:induction false} DefinitionsInSubmissionOrder(a: seq<ColumnRow>, b: seq<ColumnRow>)
    ensures Defs(Verdicts(a + b)) == Defs(Verdicts(a)) + Defs(Verdicts(b))
  {
    VerdictsConcat(a, b);
    ScanConcat(Verdicts(a), Verdicts(b));
  }

  /**
   * What an accepted row contributes: its trimmed name between backticks (no
   * escaping needed, as a valid name holds no backtick), then
   * `INT PRIMARY KEY AUTO_INCREMENT` for an `id` INT column, else its type.
   */
  lemma {:induction false} AcceptedRowDefinition(row: ColumnRow)
    requires Judge(row).Accept?
    ensures !IsBlank(row) && IsValidNameIndex(Trim(row.name)) && row.colType in ValidColumnTypes
    ensures IsPrimaryKeyRow(row) ==> Judge(row).def == "`" + Trim(row.name) + "` INT PRIMARY KEY AUTO_INCREMENT"
    ensures !IsPrimaryKeyRow(row) ==> Judge(row).def == "`" + Trim(row.name) + "` " + row.colType
    ensures Judge(row).pk == IsPrimaryKeyRow(row)
  {
    ValidNamesNeedNoEscaping(Trim(row.name));
  }
}
