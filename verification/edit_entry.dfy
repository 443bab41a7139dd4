/**
 * php_app/edit-entry.php: the request check, the UPDATE builder of the
 * edit form, and the input type the edit form gives each column. This page
 * loads php_app/db_config.php, so its `is_valid_name` is the lax variant.
 */
module EditEntry {
  import opened Wrappers
  import opened PhpText
  import opened Names
  import opened Schema
  import opened SeqLemmas

  // ---------------------------------------------------------------------------
  // Request validation
  // ---------------------------------------------------------------------------

  /**
   * The page goes on only when `table_name` passes `is_valid_name` and `id` is
   * numeric; a missing parameter is null, which fails both checks.
   */
  predicate RequestIsValid(tableName: Option<string>, entryId: Option<string>) {
    tableName.Some? && IsValidNameConfig(tableName.value) && entryId.Some? && IsNumeric(entryId.value)
  }

  /**
   * What the check buys the page: the table name, which the page splices
   * between backticks without escaping, holds no backtick, so the splice reads
   * the same as the escaped one.
   */
  lemma {:induction false} AcceptedRequestIsSafe(tableName: Option<string>, entryId: Option<string>)
    requires RequestIsValid(tableName, entryId)
    ensures 0 < |tableName.value| <= 64
    ensures '`' !in tableName.value && DoubleBackticks(tableName.value) == tableName.value
    ensures entryId.value != ""
  {
    ValidNamesNeedNoEscaping(tableName.value);
  }

  /** An ordinary request, a valid table and a row id of decimal digits, passes; a missing parameter never does. */
  lemma {:induction false} RequestAcceptance(tableName: Option<string>, entryId: Option<string>)
    ensures tableName.None? || entryId.None? ==> !RequestIsValid(tableName, entryId)
    ensures (tableName.Some? && entryId.Some? && IsValidNameConfig(tableName.value)
             && forall k :: 0 <= k < |entryId.value| ==> IsDigit(entryId.value[k])) ==>
      (RequestIsValid(tableName, entryId) <==> entryId.value != "")
  {
    if tableName.Some? && entryId.Some? && forall k :: 0 <= k < |entryId.value| ==> IsDigit(entryId.value[k]) {
      DigitStringsAreNumeric(entryId.value);
    }
  }

  /**
   * The id check is is_numeric, not a digit check: an exponent, surrounding
   * whitespace, a sign or a fraction all pass, while hexadecimal and embedded
   * spaces do not.
   */
  lemma {:induction false} LooseIdsPass(tableName: string)
    requires IsValidNameConfig(tableName)
    ensures RequestIsValid(Some(tableName), Some("1e3"))
    ensures RequestIsValid(Some(tableName), Some(" 12"))
    ensures RequestIsValid(Some(tableName), Some("-1"))
    ensures RequestIsValid(Some(tableName), Some("1.5"))
    ensures !RequestIsValid(Some(tableName), Some("0x1A"))
    ensures !RequestIsValid(Some(tableName), Some("1 2"))
  {
    ExponentAndSpaceAreNumeric();
    SignAndFractionAreNumeric();
    HexAndGapsAreNotNumeric();
  }

  // ---------------------------------------------------------------------------
  // The UPDATE builder
  // ---------------------------------------------------------------------------

  /** strpos(strtoupper($type), 'BOOL') or strpos(strtoupper($type), 'TINYINT(1)'). */
  predicate IsBoolType(colType: string) {
    var t := ToUpper(colType);
    Contains(t, "BOOL") || Contains(t, "TINYINT(1)")
  }

  /** One SET assignment; the column name is spliced in without escaping. */
  function SetPart(field: string): string {
    "`" + field + "` = ?"
  }

  /** What the loop does with one column: leave it alone, or assign it a value. */
  datatype UpdateCell = Keep | Assign(part: string, value: SqlValue)

  function UpdateCellOf(c: ColumnMeta, data: Option<map<string, string>>): UpdateCell {
    if c.field == "id" then Keep
    else match Submitted(data, c.field)
      case Some(v) => Assign(SetPart(c.field), if IsBoolType(c.colType) then Int(1) else if v == "" then Null else Text(v))
      case None => if IsBoolType(c.colType) then Assign(SetPart(c.field), Int(0)) else Keep
  }

  function UpdateCells(meta: seq<ColumnMeta>, data: Option<map<string, string>>): (cs: seq<UpdateCell>)
    ensures |cs| == |meta|
  {
    if meta == [] then [] else UpdateCells(meta[..|meta| - 1], data) + [UpdateCellOf(meta[|meta| - 1], data)]
  }

  function SetParts(cs: seq<UpdateCell>): seq<string> {
    if cs == [] then []
    else
      var last := cs[|cs| - 1];
      SetParts(cs[..|cs| - 1]) + (if last.Assign? then [last.part] else [])
  }

  function SetValues(cs: seq<UpdateCell>): seq<SqlValue> {
    if cs == [] then []
    else
      var last := cs[|cs| - 1];
      SetValues(cs[..|cs| - 1]) + (if last.Assign? then [last.value] else [])
  }

  function UpdateSql(table: string, setParts: seq<string>): string {
    "UPDATE `" + table + "` SET " + Join(setParts, ", ") + " WHERE `id` = ?"
  }

  /** The end of the update block: a statement with its bound values, or the "no data" error. */
  datatype UpdateOutcome = Update(sql: string, setParts: seq<string>, values: seq<SqlValue>) | NothingToUpdate

  function UpdateResult(table: string, entryId: string, meta: seq<ColumnMeta>, data: Option<map<string, string>>): UpdateOutcome {
    var cs := UpdateCells(meta, data);
    if SetParts(cs) == [] then NothingToUpdate
    else Update(UpdateSql(table, SetParts(cs)), SetParts(cs), SetValues(cs) + [Text(entryId)])
  }

  /**
   * The update block as written: `meta` is the DESCRIBE answer, `data` is
   * `$_POST['data']` (None when absent) and `entryId` the validated id.
   */
  method BuildUpdate(table: string, entryId: string, meta: seq<ColumnMeta>, data: Option<map<string, string>>)
    returns (outcome: UpdateOutcome)
    ensures outcome == UpdateResult(table, entryId, meta, data)
  {
    var updateSetParts: seq<string> := [];
    var updateValues: seq<SqlValue> := [];
    var i := 0;
    while i < |meta|
      invariant 0 <= i <= |meta|
      invariant updateSetParts == SetParts(UpdateCells(meta[..i], data))
      invariant updateValues == SetValues(UpdateCells(meta[..i], data))
    {
      var colMeta := meta[i];
      ghost var cell := UpdateCellOf(colMeta, data);
      assert meta[..i + 1][..i] == meta[..i];
      assert UpdateCells(meta[..i + 1], data) == UpdateCells(meta[..i], data) + [cell];
      UpdateScanStep(UpdateCells(meta[..i], data), cell);
      var colName := colMeta.field;
      if colName == "id" {
        i := i + 1;
        continue;
      }
      if Submitted(data, colName).Some? {
        updateSetParts := updateSetParts + ["`" + colName + "` = ?"];
        var submittedValue := data.value[colName];
        if IsBoolType(colMeta.colType) {
          updateValues := updateValues + [Int(1)];
        } else {
          updateValues := updateValues + [if submittedValue == "" then Null else Text(submittedValue)];
        }
      } else if IsBoolType(colMeta.colType) {
        updateSetParts := updateSetParts + ["`" + colName + "` = ?"];
        updateValues := updateValues + [Int(0)];
      }
      i := i + 1;
    }
    assert meta[..i] == meta;
    if updateSetParts != [] {
      var sql := "UPDATE `" + table + "` SET " + Join(updateSetParts, ", ") + " WHERE `id` = ?";
      updateValues := updateValues + [Text(entryId)];
      outcome := Update(sql, updateSetParts, updateValues);
    } else {
      outcome := NothingToUpdate;
    }
  }

  // --- Lemmas about the scan ---

  /** What one more cell adds to the SET list and to the values. */
  lemma {:induction false} UpdateScanStep(cs: seq<UpdateCell>, x: UpdateCell)
    ensures SetParts(cs + [x]) == SetParts(cs) + (if x.Assign? then [x.part] else [])
    ensures SetValues(cs + [x]) == SetValues(cs) + (if x.Assign? then [x.value] else [])
  {
    assert (cs + [x])[..|cs|] == cs;
  }

  lemma {:induction false} UpdateCellsConcat(a: seq<ColumnMeta>, b: seq<ColumnMeta>, data: Option<map<string, string>>)
    ensures UpdateCells(a + b, data) == UpdateCells(a, data) + UpdateCells(b, data)
    decreases |b|
  {
    if b == [] {
      assert a + b == a;
    } else {
      UpdateCellsConcat(a, b[..|b| - 1], data);
      assert (a + b)[..|a + b| - 1] == a + b[..|b| - 1];
      assert (a + b)[|a + b| - 1] == b[|b| - 1];
    }
  }

  lemma {:induction false} SetPartsConcat(a: seq<UpdateCell>, b: seq<UpdateCell>)
    ensures SetParts(a + b) == SetParts(a) + SetParts(b)
    decreases |b|
  {
    if b == [] {
      assert a + b == a;
    } else {
      var init, last := b[..|b| - 1], b[|b| - 1];
      SetPartsConcat(a, init);
      assert a + b == (a + init) + [last];
      UpdateScanStep(a + init, last);
      UpdateScanStep(init, last);
    }
  }

  lemma {:induction false} SetValuesConcat(a: seq<UpdateCell>, b: seq<UpdateCell>)
    ensures SetValues(a + b) == SetValues(a) + SetValues(b)
    decreases |b|
  {
    if b == [] {
      assert a + b == a;
    } else {
      var init, last := b[..|b| - 1], b[|b| - 1];
      SetValuesConcat(a, init);
      assert a + b == (a + init) + [last];
      UpdateScanStep(a + init, last);
      UpdateScanStep(init, last);
    }
  }

  /** The SET parts and values of an earlier part of DESCRIBE come before those of a later part. */
  lemma SetPartsInDescribeOrder(a: seq<ColumnMeta>, b: seq<ColumnMeta>, data: Option<map<string, string>>)
    ensures SetParts(UpdateCells(a + b, data)) == SetParts(UpdateCells(a, data)) + SetParts(UpdateCells(b, data))
    ensures SetValues(UpdateCells(a + b, data)) == SetValues(UpdateCells(a, data)) + SetValues(UpdateCells(b, data))
  {
    UpdateCellsConcat(a, b, data);
    SetPartsConcat(UpdateCells(a, data), UpdateCells(b, data));
    SetValuesConcat(UpdateCells(a, data), UpdateCells(b, data));
  }

  // --- Reference definitions ---

  /** The column gets a SET assignment: it is not `id`, and it was submitted or is a boolean. */
  predicate IsAssigned(c: ColumnMeta, data: Option<map<string, string>>) {
    c.field != "id" && (Submitted(data, c.field).Some? || IsBoolType(c.colType))
  }

  /** The assigned columns' names, in DESCRIBE order. */
  function AssignedFields(meta: seq<ColumnMeta>, data: Option<map<string, string>>): seq<string> {
    if meta == [] then []
    else
      var last := meta[|meta| - 1];
      AssignedFields(meta[..|meta| - 1], data) + (if IsAssigned(last, data) then [last.field] else [])
  }

  /** The value an assigned column binds: a boolean binds 1 if submitted and 0 if not; anything else null for "" and its text otherwise. */
  function AssignedValue(c: ColumnMeta, data: Option<map<string, string>>): SqlValue
    requires IsAssigned(c, data)
  {
    if IsBoolType(c.colType) then Int(if Submitted(data, c.field).Some? then 1 else 0)
    else
      var v := Submitted(data, c.field).value;
      if v == "" then Null else Text(v)
  }

  /** The assigned columns' values, in DESCRIBE order. */
  function AssignedValues(meta: seq<ColumnMeta>, data: Option<map<string, string>>): seq<SqlValue> {
    if meta == [] then []
    else
      var last := meta[|meta| - 1];
      AssignedValues(meta[..|meta| - 1], data) + (if IsAssigned(last, data) then [AssignedValue(last, data)] else [])
  }

  function SetPartsOf(fields: seq<string>): (ps: seq<string>)
    ensures |ps| == |fields|
  {
    if fields == [] then [] else SetPartsOf(fields[..|fields| - 1]) + [SetPart(fields[|fields| - 1])]
  }

  /**
   * The value a column gets: a boolean is 1 whenever it was submitted, whatever
   * its value, and 0 when it was not; anything else binds null for "" and the
   * submitted text otherwise.
   */
  lemma {:induction false} UpdateCoercion(c: ColumnMeta, data: Option<map<string, string>>)
    ensures UpdateCellOf(c, data).Assign? <==> IsAssigned(c, data)
    ensures IsAssigned(c, data) ==> UpdateCellOf(c, data).part == SetPart(c.field)
    ensures IsAssigned(c, data) && IsBoolType(c.colType) ==>
      UpdateCellOf(c, data).value == (if Submitted(data, c.field).Some? then Int(1) else Int(0))
    ensures IsAssigned(c, data) && !IsBoolType(c.colType) ==>
      Submitted(data, c.field).Some?
      && UpdateCellOf(c, data).value == (if data.value[c.field] == "" then Null else Text(data.value[c.field]))
  {
  }

  /** The SET list is exactly the assignments of the assigned columns, in DESCRIBE order, one value each. */
  lemma {:induction false} SetPartsAreAssignedFields(meta: seq<ColumnMeta>, data: Option<map<string, string>>)
    ensures SetParts(UpdateCells(meta, data)) == SetPartsOf(AssignedFields(meta, data))
    ensures |SetValues(UpdateCells(meta, data))| == |SetParts(UpdateCells(meta, data))|
    decreases |meta|
  {
    if meta != [] {
      var init, last := meta[..|meta| - 1], meta[|meta| - 1];
      SetPartsAreAssignedFields(init, data);
      UpdateCoercion(last, data);
      UpdateScanStep(UpdateCells(init, data), UpdateCellOf(last, data));
      var fs := AssignedFields(init, data);
      if IsAssigned(last, data) {
        assert (fs + [last.field])[..|fs|] == fs;
      } else {
        assert fs + [] == fs;
      }
    }
  }

  /** The bound SET values are exactly the assigned columns' values, in DESCRIBE order. */
  lemma {:induction false} SetValuesAreAssignedValues(meta: seq<ColumnMeta>, data: Option<map<string, string>>)
    ensures SetValues(UpdateCells(meta, data)) == AssignedValues(meta, data)
    decreases |meta|
  {
    if meta != [] {
      var init, last := meta[..|meta| - 1], meta[|meta| - 1];
      SetValuesAreAssignedValues(init, data);
      UpdateCoercion(last, data);
      UpdateScanStep(UpdateCells(init, data), UpdateCellOf(last, data));
    }
  }

  /** No assigned column is the one named exactly `id`. */
  lemma {:induction false} IdIsNeverAssigned(meta: seq<ColumnMeta>, data: Option<map<string, string>>)
    ensures "id" !in AssignedFields(meta, data)
    decreases |meta|
  {
    if meta != [] {
      IdIsNeverAssigned(meta[..|meta| - 1], data);
    }
  }

  /** Different columns give different assignments, so the text `id` = ? names the `id` column alone. */
  lemma {:induction false} SetPartNamesItsColumn(f: string, g: string)
    requires SetPart(f) == SetPart(g)
    ensures f == g
  {
    assert |f| == |g|;
    assert f == SetPart(f)[1..|f| + 1];
    assert g == SetPart(g)[1..|g| + 1];
  }

  lemma {:induction false} SetPartsOfNoId(fields: seq<string>)
    requires "id" !in fields
    ensures SetPart("id") !in SetPartsOf(fields)
    decreases |fields|
  {
    if fields != [] {
      var init := fields[..|fields| - 1];
      assert forall f :: f in init ==> f in fields;
      SetPartsOfNoId(init);
      if SetPart(fields[|fields| - 1]) == SetPart("id") {
        SetPartNamesItsColumn(fields[|fields| - 1], "id");
      }
    }
  }

  /**
   * The statement: never an assignment to `id`; one bound value per SET part
   * plus the entry id, last, for `WHERE id = ?`; no statement at all exactly
   * when no column is assigned.
   */
  lemma {:induction false} UpdateOutcomeMeaning(table: string, entryId: string, meta: seq<ColumnMeta>, data: Option<map<string, string>>)
    ensures UpdateResult(table, entryId, meta, data) == NothingToUpdate <==> AssignedFields(meta, data) == []
    ensures UpdateResult(table, entryId, meta, data).Update? ==>
      var r := UpdateResult(table, entryId, meta, data);
      && r.setParts == SetPartsOf(AssignedFields(meta, data))
      && SetPart("id") !in r.setParts
      && r.values == AssignedValues(meta, data) + [Text(entryId)]
      && |r.values| == |r.setParts| + 1
      && r.values[|r.values| - 1] == Text(entryId)
      && r.sql == UpdateSql(table, r.setParts)
  {
    SetPartsAreAssignedFields(meta, data);
    SetValuesAreAssignedValues(meta, data);
    IdIsNeverAssigned(meta, data);
    SetPartsOfNoId(AssignedFields(meta, data));
  }

  /** Every boolean column other than `id` is assigned, submitted or not. */
  lemma {:induction false} BooleansAlwaysAssigned(meta: seq<ColumnMeta>, data: Option<map<string, string>>, k: nat)
    requires k < |meta| && meta[k].field != "id" && IsBoolType(meta[k].colType)
    ensures meta[k].field in AssignedFields(meta, data)
    decreases |meta|
  {
    if k < |meta| - 1 {
      BooleansAlwaysAssigned(meta[..|meta| - 1], data, k);
    }
  }

  // ---------------------------------------------------------------------------
  // The edit form's input type
  // ---------------------------------------------------------------------------

  /**
   * The if/elseif chain on the upper-cased type: the first match wins. Since
   * DATETIME contains DATE and TINYINT(1) contains INT, a DATETIME column is
   * edited through a date input and a TINYINT(1) column never through a
   * number input; a TIMESTAMP column, which the add form gives a
   * datetime-local input, is edited as text.
   */
  method EditFormInputType(colType: string) returns (inputType: InputType)
    ensures var t := ToUpper(colType);
      if Contains(t, "DATE") then inputType == DateInput
      else if Contains(t, "BOOL") || Contains(t, "TINYINT(1)") then inputType == CheckboxInput
      else if Contains(t, "INT") then inputType == NumberInput
      else inputType == TextInput
    ensures Contains(ToUpper(colType), "DATETIME") ==> inputType == DateInput
    ensures Contains(ToUpper(colType), "TINYINT(1)") ==>
      Contains(ToUpper(colType), "INT") && inputType != NumberInput
      && (inputType == CheckboxInput <==> !Contains(ToUpper(colType), "DATE"))
    ensures inputType == NumberInput <==>
      && Contains(ToUpper(colType), "INT")
      && !Contains(ToUpper(colType), "DATE")
      && !Contains(ToUpper(colType), "BOOL")
      && !Contains(ToUpper(colType), "TINYINT(1)")
    ensures ToUpper(colType) == "TIMESTAMP" ==> inputType == TextInput
  {
    ContainsWithin(ToUpper(colType), "DATETIME", "DATE", 0);
    ContainsWithin(ToUpper(colType), "TINYINT(1)", "INT", 4);
    if ToUpper(colType) == "TIMESTAMP" {
      MissingCharNotContained("TIMESTAMP", "DATE", 0);
      MissingCharNotContained("TIMESTAMP", "BOOL", 0);
      MissingCharNotContained("TIMESTAMP", "TINYINT(1)", 2);
      MissingCharNotContained("TIMESTAMP", "INT", 1);
    }
    inputType := TextInput;
    if Contains(ToUpper(colType), "DATE") {
      inputType := DateInput;
    } else if Contains(ToUpper(colType), "BOOL") || Contains(ToUpper(colType), "TINYINT(1)") {
      inputType := CheckboxInput;
    } else if Contains(ToUpper(colType), "INT") {
      inputType := NumberInput;
    }
  }
}
