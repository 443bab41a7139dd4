/**
 * php_app/include/functions.php: `buildSqlParts`, which turns posted form
 * data into the column, value and placeholder lists of an INSERT or UPDATE,
 * and the decisions `render_form_fields` takes for each column: whether the
 * form shows it, with which input type and which initial value.
 */
module FormFunctions {
  import opened Wrappers
  import opened PhpText
  import opened Schema

  // ---------------------------------------------------------------------------
  // buildSqlParts
  // ---------------------------------------------------------------------------

  /** What one DESCRIBE row contributes: nothing, or a column with its bound value. */
  datatype PartCell = NoPart | Part(column: string, value: SqlValue)

  /** empty($v) for the null-or-string values the function handles. */
  predicate IsEmptyValue(v: SqlValue) {
    v.Null? || (v.Text? && IsEmpty(v.s))
  }

  /** The column of `users` whose value is hashed before it is stored. */
  predicate IsPasswordColumn(tableName: string, field: string) {
    tableName == "users" && field == "password"
  }

  function PartCellOf(tableName: string, c: ColumnMeta, post: map<string, string>, isUpdate: bool): PartCell {
    if ToLower(c.field) == "id" || (isUpdate && c.field !in post) then NoPart
    else if c.field !in post then NoPart
    else
      var v := post[c.field];
      if IsPasswordColumn(tableName, c.field) then
        if IsEmpty(v) && isUpdate then NoPart else Part("`" + c.field + "`", PasswordHash(v))
      else Part("`" + c.field + "`", if v == "" then Null else Text(v))
  }

  function PartCells(tableName: string, meta: seq<ColumnMeta>, post: map<string, string>, isUpdate: bool): (cs: seq<PartCell>)
    ensures |cs| == |meta|
  {
    if meta == [] then []
    else PartCells(tableName, meta[..|meta| - 1], post, isUpdate) + [PartCellOf(tableName, meta[|meta| - 1], post, isUpdate)]
  }

  function PartColumns(cs: seq<PartCell>): seq<string> {
    if cs == [] then []
    else
      var last := cs[|cs| - 1];
      PartColumns(cs[..|cs| - 1]) + (if last.Part? then [last.column] else [])
  }

  function PartValues(cs: seq<PartCell>): seq<SqlValue> {
    if cs == [] then []
    else
      var last := cs[|cs| - 1];
      PartValues(cs[..|cs| - 1]) + (if last.Part? then [last.value] else [])
  }

  function PartPlaceholders(cs: seq<PartCell>): seq<string> {
    if cs == [] then []
    else
      var last := cs[|cs| - 1];
      PartPlaceholders(cs[..|cs| - 1]) + (if last.Part? then ["?"] else [])
  }

  /**
   * buildSqlParts as written, with the DESCRIBE answer `meta` passed in.
   * password_hash is the uninterpreted PasswordHash; given null it hashes "".
   */
  method BuildSqlParts(tableName: string, meta: seq<ColumnMeta>, post: map<string, string>, isUpdate: bool)
    returns (columns: seq<string>, values: seq<SqlValue>, placeholders: seq<string>)
    ensures columns == PartColumns(PartCells(tableName, meta, post, isUpdate))
    ensures values == PartValues(PartCells(tableName, meta, post, isUpdate))
    ensures placeholders == PartPlaceholders(PartCells(tableName, meta, post, isUpdate))
  {
    columns, values, placeholders := [], [], [];
    var i := 0;
    while i < |meta|
      invariant 0 <= i <= |meta|
      invariant columns == PartColumns(PartCells(tableName, meta[..i], post, isUpdate))
      invariant values == PartValues(PartCells(tableName, meta[..i], post, isUpdate))
      invariant placeholders == PartPlaceholders(PartCells(tableName, meta[..i], post, isUpdate))
    {
      PartCellsStep(tableName, meta, i, post, isUpdate);
      PartScanStep(PartCells(tableName, meta[..i], post, isUpdate), PartCellOf(tableName, meta[i], post, isUpdate));
      columns, values, placeholders := AppendColumn(tableName, meta[i], post, isUpdate, columns, values, placeholders);
      i := i + 1;
    }
    assert meta[..i] == meta;
  }

  /** One pass of the loop: the `id` column and, on update, a column not posted are skipped. */
  method AppendColumn(tableName: string, colMeta: ColumnMeta, post: map<string, string>, isUpdate: bool,
                      columns: seq<string>, values: seq<SqlValue>, placeholders: seq<string>)
    returns (columns': seq<string>, values': seq<SqlValue>, placeholders': seq<string>)
    ensures var cell := PartCellOf(tableName, colMeta, post, isUpdate);
      && columns' == columns + (if cell.Part? then [cell.column] else [])
      && values' == values + (if cell.Part? then [cell.value] else [])
      && placeholders' == placeholders + (if cell.Part? then ["?"] else [])
  {
    columns', values', placeholders' := columns, values, placeholders;
    var colName := colMeta.field;
    if ToLower(colName) == "id" || (isUpdate && colName !in post) {
      return;
    }
    if colName in post {
      columns', values', placeholders' := AppendPosted(tableName, colMeta, post, isUpdate, columns, values, placeholders);
    }
  }

  /** The body of the loop for a posted column other than `id`. */
  method AppendPosted(tableName: string, colMeta: ColumnMeta, post: map<string, string>, isUpdate: bool,
                      columns: seq<string>, values: seq<SqlValue>, placeholders: seq<string>)
    returns (columns': seq<string>, values': seq<SqlValue>, placeholders': seq<string>)
    requires ToLower(colMeta.field) != "id" && colMeta.field in post
    ensures var cell := PartCellOf(tableName, colMeta, post, isUpdate);
      && columns' == columns + (if cell.Part? then [cell.column] else [])
      && values' == values + (if cell.Part? then [cell.value] else [])
      && placeholders' == placeholders + (if cell.Part? then ["?"] else [])
  {
    var colName := colMeta.field;
    var submittedValue := post[colName];
    var finalValue := if submittedValue == "" then Null else Text(submittedValue);
    if tableName == "users" && colName == "password" {
      if IsEmptyValue(finalValue) && isUpdate {
        return columns, values, placeholders;
      }
      finalValue := PasswordHash(if finalValue.Null? then "" else finalValue.s);
    }
    columns' := columns + ["`" + colName + "`"];
    values' := values + [finalValue];
    placeholders' := placeholders + ["?"];
  }

  // --- Lemmas about the scan ---

  lemma {:induction false} PartCellsStep(tableName: string, meta: seq<ColumnMeta>, i: nat, post: map<string, string>, isUpdate: bool)
    requires i < |meta|
    ensures PartCells(tableName, meta[..i + 1], post, isUpdate)
      == PartCells(tableName, meta[..i], post, isUpdate) + [PartCellOf(tableName, meta[i], post, isUpdate)]
  {
    assert meta[..i + 1][..i] == meta[..i];
  }

  /** What one more cell adds to each list. */
  lemma {:induction false} PartScanStep(cs: seq<PartCell>, x: PartCell)
    ensures PartColumns(cs + [x]) == PartColumns(cs) + (if x.Part? then [x.column] else [])
    ensures PartValues(cs + [x]) == PartValues(cs) + (if x.Part? then [x.value] else [])
    ensures PartPlaceholders(cs + [x]) == PartPlaceholders(cs) + (if x.Part? then ["?"] else [])
  {
    assert (cs + [x])[..|cs|] == cs;
  }

  // --- Reference definitions ---

  /**
   * A column is included when it is not `id` in any letter case, its key was
   * posted, and it is not an empty `users.password` on update.
   */
  predicate IsKept(tableName: string, c: ColumnMeta, post: map<string, string>, isUpdate: bool) {
    ToLower(c.field) != "id" && c.field in post
      && !(isUpdate && IsPasswordColumn(tableName, c.field) && IsEmpty(post[c.field]))
  }

  /** The included DESCRIBE rows, in order. */
  function KeptColumns(tableName: string, meta: seq<ColumnMeta>, post: map<string, string>, isUpdate: bool): (kept: seq<ColumnMeta>)
    ensures |kept| <= |meta|
  {
    if meta == [] then []
    else
      var last := meta[|meta| - 1];
      KeptColumns(tableName, meta[..|meta| - 1], post, isUpdate) + (if IsKept(tableName, last, post, isUpdate) then [last] else [])
  }

  /** The value stored for a posted string: its hash for `users.password`, else null for "" and the string otherwise. */
  function StoredValue(tableName: string, field: string, v: string): SqlValue {
    if IsPasswordColumn(tableName, field) then PasswordHash(v)
    else if v == "" then Null
    else Text(v)
  }

  lemma {:induction false} PartCellMeaning(tableName: string, c: ColumnMeta, post: map<string, string>, isUpdate: bool)
    ensures PartCellOf(tableName, c, post, isUpdate).Part? <==> IsKept(tableName, c, post, isUpdate)
    ensures IsKept(tableName, c, post, isUpdate) ==>
      PartCellOf(tableName, c, post, isUpdate) == Part("`" + c.field + "`", StoredValue(tableName, c.field, post[c.field]))
  {
  }

  /**
   * The three lists run in step with the included rows: entry k names the
   * k-th included column in backticks, binds its stored value, and is "?".
   */
  lemma {:induction false} PartsFollowKeptColumns(tableName: string, meta: seq<ColumnMeta>, post: map<string, string>, isUpdate: bool)
    ensures var cs := PartCells(tableName, meta, post, isUpdate);
      var kept := KeptColumns(tableName, meta, post, isUpdate);
      && |PartColumns(cs)| == |kept| && |PartValues(cs)| == |kept| && |PartPlaceholders(cs)| == |kept|
      && forall k :: 0 <= k < |kept| ==>
        && kept[k].field in post
        && PartColumns(cs)[k] == "`" + kept[k].field + "`"
        && PartValues(cs)[k] == StoredValue(tableName, kept[k].field, post[kept[k].field])
        && PartPlaceholders(cs)[k] == "?"
    decreases |meta|
  {
    if meta != [] {
      var init, last := meta[..|meta| - 1], meta[|meta| - 1];
      PartsFollowKeptColumns(tableName, init, post, isUpdate);
      PartCellMeaning(tableName, last, post, isUpdate);
      PartScanStep(PartCells(tableName, init, post, isUpdate), PartCellOf(tableName, last, post, isUpdate));
    }
  }

  /** An included column is never `id` and always posted; every posted column that passes the rules is included. */
  lemma {:induction false} KeptColumnsAreExactlyTheKeptOnes(tableName: string, meta: seq<ColumnMeta>, post: map<string, string>, isUpdate: bool)
    ensures forall c :: c in KeptColumns(tableName, meta, post, isUpdate) <==>
      c in meta && IsKept(tableName, c, post, isUpdate)
    decreases |meta|
  {
    if meta != [] {
      var init := meta[..|meta| - 1];
      KeptColumnsAreExactlyTheKeptOnes(tableName, init, post, isUpdate);
      assert meta == init + [meta[|meta| - 1]];
    }
  }

  /** The included columns of an earlier part of DESCRIBE come before those of a later part. */
  lemma {:induction false} KeptColumnsInOrder(tableName: string, a: seq<ColumnMeta>, b: seq<ColumnMeta>, post: map<string, string>, isUpdate: bool)
    ensures KeptColumns(tableName, a + b, post, isUpdate)
      == KeptColumns(tableName, a, post, isUpdate) + KeptColumns(tableName, b, post, isUpdate)
    decreases |b|
  {
    if b == [] {
      assert a + b == a;
    } else {
      KeptColumnsInOrder(tableName, a, b[..|b| - 1], post, isUpdate);
      assert (a + b)[..|a + b| - 1] == a + b[..|b| - 1];
      assert (a + b)[|a + b| - 1] == b[|b| - 1];
    }
  }

  /** A column entry "`password`" can only come from the `password` column itself. */
  lemma {:induction false} PasswordEntryIsPasswordColumn(tableName: string, meta: seq<ColumnMeta>, post: map<string, string>, isUpdate: bool, k: nat)
    requires k < |PartColumns(PartCells(tableName, meta, post, isUpdate))|
    requires PartColumns(PartCells(tableName, meta, post, isUpdate))[k] == "`password`"
    ensures k < |KeptColumns(tableName, meta, post, isUpdate)|
    ensures KeptColumns(tableName, meta, post, isUpdate)[k].field == "password"
  {
    var cols := PartColumns(PartCells(tableName, meta, post, isUpdate));
    var kept := KeptColumns(tableName, meta, post, isUpdate);
    PartsFollowKeptColumns(tableName, meta, post, isUpdate);
    assert k < |kept| && cols[k] == "`" + kept[k].field + "`";
    BacktickedNamesDiffer(kept[k].field, "password");
  }

  /** For `users`, whatever is bound for the password column is its hash, never the submitted text. */
  lemma {:induction false} PasswordIsAlwaysHashed(meta: seq<ColumnMeta>, post: map<string, string>, isUpdate: bool)
    ensures var cs := PartCells("users", meta, post, isUpdate);
      forall k :: 0 <= k < |PartColumns(cs)| && PartColumns(cs)[k] == "`password`" ==>
        "password" in post && k < |PartValues(cs)| && PartValues(cs)[k] == PasswordHash(post["password"])
  {
    var cs := PartCells("users", meta, post, isUpdate);
    forall k | 0 <= k < |PartColumns(cs)| && PartColumns(cs)[k] == "`password`"
      ensures "password" in post && k < |PartValues(cs)| && PartValues(cs)[k] == PasswordHash(post["password"])
    {
      PasswordEntryIsPasswordColumn("users", meta, post, isUpdate, k);
      PartsFollowKeptColumns("users", meta, post, isUpdate);
    }
  }

  /** On update of `users` an empty password ("" or "0") is not bound at all, so the stored hash stays. */
  lemma {:induction false} EmptyPasswordIsNotUpdated(meta: seq<ColumnMeta>, post: map<string, string>)
    requires "password" in post && IsEmpty(post["password"])
    ensures "`password`" !in PartColumns(PartCells("users", meta, post, true))
  {
    var cols := PartColumns(PartCells("users", meta, post, true));
    if "`password`" in cols {
      var k :| 0 <= k < |cols| && cols[k] == "`password`";
      PasswordEntryIsPasswordColumn("users", meta, post, true, k);
      var kept := KeptColumns("users", meta, post, true);
      var c := kept[k];
      assert c in kept;
      KeptColumnsAreExactlyTheKeptOnes("users", meta, post, true);
      assert false;
    }
  }

  /** Wrapping in backticks keeps names apart. */
  lemma {:induction false} BacktickedNamesDiffer(f: string, g: string)
    ensures "`" + f + "`" == "`" + g + "`" <==> f == g
  {
    if "`" + f + "`" == "`" + g + "`" {
      assert f == ("`" + f + "`")[1..|f| + 1];
      assert g == ("`" + g + "`")[1..|g| + 1];
    }
  }

  /** Insert and update mode differ only for an empty `users.password`. */
  lemma {:induction false} ModesDifferOnlyForEmptyPassword(tableName: string, meta: seq<ColumnMeta>, post: map<string, string>)
    requires !("password" in post && IsPasswordColumn(tableName, "password") && IsEmpty(post["password"]))
    ensures PartCells(tableName, meta, post, true) == PartCells(tableName, meta, post, false)
    decreases |meta|
  {
    if meta != [] {
      ModesDifferOnlyForEmptyPassword(tableName, meta[..|meta| - 1], post);
    }
  }

  // ---------------------------------------------------------------------------
  // render_form_fields
  // ---------------------------------------------------------------------------

  /** One form field: the column name, the input type and the initial value (before HTML escaping). */
  datatype FormField = FormField(name: string, inputType: InputType, value: string)

  /** The form leaves out `id` in any letter case, and on "add" also auto-increment columns and `created_at`. */
  predicate IsHiddenField(c: ColumnMeta, formType: string) {
    ToLower(c.field) == "id"
      || (IsAutoIncrement(c) && formType == "add")
      || (c.field == "created_at" && formType == "add")
  }

  /** The if/elseif chain choosing the input type; the first match wins. */
  function FieldInputType(c: ColumnMeta, isUsersTable: bool, formType: string): InputType {
    var upper := ToUpper(c.colType);
    if isUsersTable && c.field == "password" && formType == "edit" then PasswordInput
    else if upper == "DATE" then DateInput
    else if upper == "BOOLEAN" || upper == "TINYINT(1)" then CheckboxInput
    else if Contains(upper, "INT") then NumberInput
    else if isUsersTable && c.field == "role" then SelectInput
    else TextInput
  }

  /** The initial value: the entry's value (absent or NULL reads as ""), but never the stored password. */
  function FieldValue(c: ColumnMeta, isUsersTable: bool, entry: map<string, string>, formType: string): string {
    if isUsersTable && c.field == "password" && formType == "edit" then ""
    else if c.field in entry then entry[c.field]
    else ""
  }

  function FieldsOf(columns: seq<ColumnMeta>, isUsersTable: bool, entry: map<string, string>, formType: string): seq<FormField> {
    if columns == [] then []
    else
      var last := columns[|columns| - 1];
      FieldsOf(columns[..|columns| - 1], isUsersTable, entry, formType)
        + (if IsHiddenField(last, formType) then []
           else [FieldFor(last, isUsersTable, entry, formType)])
  }

  /**
   * The loop of render_form_fields without the HTML it echoes: the fields it
   * renders, in order. `entry` holds the row being edited (empty on "add").
   */
  method RenderFormFields(columns: seq<ColumnMeta>, isUsersTable: bool, entry: map<string, string>, formType: string)
    returns (fields: seq<FormField>)
    ensures fields == FieldsOf(columns, isUsersTable, entry, formType)
  {
    fields := [];
    var i := 0;
    while i < |columns|
      invariant 0 <= i <= |columns|
      invariant fields == FieldsOf(columns[..i], isUsersTable, entry, formType)
    {
      var colInfo := columns[i];
      assert columns[..i + 1][..i] == columns[..i];
      var colName := colInfo.field;
      if ToLower(colName) == "id"
        || (Contains(ToLower(colInfo.extra), "auto_increment") && formType == "add")
        || (colName == "created_at" && formType == "add")
      {
        i := i + 1;
        continue;
      }
      var value := if colName in entry then entry[colName] else "";
      var inputType := TextInput;
      var colTypeUpper := ToUpper(colInfo.colType);
      if isUsersTable && colName == "password" && formType == "edit" {
        inputType := PasswordInput;
        value := "";
      } else if colTypeUpper == "DATE" {
        inputType := DateInput;
      } else if colTypeUpper == "BOOLEAN" || colTypeUpper == "TINYINT(1)" {
        inputType := CheckboxInput;
      } else if Contains(colTypeUpper, "INT") {
        inputType := NumberInput;
      } else if isUsersTable && colName == "role" {
        inputType := SelectInput;
      }
      fields := fields + [FormField(colName, inputType, value)];
      i := i + 1;
    }
    assert columns[..i] == columns;
  }

  /** The columns the form shows, in order. */
  function ShownColumns(columns: seq<ColumnMeta>, formType: string): (shown: seq<ColumnMeta>)
    ensures |shown| <= |columns|
  {
    if columns == [] then []
    else
      var last := columns[|columns| - 1];
      ShownColumns(columns[..|columns| - 1], formType) + (if IsHiddenField(last, formType) then [] else [last])
  }

  /** The field rendered for a shown column. */
  function FieldFor(c: ColumnMeta, isUsersTable: bool, entry: map<string, string>, formType: string): FormField {
    FormField(c.field, FieldInputType(c, isUsersTable, formType), FieldValue(c, isUsersTable, entry, formType))
  }

  /** Field k is the field of the k-th shown column. */
  lemma {:induction false} FieldsFollowShownColumns(columns: seq<ColumnMeta>, isUsersTable: bool, entry: map<string, string>, formType: string)
    ensures var fields := FieldsOf(columns, isUsersTable, entry, formType);
      var shown := ShownColumns(columns, formType);
      |fields| == |shown| && forall k :: 0 <= k < |shown| ==> fields[k] == FieldFor(shown[k], isUsersTable, entry, formType)
    decreases |columns|
  {
    if columns != [] {
      FieldsFollowShownColumns(columns[..|columns| - 1], isUsersTable, entry, formType);
    }
  }

  /**
   * Exactly the columns that are not hidden are shown: never `id`, and on
   * "add" neither auto-increment columns nor `created_at`.
   */
  lemma {:induction false} ShownColumnsAreTheVisibleOnes(columns: seq<ColumnMeta>, formType: string)
    ensures forall c :: c in ShownColumns(columns, formType) <==> c in columns && !IsHiddenField(c, formType)
    decreases |columns|
  {
    if columns != [] {
      var init := columns[..|columns| - 1];
      ShownColumnsAreTheVisibleOnes(init, formType);
      assert columns == init + [columns[|columns| - 1]];
    }
  }

  /** On "edit" of `users` the password field is a password input that starts empty, whatever its column type. */
  lemma {:induction false} PasswordFieldStartsEmpty(c: ColumnMeta, entry: map<string, string>)
    requires c.field == "password"
    ensures FieldInputType(c, true, "edit") == PasswordInput && FieldValue(c, true, entry, "edit") == ""
  {
  }

  /**
   * The order of the chain: TINYINT(1) is a checkbox although it contains INT,
   * and `users.role` becomes a select only when its type is neither DATE nor
   * BOOLEAN/TINYINT(1) nor contains INT.
   */
  lemma {:induction false} InputTypePriorities(c: ColumnMeta, isUsersTable: bool, formType: string)
    ensures ToUpper(c.colType) == "TINYINT(1)" && !(isUsersTable && c.field == "password" && formType == "edit") ==>
      Contains(ToUpper(c.colType), "INT") && FieldInputType(c, isUsersTable, formType) == CheckboxInput
    ensures FieldInputType(c, isUsersTable, formType) == SelectInput <==>
      isUsersTable && c.field == "role" && !Contains(ToUpper(c.colType), "INT")
        && ToUpper(c.colType) !in {"DATE", "BOOLEAN", "TINYINT(1)"}
  {
    if ToUpper(c.colType) == "TINYINT(1)" {
      assert OccursAt("TINYINT(1)", "INT", 4);
    }
  }
}
