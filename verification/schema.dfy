/**
 * What the pages receive from the database and hand back to it: the rows of
 * `DESCRIBE <table>` and the values bound to `?` placeholders.
 */
module Schema {
  import opened Wrappers
  import opened PhpText

  /** One row of `DESCRIBE <table>`: its Field, Type, Null ("YES" or "NO") and Extra columns. */
  datatype ColumnMeta = ColumnMeta(field: string, colType: string, nullable: string, extra: string)

  /**
   * A value bound to a placeholder. PasswordHash(p) stands for password_hash(p),
   * which is left uninterpreted.
   */
  datatype SqlValue = Null | Int(i: int) | Text(s: string) | PasswordHash(plain: string)

  /** The `type` attribute a form input gets. */
  datatype InputType =
    | TextInput
    | DateInput
    | DatetimeLocalInput
    | NumberInput
    | CheckboxInput
    | PasswordInput
    | SelectInput

  /** strpos(strtolower($colMeta['Extra']), 'auto_increment') !== false */
  predicate IsAutoIncrement(c: ColumnMeta) {
    Contains(ToLower(c.extra), "auto_increment")
  }

  /** `$_POST['data'][$field]`: absent when there is no data array or no such key. */
  function Submitted(data: Option<map<string, string>>, field: string): Option<string> {
    if data.Some? && field in data.value then Some(data.value[field]) else None
  }
}
