# Verified model of a small MySQL administration app

The application is a PHP web front end that lets a user create MySQL tables,
list them, and add or edit rows of tables whose schema it discovers at run
time with `DESCRIBE`. A companion Python script loads a table interactively
from typed lines. All of its interesting logic is SQL text built from user
input and column metadata. This project models that logic in Dafny and proves
what the code promises about it:

- **Name validation** (`Names`): the three `is_valid_name` variants, including
  the PCRE quirk that `$` also matches before one final newline.
- **Create table** (`CreateTable`): the handler in `php_app/index.php`. It trims
  and validates the table name, walks the submitted column rows (skipping blank
  rows and stopping at the first invalid one), promotes an `id` INT column to an
  auto-increment primary key, and builds the `CREATE TABLE` statement.
- **Show table / add entry** (`DisplayTable`): table selection and the existence
  check in `php_app/display_table.php`, the INSERT builder over the `DESCRIBE`
  rows, and the input type of the add form.
- **Edit entry** (`EditEntry`): request validation in `php_app/edit-entry.php`,
  the UPDATE builder (a missing checkbox means 0), and the edit form's input type.
- **Shared helpers** (`FormFunctions`): `buildSqlParts` and the per-column
  decisions of `render_form_fields` in `php_app/include/functions.php`.
- **Python loader** (`UpdateDb`): in `python_updater_app/update_db.py`, the
  column-list parsing, the row loop, and the DROP/CREATE/INSERT statements.

Supporting modules:
- `PhpText` gives PHP 8.2 string semantics: ASCII-only case mapping, `strpos`,
  `trim`, `empty`, `implode`, backtick escaping, `is_numeric`, and the true set
  of `FILTER_VALIDATE_BOOLEAN`.
- `Schema` holds the `DESCRIBE` row and the bound SQL values.
- `Wrappers` holds `Option`.
- `SeqLemmas` holds one sequence fact.

Database access is not modelled. Each builder receives the `DESCRIBE` answer
and the posted data as parameters. It returns the statement and the values it
would bind, instead of executing them. The loops of the source are methods
with loop invariants. Each method is proved equal to a specification function
over the whole input, and the lemmas state what that function means.

## Model

| member | source | states |
|---|---|---|
| Names.ConfigRejects | php_app/db_config.php:39-42 | the validator used by edit-entry rejects "", names over 64 bytes and names with any character outside [A-Za-z0-9_] (the single final newline excepted) |
| Names.ConfigAcceptsWords | php_app/db_config.php:41 | every name of 1 to 64 characters from [A-Za-z0-9_] is accepted, even with a leading digit |
| Names.ConfigAcceptsFinalNewline | php_app/db_config.php:41 | "abc\n" is accepted, because `$` without the D modifier matches before a final newline |
| Names.IndexAgreesWithConfig | php_app/index.php:30-32 | index.php's variant without the `!== ''` test accepts exactly the same names as db_config.php's |
| Names.TrimmedNameValidation | php_app/index.php:36-39 | after trim a name passes exactly when it is 1 to 64 word characters, so the newline quirk cannot occur there |
| Names.StrictRejects | php_app/include/db_config.php:33-36 | the strict variant rejects "", a leading digit, and anything over 64 characters except 64 followed by the final newline |
| Names.StrictAcceptsIdentifiers | php_app/include/db_config.php:35 | a letter or underscore followed by 0 to 63 word characters is accepted |
| Names.StrictWithinConfig | php_app/include/db_config.php:35 | without a final newline, every strictly valid name is valid for db_config.php |
| Names.StrictNotWithinConfig | php_app/include/db_config.php:35 | with the final newline the inclusion fails: 64 letters plus "\n" pass the strict check but not db_config.php's length test |
| Names.ValidNamesNeedNoEscaping | php_app/db_config.php:41 | an accepted name holds no backtick, so splicing it unescaped equals splicing it escaped |
| PhpText.QuotedNameReadsBack | php_app/index.php:73 | for every name, "`" + str_replace("`","``",name) + "`" reads back in MySQL as exactly that name, with the rest of the statement untouched |
| PhpText.DigitStringsAreNumeric | php_app/edit-entry.php:12 | a string of decimal digits is numeric exactly when it is non-empty |
| CreateTable.HandleCreateTable | php_app/index.php:35-84 | the handler's outcome (invalid table name, the first invalid column, no valid columns, or the CREATE statement with the primary-key flag) equals CreateTableResult over the whole row list |
| CreateTable.ScanColumnRows | php_app/index.php:44-67 | the loop's error is the first rejected row's error; without one, the definitions are those of the accepted rows in order, and the pk flag says whether one of them is the `id` primary key; after an error the list is cleared |
| CreateTable.JudgeMeaning | php_app/index.php:45-65 | a row is skipped iff its trimmed name or its type is empty; it is rejected iff otherwise its name is invalid or its type is not in the list; the name is checked first; the pk flag is set iff the name is `id` in any letter case and the type is exactly INT |
| CreateTable.AcceptedRowDefinition | php_app/index.php:60-65 | an accepted row's definition is its backticked name followed by `INT PRIMARY KEY AUTO_INCREMENT` for the id/INT row, else by its type |
| CreateTable.RejectedRowStopsScan | php_app/index.php:48-57 | once a row is rejected, no later row changes the error |
| CreateTable.FirstInvalidRowDecides | php_app/index.php:48-57 | with a valid table name, the first non-blank invalid row decides the outcome: its bad name, or else its bad type |
| CreateTable.BlankRowIsSkipped | php_app/index.php:45-47 | removing a blank row never changes the outcome |
| CreateTable.NoValidColumnsIffAllBlank | php_app/index.php:69-70 | with a valid table name, the outcome is "no valid columns" iff every row is blank |
| CreateTable.CreatedTablesAreValid | php_app/index.php:39-73 | a created table has a valid name, every non-blank row valid, at least one non-blank row, and the pk flag iff some row is the id/INT row |
| CreateTable.DefinitionsInSubmissionOrder | php_app/index.php:44-67 | the definitions of two consecutive row lists are concatenated in order |
| CreateTable.CreateSqlNamesTable | php_app/index.php:73 | the text after "CREATE TABLE `" reads back as exactly the table name, followed by the column list and the engine clause |
| DisplayTable.SelectTable | php_app/display_table.php:18-54 | a missing or empty name gives "no table chosen"; a name failing the pattern gives "bad format"; a connection failure keeps the name but reports the error; a failed table listing or an unlisted name unsets it; otherwise the name is selected |
| DisplayTable.SelectedTableExists | php_app/display_table.php:18-54 | a table is selected without error iff the name is non-empty, matches the pattern, the connection works and SHOW TABLES lists it; such a name is non-empty and holds no backtick |
| DisplayTable.BuildInsert | php_app/display_table.php:57-95 | the add-entry block's outcome (the INSERT with columns, placeholders and bound values; the "more data" error; or the fatal error) equals InsertResult |
| DisplayTable.CollectInsertParts | php_app/display_table.php:67-86 | the loop aborts exactly when some column reaches array_key_exists without a data array; otherwise its three lists are the columns, placeholders and values of the per-column cells |
| DisplayTable.CellMeaning | php_app/display_table.php:70-85 | with a data array, a column enters the INSERT iff it was submitted and is not an auto-increment column left empty; it then gets a placeholder but no bound value iff its value is "", its type contains int, decimal, float or double, and it is NOT NULL; its name is backtick-escaped |
| DisplayTable.CellCoercion | php_app/display_table.php:70-83 | auto-increment columns left empty or missing, and columns not submitted, are skipped; a boolean column binds 1 or 0 by FILTER_VALIDATE_BOOLEAN; other columns bind NULL for "" and the string otherwise |
| DisplayTable.ColumnsAreIncludedFields | php_app/display_table.php:67-86 | the column list is exactly the escaped names of the included columns, in DESCRIBE order, and the loop does not abort |
| DisplayTable.ValuesAreBoundValues | php_app/display_table.php:67-86 | the values the loop binds are exactly the coerced values of the included, not unbound, columns, in DESCRIBE order |
| DisplayTable.ListsAligned | php_app/display_table.php:75-84 | one placeholder "?" per column; the bound values fall short of the columns by exactly the number of unbound columns |
| DisplayTable.InsertOutcomeMeaning | php_app/display_table.php:88-95 | with a data array, the outcome is "more data" iff no column is included; otherwise its columns are the escaped included fields, one placeholder "?" each, its bound values are exactly BoundValues (the coerced value of every included column that is not unbound, in DESCRIBE order), and its SQL is the INSERT of those columns |
| DisplayTable.NoDataAbortsUnlessAllAutoIncrement | php_app/display_table.php:70-74 | without a data array the script dies iff some column is not auto-increment, and otherwise reports "more data" |
| DisplayTable.ColumnsInDescribeOrder | php_app/display_table.php:67-86 | columns and values of two consecutive DESCRIBE parts are concatenated in order |
| DisplayTable.InsertNamesTable | php_app/display_table.php:89 | the text after "INSERT INTO `" reads back as exactly the selected table name |
| DisplayTable.AddFormInputType | php_app/display_table.php:183-188 | the lowered type gives checkbox for boolean/tinyint(1), else number for int/decimal, else datetime-local for datetime/timestamp, else date for date, else text; a column typed exactly timestamp gets datetime-local |
| DisplayTable.OverriddenRulesAlsoMatch | php_app/display_table.php:185-188 | tinyint(1) also matches the int rule and datetime also matches date, which is why the later ifs must win |
| EditEntry.AcceptedRequestIsSafe | php_app/edit-entry.php:12-14 | an accepted request has a 1 to 64 character table name without backticks, so the unescaped splice is sound, and a non-empty id |
| EditEntry.RequestAcceptance | php_app/edit-entry.php:12-14 | a missing table name or id is refused; a valid name with a digit-string id is accepted iff the id is non-empty |
| EditEntry.LooseIdsPass | php_app/edit-entry.php:12 | the id check is is_numeric: with a valid table name, the ids "1e3", " 12", "-1" and "1.5" are accepted and "0x1A" and "1 2" refused |
| EditEntry.BuildUpdate | php_app/edit-entry.php:17-54 | the update block's outcome (the UPDATE with its SET parts and values, the id last, or "no data") equals UpdateResult |
| EditEntry.UpdateCoercion | php_app/edit-entry.php:28-43 | a column is assigned iff it is not exactly `id` and it was submitted or is boolean; a boolean binds 1 if submitted and 0 if not; any other column binds NULL for "" and the string otherwise |
| EditEntry.SetPartsAreAssignedFields | php_app/edit-entry.php:25-44 | the SET parts are "`f` = ?" for the assigned columns in DESCRIBE order, with one value per part |
| EditEntry.SetPartsInDescribeOrder | php_app/edit-entry.php:25-44 | the SET parts and values of two consecutive DESCRIBE parts are concatenated in order |
| EditEntry.SetValuesAreAssignedValues | php_app/edit-entry.php:25-44 | the values the loop binds are exactly the assigned columns' values in DESCRIBE order: 1 or 0 for a boolean by whether it was submitted, NULL for "", else the submitted string |
| EditEntry.IdIsNeverAssigned | php_app/edit-entry.php:28 | the column `id` is never assigned |
| EditEntry.UpdateOutcomeMeaning | php_app/edit-entry.php:46-54 | "no data" iff no column is assigned; otherwise the SET list has no `id` part, the bound values are exactly AssignedValues (each assigned column's value, in DESCRIBE order) followed by the entry id, and the SQL is the UPDATE of those parts |
| EditEntry.BooleansAlwaysAssigned | php_app/edit-entry.php:34-43 | every boolean column other than `id` is assigned, whether or not its checkbox was submitted |
| EditEntry.EditFormInputType | php_app/edit-entry.php:120-128 | the first matching branch decides: a DATETIME column gets a date input; a TINYINT(1) type also contains INT yet never gets a number input, and gets a checkbox iff it does not contain DATE; a number input is given iff the type contains INT and none of DATE, BOOL, TINYINT(1); a column typed exactly TIMESTAMP is edited as text, where the add form gives datetime-local |
| FormFunctions.BuildSqlParts | php_app/include/functions.php:12-42 | the three lists equal the columns, values and placeholders of the per-column cells, in DESCRIBE order |
| FormFunctions.PartCellMeaning | php_app/include/functions.php:20-38 | a column is included iff it is not `id` in any letter case, it was posted, and it is not an empty users.password on update; it then binds the stored value |
| FormFunctions.PartsFollowKeptColumns | php_app/include/functions.php:18-40 | entry k of the lists is the k-th included column in backticks, its stored value (the hash for users.password, NULL for "", else the string) and "?" |
| FormFunctions.KeptColumnsAreExactlyTheKeptOnes | php_app/include/functions.php:20-24 | a DESCRIBE row is among the included columns iff it passes the inclusion rules |
| FormFunctions.KeptColumnsInOrder | php_app/include/functions.php:18-40 | the included columns of two consecutive DESCRIBE parts are concatenated in order |
| FormFunctions.PasswordIsAlwaysHashed | php_app/include/functions.php:29-33 | for `users`, whatever is bound for `password` is the hash of the posted value, never the value itself |
| FormFunctions.EmptyPasswordIsNotUpdated | php_app/include/functions.php:30-32 | on update of `users`, an empty password ("" or "0") is left out, so the stored hash stays |
| FormFunctions.ModesDifferOnlyForEmptyPassword | php_app/include/functions.php:20-32 | insert and update mode give the same cells unless an empty users.password was posted |
| FormFunctions.RenderFormFields | php_app/include/functions.php:53-82 | the fields rendered (name, input type, initial value) equal FieldsOf over the columns |
| FormFunctions.FieldsFollowShownColumns | php_app/include/functions.php:54-82 | field k is the field of the k-th shown column |
| FormFunctions.ShownColumnsAreTheVisibleOnes | php_app/include/functions.php:58-61 | a column is shown iff it is not `id` in any letter case and, on "add", it is neither auto-increment nor `created_at` |
| FormFunctions.PasswordFieldStartsEmpty | php_app/include/functions.php:70-73 | on "edit" of `users`, the password field is a password input that starts empty, whatever its type |
| FormFunctions.InputTypePriorities | php_app/include/functions.php:70-82 | TINYINT(1) is a checkbox although it contains INT; users.role is a select iff its type is not DATE, BOOLEAN or TINYINT(1) and does not contain INT |
| UpdateDb.SplitThenJoin | python_updater_app/update_db.py:23 | splitting on a separator loses nothing: joining the pieces again gives back the string |
| UpdateDb.JoinThenSplit | python_updater_app/update_db.py:23 | joining separator-free pieces and splitting again gives back the pieces |
| UpdateDb.ParsedColumnsAreNames | python_updater_app/update_db.py:22-23 | every parsed column is non-empty, has no surrounding whitespace and contains no comma |
| UpdateDb.ColumnListRoundTrip | python_updater_app/update_db.py:22-23 | names of that form written with commas between them are parsed back as exactly those names, in order |
| UpdateDb.RowValuesMeaning | python_updater_app/update_db.py:39 | a row's values are stripped and comma-free, one per comma-separated piece, and the pieces make up the row |
| UpdateDb.CollectRows | python_updater_app/update_db.py:33-44 | the loop's rows equal CollectFrom over the classified input lines, and the row counter is one more than the rows accepted |
| UpdateDb.CollectMeaning | python_updater_app/update_db.py:34-44 | collection ends at the first blank line and keeps, in order, exactly the right-width rows before it; without a blank line the input runs out |
| UpdateDb.LinesAfterBlankAreIgnored | python_updater_app/update_db.py:36-37 | lines after the blank line are never read |
| UpdateDb.ColumnDefsNameTheirColumns | python_updater_app/update_db.py:59 | each column definition reads back as exactly its column name followed by " VARCHAR(255)" |
| UpdateDb.InsertListsAligned | python_updater_app/update_db.py:65-66 | one "%s" per column, and each quoted column reads back as its name |
| UpdateDb.DropNamesTheTable | python_updater_app/update_db.py:56 | with the table name escaped, the DROP names exactly the table entered |
| UpdateDb.CreateNamesTheTable | python_updater_app/update_db.py:60 | with the table name escaped, the CREATE names exactly the table entered |
| UpdateDb.InsertNamesTheTable | python_updater_app/update_db.py:67 | with the table name escaped, the INSERT names exactly the table entered |
| UpdateDb.RunLoader | python_updater_app/update_db.py:11-67 | the run's outcome (missing settings, empty table name, no columns, end of input, or the DROP, CREATE and optional INSERT with the rows) equals LoaderResult, which splices the stripped table name between backticks unescaped |
| UpdateDb.BacktickTableNameDropsTwoTables | python_updater_app/update_db.py:56-61 | as written, the table name "t1`,`t2" gives the complete statement DROP TABLE IF EXISTS `t1`,`t2`, naming two tables, while the CREATE reads `t1` and then a comma where its column list should open |
| UpdateDb.EscapingMattersOnlyForBackticks | python_updater_app/update_db.py:56-67 | for a table name without a backtick, the run as written and the run with the name escaped give the same outcome |
| UpdateDb.EscapedLoaderNamesTheTable | python_updater_app/update_db.py:56-67 | with the table name escaped, the DROP, the CREATE and the INSERT of a finished run each name exactly the table entered, followed by the rest of their text |
| UpdateDb.LoaderOutcomeMeaning | python_updater_app/update_db.py:17-67 | a finished run had complete settings, a non-empty table name and at least one column; every row has one value per column; the INSERT is issued iff there are rows; an empty table name is reported iff the first line strips to "" |

## Left out

- I/O and the database are not modelled: PDO, connections, `SHOW TABLES`,
  `DESCRIBE`, and executing the statements and their failures. The answers are
  parameters and the statements are returned. A failed `DESCRIBE` or INSERT
  ends in an error message that the model does not produce.
- The PHP output is not modelled: the HTML, `htmlspecialchars`, the
  placeholder text, the messages, the `date(strtotime(...))` display
  conversion in edit-entry, the row listing, and the delete handling.
  The JavaScript is also left out.
- Sessions, login and the bootstrap of the `users` table are not part of this model.
- DisplayTable.SelectTable: `in_array` compares loosely, so `"1e1"` would match
  a table named `"10"`. The model compares names exactly.
- `password_hash` is the uninterpreted value `PasswordHash(plain)`. Its salt and
  randomness are not modelled.
- Posted fields whose value is an array, not a string, are not modelled.
- FormFunctions.FieldValue: a NULL database value reads as "". htmlspecialchars
  on the initial value is not modelled.
- UpdateDb: environment variables are a map. `input()` reads from a given
  sequence of lines, and running out of lines is the `InputEnded` outcome
  (EOFError). Prompts and prints are left out.
- Strings are sequences of `char`. For PHP each char stands for one byte; for
  Python, one code point.

## Findings

| source | as written | input that shows it | evidently intended | confidence | as-written member | corrected member |
|---|---|---|---|---|---|---|
| python_updater_app/update_db.py:56-67 | the table name goes between backticks unescaped, while column names are backtick-doubled | table name "t1`,`t2": line 56 runs DROP TABLE IF EXISTS `t1`,`t2` and drops both tables; the CREATE at line 61 is then malformed, and since MySQL commits a DROP TABLE at once the rollback at line 79 does not restore them | escape the table name as the column names are | medium, not executed | UpdateDb.BacktickTableNameDropsTwoTables | UpdateDb.EscapedLoaderNamesTheTable |
