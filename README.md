# RustDB command engine and search tree, in Dafny

This project models the in-memory core of RustDB, a small SQL-like data manager written in Rust.

- **`DBMS`** holds a map from database name to database and the name chosen by `USE`.
- **`DataBase`** maps table names to tables.
- **`Table`** keeps three things:
  - a header of column definitions (`INT`, `FLOAT`, `CHAR(n)`, `VARCHAR(n)`);
  - one typed column vector per definition;
  - a row count.
- **`DBMS::run`** dispatches one parsed command at a time. It either changes the catalogue itself (`CREATE DATABASE`, `DROP DATABASE`, `USE`, `;`) or finds the database in use and hands the command to it. The database then finds the table and calls `Table::new`, `insert`, `select` or `alter`.
- **Outcomes.** Every outcome is `Ok(Some(message))`, `Ok(None)` or `Err(message)`. The model keeps every message string exactly as the code writes it.

The repository also holds `RedBlackBST`, an unbalanced binary search tree keyed by `u32`. Its colours and parent links are never read. The model covers its `new`, `size`, `insert` and `get`.

## Files

- **`common.dfy`** (`Common`):
  - `Option` and `Result`;
  - the `u32` and `i64` widths;
  - Rust's decimal `{}` rendering of integers;
  - `str::parse::<i64>`, with a proof that the two are inverse on 64-bit values.
- **`tables.dfy`** (`Tables`):
  - `SQLHeaderDef`, `SQLColumn` and `Table` as datatypes;
  - the table operations as methods with the source's loops;
  - each method proved equal to a specification function: `EmptyTable`, `Inserted`, `Selected`, `Altered`.
- **`table_props.dfy`** (`TableProperties`): what those functions mean.
  - Which columns an insert touches.
  - When a select panics.
  - The exact text layout of `select *`.
  - What the projected header contains.
  - A worked example.
- **`databases.dfy`** (`Databases`): `DataBase` and its by-name operations.
- **`engine.dfy`** (`Engine`):
  - the parsed `Command` as a closed datatype;
  - `DBMS` as the class `Dbms`, with `Run`.
- **`btree.dfy`** (`BinaryTree`):
  - the tree as a datatype, with `Node::get` and `Node::insert` as recursive functions;
  - `RedBlackBST` as the class `RedBlackBst`.

### Panics

The insert and select panics are `None` in the specification functions:

- `Push` returns `None` when an `INT` column at the counter gets a literal that does not parse as an `i64`, and when the counter has passed the last column. That includes the second `get_mut` after a float literal has filled the last column as an `INT` (src/db.rs:529).
- `StarCells` and `ListCells` return `None` when a column has no value at the row.
- `Selected` returns `None` on the `usize` underflow of `len - 1`.

Insert and select on a table require the panic-free case (`CanInsert`, `Selected(...).Some?`), and so do the `Databases` operations and `Run` that call them. For these panics the specification functions state exactly when they happen. Two other panics are not modelled (see "## Left out"): the `parse::<u32>` of a column size and the `parse::<f64>` of a float literal.

### Where the code differs from a conventional SQL engine

The model follows the code in each case.

- **`ALTER TABLE … ADD`** appends header entries only. No column vector is added and no row is back-filled (src/db.rs:651-690).
  - After an alter, `|data| <= |header|`, not `==`.
  - An action other than ADD is reported as `Table {name} not modified`.
- **`INSERT`** has no arity check and no type-mismatch error (src/db.rs:516-553).
  - A literal of the wrong kind for the column at the counter is skipped.
  - An integer literal whose column at the counter is `INT` panics when it does not parse as an `i64`. For a column of another kind it is skipped without being parsed (src/db.rs:540-545).
  - Any literal that arrives after the counter has passed the last column panics on `get_mut(i).unwrap()`.
  - `len` always grows by one, so columns can be shorter than `len`. The invariant kept is `length <= len` (`Tables.WellFormed`), not equality.
  - A `FLOAT` literal is first offered to an `INT` column and then to a `FLOAT` column at the advanced counter (src/db.rs:524-532).
  - On an `INT` column such a literal panics unless its text parses as an `i64`, as `parse::<i64>` rejects a decimal point. If it parses, it is pushed as an integer.
- **`SELECT`** has no WHERE clause and no unknown-column error (src/db.rs:556-648).
  - It renders rows `0..len - 1` (exclusive), so the last row is never shown.
  - On an empty table it panics.
  - The projected select writes no `INT` value at all and abandons a row (leaving its partial text) when one of the row's `INT` values is `2`.
- **`UPDATE` and `DELETE`** on a missing table report "Failed to insert into table …".
- **`DROP DATABASE`** never clears the name in use. Later table commands then report "Database … was deleted".

## Model

In the table, a "bar separator" is the text " | " (space, vertical bar, space) that `select` writes after each value.

| member | source | states |
|---|---|---|
| `Common.ParseIntToString` | src/db.rs:541-542 | a 64-bit value rendered with `{}` parses back with `parse::<i64>` to itself |
| `Tables.EmptyTable` | src/db.rs:399-452 | the table `Table::new` builds is well formed with `len == 0`: one header entry per definition in order, and one empty column per definition of the matching kind (`CHAR`/`VARCHAR` to a string column, `FLOAT` to a float column, `INT` to an integer column) |
| `Tables.New` | src/db.rs:399-452 | the table the loop over the definitions builds is exactly `EmptyTable(defs)` |
| `Tables.Insert` | src/db.rs:516-554 | the loop over the literals leaves the table `Inserted(t, vals)`, and the message is always "1 new record inserted" |
| `TableProperties.PushShape` | src/db.rs:519-551 | one literal is pushed to the column at the counter, which then advances by one per push; no other column changes and each changed column gains exactly one value of its own kind |
| `TableProperties.InsertRowShape` | src/db.rs:519-551 | over a whole row, the columns before the start and after the final counter are unchanged, and each column in between gains exactly one value |
| `TableProperties.InsertedShape` | src/db.rs:516-553 | an insert keeps the header, adds exactly 1 to `len`, and touches only the columns the counter passed, each gaining one value |
| `TableProperties.InsertPreservesWellFormed` | src/db.rs:516-553 | an insert keeps columns in step with the header kinds and no longer than `len` |
| `TableProperties.InsertFittingRow` | src/db.rs:519-551 | literals that each fit their column are all accepted, and each such column gains its literal's value while the rest keep theirs |
| `TableProperties.InsertFitting` | src/db.rs:516-553 | a row with one fitting literal per column never panics and appends each literal's value to its own column |
| `Tables.WriteHeader` | src/db.rs:559-623 | the header loops write `HeaderText(header, sel)`: one segment per entry in header order, for a list only the listed names |
| `Tables.WriteStarRows` | src/db.rs:576-587 | the nested row loops of `select *` write the text `Rows` defines |
| `Tables.WriteListRows` | src/db.rs:624-641 | the nested row loops of the projected select, including the abandoned-row `continue 'outer`, write the text `Rows` defines |
| `Tables.Select` | src/db.rs:556-648 | the whole select returns `Ok(Some(text))` with the text `Selected(t, sel)` specifies |
| `TableProperties.StarCellsDefined` | src/db.rs:580-586 | the cells of row i can be written exactly when every remaining column has a value at i |
| `TableProperties.StarRowsDefined` | src/db.rs:576-587 | the `select *` rows up to n can be written exactly when every column has at least n values (or no row is due) |
| `TableProperties.SelectStarDefined` | src/db.rs:576-587 | `select *` avoids a panic exactly when the table has a row and every column holds at least `len - 1` values |
| `TableProperties.StarHeaderIsBars` | src/db.rs:560-575 | the `select *` header is the header fields in header order, each followed by a bar separator |
| `TableProperties.SegmentIsField` | src/db.rs:562-573 | each header segment is "name int", "name char(n)", "name float" or "name varchar(n)" followed by a bar separator |
| `TableProperties.StarCellsAreBars` | src/db.rs:580-586 | one row's cells are its values in column order, each followed by a bar separator |
| `TableProperties.StarRowStep` | src/db.rs:577-586 | one row: the two pops take back the last bar separator, then a newline and the values joined by bar separators |
| `TableProperties.StarRowsLayout` | src/db.rs:576-587 | the rows from i up to n are laid out as `RowLines`, one line per row |
| `TableProperties.SelectStarLayout` | src/db.rs:556-648 | `select *` is the header fields joined by bar separators, then one line per row `0..len - 1` of its values joined by bar separators; the last row is never shown |
| `TableProperties.SelectOneRow` | src/db.rs:576 | with one row, any select shows the header and no data row |
| `TableProperties.ProjectedMembers` | src/db.rs:600-623 | a header entry is in the projection exactly when it is in the header and its name is listed |
| `TableProperties.ProjectedHeader` | src/db.rs:600-623 | the projected header is the `select *` header of the listed entries, in header order rather than list order |
| `TableProperties.ProjectionIgnoresListOrder` | src/db.rs:591-623 | the projected header depends only on which names are listed, not on their order or repetitions |
| `TableProperties.SelectSkipsLastRow` | src/db.rs:576 | two rows inserted into a fresh (INT, CHAR(5)) table, then `select *`, show the header and the first row only |
| `Tables.Altered` | src/db.rs:651-690 | ADD appends one header entry per definition, in order, and changes neither `data` nor `len`; any other action changes nothing; well-formedness is kept |
| `Tables.Alter` | src/db.rs:651-693 | the loop over the definitions leaves the table `Altered(t, a)`; the result is `Ok(Some("Table {} modified."))` for ADD and `Err("Table {} not modified")` otherwise |
| `Databases.NewDatabase` | src/db.rs:285-289 | a new database has no tables |
| `Databases.Create` | src/db.rs:361-370 | an existing table name is refused with "already exists" and nothing changes; otherwise exactly that name is bound to `EmptyTable(defs)`; validity is kept |
| `Databases.Drop` | src/db.rs:313-321 | a present table is removed with "Table … deleted."; a missing one is an error and nothing changes |
| `Databases.Insert` | src/db.rs:324-332 | a present table becomes `Inserted(t, vals)`; a missing one is an "as it does not exist." error and nothing changes; validity is kept |
| `Databases.Alter` | src/db.rs:335-346 | the table becomes `Altered(t, a)`, reported as "Table {name} modified" or "Table {name} not modified"; a missing table says it does not exist |
| `Databases.Select` | src/db.rs:349-358 | a present table returns the text `Selected` specifies; a missing one is "Failed to query … as it does not exist" |
| `Databases.Update` | src/db.rs:292-300 | on a missing table: the "Failed to insert into table … as it does not exist." error |
| `Databases.Delete` | src/db.rs:302-310 | on a missing table: the same "Failed to insert into table …" error |
| `Engine.Dbms.constructor` | src/db.rs:30-38 | `DBMS::new(None)` has no databases and none in use |
| `Engine.Dbms.Run` | src/db.rs:112-260 | CREATE DATABASE refuses an existing name and otherwise adds exactly that name with an empty database. DROP DATABASE removes a present name and leaves the one in use untouched. USE switches only to an existing database. `;` changes nothing. A table command errors and changes nothing when no database is in use ("No database supplied") or the one in use is missing ("Database … was deleted"), with each branch's own full stop; otherwise it changes only the database in use, as `TableEffect` says. Validity is kept |
| `Engine.Dbms.RunOn` | src/db.rs:126-256 | a table command handed to the database in use changes that database only, by the `DataBase` operation of its kind |
| `Engine.DropDatabaseInUse` | src/db.rs:156-212 | after CREATE, USE and DROP of the database in use, a select reports "!Database shop was deleted" |
| `BinaryTree.NewNode` | src/btree.rs:54-63 | a new node is an ordered tree holding exactly its key and value |
| `BinaryTree.NodeInsert` | src/btree.rs:75-89 | a refused insert says "Key already present"; a successful one keeps the root and adds exactly the new key |
| `BinaryTree.NodeGetFinds` | src/btree.rs:64-73 | on an ordered tree `get` returns the value stored under the key, and "Key: not found" exactly when the key is not stored |
| `BinaryTree.NodeInsertSpec` | src/btree.rs:75-89 | on an ordered tree `insert` is refused exactly for a key already stored; otherwise the tree stays ordered (smaller keys left, larger right) and maps the key to the value, every other key as before |
| `BinaryTree.GetAfterInsert` | src/btree.rs:64-89 | after a successful `insert(k, v)`, `get(k)` returns v |
| `BinaryTree.GetOtherKeyAfterInsert` | src/btree.rs:64-89 | after a successful insert, `get` of every other key returns what it returned before |
| `BinaryTree.RedBlackBst.constructor` | src/btree.rs:15-20 | a new tree has no head and size 0 |
| `BinaryTree.RedBlackBst.Size` | src/btree.rs:21-23 | `size` is the number of keys stored |
| `BinaryTree.RedBlackBst.Get` | src/btree.rs:36-41 | an empty tree answers "Tree is empty"; otherwise the stored value or "Key: not found" |
| `BinaryTree.RedBlackBst.Insert` | src/btree.rs:24-35 | an insert succeeds exactly for a new key, then maps it to the value and adds 1 to `size`; a duplicate leaves the tree and `size` unchanged with "Key already present"; order and `size == number of keys` are kept |

## Left out

- **Inputs and I/O.**
  - The command-line entry point and its argument parsing (src/main.rs) are I/O wiring.
  - `DBMS::interactive` and `DBMS::sql_from_file` (src/db.rs:55-108) are stdin/stdout and file loops.
- **Persistence.** `DBMS::save` and the `Some(path)` branch of `DBMS::new` (src/db.rs:39-50, 263-273) are serde_json file I/O. Only `DBMS::new(None)` is modelled.
- **`.EXIT`** calls `process::exit` (src/db.rs:192-194). It ends the process and is not in the closed `Command` datatype.
- **The pest grammar and parser** produce the parsed command that `Command` stands for. The model therefore omits:
  - the "unknown parsing error" branches;
  - the "parsed but could not be ran" branch;
  - the `_ => ()` arms for rules the grammar never produces.
- **Parsing column sizes.** `Table::new` and `Table::alter` parse a `CHAR(n)`/`VARCHAR(n)` size with `parse::<u32>().unwrap()` (src/db.rs:414, 422, 663, 670). A CREATE TABLE or ALTER with a size of 2^32 or more therefore panics there. `ColumnType` already holds each size as a `u32`, so this panic is not modelled.
- **Floats.** `f64` values are kept as their literal text, and two things are left out:
  - the normalisation that f64's `{}` rendering applies (`1.50` is shown as `1.5`);
  - the `parse::<f64>()` panic on text the grammar would not produce as a float literal.
- **`Databases.Update`** does not model the bodies of `Table::update` and `Table::delete` (src/db.rs:454-514). They hardcode column indices, row positions and literal values for one fixture and have no general behaviour to state. The requires `name !in db.tables` limits it to the not-found branch.
- **`Databases.Delete`** likewise covers only the not-found branch, for the same reason.
- **`Engine.Dbms.Run`** requires `Runnable(cmd)`. This excludes UPDATE and DELETE on an existing table for the same reason, and the inserts and selects that panic.
- **`BinaryTree.RedBlackBst.Insert`** keeps `size` as an unbounded count. It does not model the `u32` overflow of `size += 1` that would come with the 2^32nd distinct key.
- **Values, not references.** Nodes, tables and databases are values, and an insert rebuilds the search path instead of writing through `&mut`. Each is owned by exactly one parent, so no aliasing is lost. The parent link that `Node::insert` builds with `Box::new(self)` in an `unsafe` block is not modelled, and neither is the unused `Color`.
- **`len - 1` in release builds.** The underflow on an empty table is taken as the panic of a debug build.
  - In a release build the range wraps. With at least one data column, the first row's `val.get(0).unwrap()` on an empty column panics too (src/db.rs:582), just as the model says.
  - Only for a table with no data columns would a release build run a loop of about 2^64 rows writing newlines. That loop is not modelled.
