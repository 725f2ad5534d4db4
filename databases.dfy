/** `DataBase`: a map from table name to table. Each command looks the table up by name and
    either reports that it is missing or hands the work to the table. As with `Table`, the
    database is a value owned by its parent map, so each operation takes the database and
    returns the new one beside its outcome. */
module Databases {
  import opened Common
  import opened Tables
  import TableProperties

  datatype Database = Database(tables: map<string, Table>)

  /** Every table of the database is well formed. */
  predicate Valid(db: Database)
  {
    forall name :: name in db.tables ==> WellFormed(db.tables[name])
  }

  /** `DataBase::new`: no tables. */
  function NewDatabase(): (db: Database)
    ensures db.tables == map[]
    ensures Valid(db)
  {
    Database(map[])
  }

  /** `DataBase::create`: a name already in use is refused and nothing changes; otherwise the
      name is bound to a fresh empty table built from the definitions. */
  method Create(db: Database, name: string, defs: seq<ColumnDef>) returns (db': Database, r: Outcome)
    ensures name in db.tables ==>
              db' == db && r == Err("!Failed to create table " + name + " because it already exists.")
    ensures name !in db.tables ==>
              db'.tables == db.tables[name := EmptyTable(defs)] && r == Ok(Some("Table " + name + " created."))
    ensures Valid(db) ==> Valid(db')
  {
    if name in db.tables {
      db' := db;
      r := Err("!Failed to create table " + name + " because it already exists.");
    } else {
      var t := New(defs);
      db' := db.(tables := db.tables[name := t]);
      r := Ok(Some("Table " + name + " created."));
    }
  }

  /** `DataBase::drop`: a present table is removed, a missing one is an error. */
  method Drop(db: Database, name: string) returns (db': Database, r: Outcome)
    ensures name in db.tables ==>
              db'.tables == db.tables - {name} && r == Ok(Some("Table " + name + " deleted."))
    ensures name !in db.tables ==>
              db' == db && r == Err("!Failed to delete " + name + " because it does not exist")
    ensures Valid(db) ==> Valid(db')
  {
    if name in db.tables {
      db' := db.(tables := db.tables - {name});
      r := Ok(Some("Table " + name + " deleted."));
    } else {
      db' := db;
      r := Err("!Failed to delete " + name + " because it does not exist");
    }
  }

  /** `DataBase::insert`. The row must be one the table accepts without panicking. */
  method Insert(db: Database, name: string, vals: seq<Literal>) returns (db': Database, r: Outcome)
    requires name in db.tables ==> CanInsert(db.tables[name], vals)
    ensures name in db.tables ==>
              db'.tables == db.tables[name := Inserted(db.tables[name], vals)]
              && r == Ok(Some("1 new record inserted"))
    ensures name !in db.tables ==>
              db' == db && r == Err("!Failed to insert into table " + name + " as it does not exist.")
    ensures Valid(db) ==> Valid(db')
  {
    if name in db.tables {
      var t;
      t, r := Tables.Insert(db.tables[name], vals);
      if Valid(db) {
        TableProperties.InsertPreservesWellFormed(db.tables[name], vals);
      }
      db' := db.(tables := db.tables[name := t]);
    } else {
      db' := db;
      r := Err("!Failed to insert into table " + name + " as it does not exist.");
    }
  }

  /** `DataBase::alter`: the table's own message is replaced by one naming the table. An
      action other than ADD leaves the table as it was and is reported as an error. */
  method Alter(db: Database, name: string, a: Alteration) returns (db': Database, r: Outcome)
    ensures name in db.tables ==> db'.tables == db.tables[name := Altered(db.tables[name], a)]
    ensures name in db.tables && a.Add? ==> r == Ok(Some("Table " + name + " modified"))
    ensures name in db.tables && !a.Add? ==> db' == db && r == Err("Table " + name + " not modified")
    ensures name !in db.tables ==>
              db' == db && r == Err("!Failed to modify table " + name + " as it does not exist")
    ensures Valid(db) ==> Valid(db')
  {
    if name in db.tables {
      var t, res := Tables.Alter(db.tables[name], a);
      db' := db.(tables := db.tables[name := t]);
      if res.Ok? {
        r := Ok(Some("Table " + name + " modified"));
      } else {
        assert db'.tables == db.tables;
        r := Err("Table " + name + " not modified");
      }
    } else {
      db' := db;
      r := Err("!Failed to modify table " + name + " as it does not exist");
    }
  }

  /** `DataBase::select`: reads only. The query must be one that does not panic. */
  method Select(db: Database, sel: Selection, name: string) returns (r: Outcome)
    requires name in db.tables ==> Selected(db.tables[name], sel).Some?
    ensures name in db.tables ==> r == Ok(Some(Selected(db.tables[name], sel).value))
    ensures name !in db.tables ==> r == Err("!Failed to query " + name + " as it does not exist")
  {
    if name in db.tables {
      r := Tables.Select(db.tables[name], sel);
    } else {
      r := Err("!Failed to query " + name + " as it does not exist");
    }
  }

  /** `DataBase::update` on a table that does not exist (the message says "insert", as the
      code does). */
  method Update(db: Database, name: string) returns (r: Outcome)
    requires name !in db.tables
    ensures r == Err("!Failed to insert into table " + name + " as it does not exist.")
  {
    r := Err("!Failed to insert into table " + name + " as it does not exist.");
  }

  /** `DataBase::delete` on a table that does not exist (the message says "insert", as the
      code does). */
  method Delete(db: Database, name: string) returns (r: Outcome)
    requires name !in db.tables
    ensures r == Err("!Failed to insert into table " + name + " as it does not exist.")
  {
    r := Err("!Failed to insert into table " + name + " as it does not exist.");
  }
}
