/** `DBMS`: the catalogue of databases by name, the name in `USE`, and `run`, the dispatcher
    that either changes the catalogue itself (CREATE/DROP DATABASE, USE) or resolves the
    database in use and hands the command to it. */
module Engine {
  import opened Common
  import opened Tables
  import opened Databases

  /** A parsed command, as the grammar delivers it to `run`. */
  datatype Command =
    | CreateDatabase(name: string)
    | CreateTable(table: string, defs: seq<ColumnDef>)
    | DropDatabase(name: string)
    | DropTable(table: string)
    | UseDatabase(name: string)
    | InsertInto(table: string, values: seq<Literal>)
    | SelectFrom(selection: Selection, table: string)
    | AlterTable(table: string, alteration: Alteration)
    | UpdateTable(table: string)
    | DeleteFrom(table: string)
    | Semicolon
  {
    /** The commands that need a database in use and act on one of its tables. */
    predicate IsTableCommand()
    {
      !(CreateDatabase? || DropDatabase? || UseDatabase? || Semicolon?)
    }
  }

  /** The error of a table command when no database is in use. DROP TABLE and ALTER end
      their message with a full stop, the others do not. */
  function NoDatabase(cmd: Command): string
  {
    if cmd.DropTable? || cmd.AlterTable? then "!No database supplied." else "!No database supplied"
  }

  /** The error of a table command when the database in use no longer exists. Only ALTER ends
      the message with a full stop. */
  function Deleted(cmd: Command, db: string): string
  {
    if cmd.AlterTable? then "!Database " + db + " was deleted." else "!Database " + db + " was deleted"
  }

  /** What a table command does to the database in use, db, leaving db' and outcome r. */
  ghost predicate TableEffect(cmd: Command, db: Database, db': Database, r: Outcome)
  {
    match cmd
    case CreateTable(t, defs) =>
      if t in db.tables
      then db' == db && r == Err("!Failed to create table " + t + " because it already exists.")
      else db'.tables == db.tables[t := EmptyTable(defs)] && r == Ok(Some("Table " + t + " created."))
    case DropTable(t) =>
      if t in db.tables
      then db'.tables == db.tables - {t} && r == Ok(Some("Table " + t + " deleted."))
      else db' == db && r == Err("!Failed to delete " + t + " because it does not exist")
    case InsertInto(t, vals) =>
      if t in db.tables
      then CanInsert(db.tables[t], vals) && db'.tables == db.tables[t := Inserted(db.tables[t], vals)]
           && r == Ok(Some("1 new record inserted"))
      else db' == db && r == Err("!Failed to insert into table " + t + " as it does not exist.")
    case SelectFrom(sel, t) =>
      db' == db &&
      if t in db.tables
      then Selected(db.tables[t], sel).Some? && r == Ok(Some(Selected(db.tables[t], sel).value))
      else r == Err("!Failed to query " + t + " as it does not exist")
    case AlterTable(t, a) =>
      if t in db.tables
      then db'.tables == db.tables[t := Altered(db.tables[t], a)]
           && r == (if a.Add? then Ok(Some("Table " + t + " modified")) else Err("Table " + t + " not modified"))
      else db' == db && r == Err("!Failed to modify table " + t + " as it does not exist")
    case UpdateTable(t) =>
      db' == db && r == Err("!Failed to insert into table " + t + " as it does not exist.")
    case DeleteFrom(t) =>
      db' == db && r == Err("!Failed to insert into table " + t + " as it does not exist.")
    case _ => false
  }

  class Dbms {
    var databases: map<string, Database>
    var currDb: Option<string>

    /** Every table of every database is well formed. */
    ghost predicate Valid()
      reads this
    {
      forall name :: name in databases ==> Databases.Valid(databases[name])
    }

    /** The database in use, when `currDb` names one that exists. */
    ghost predicate HasActive()
      reads this
    {
      currDb.Some? && currDb.value in databases
    }

    /** The command can be run without a panic: an insert's literals must parse and fit, a
        select must not hit an empty table or a short column, and UPDATE/DELETE are modelled
        only on a table that does not exist. */
    ghost predicate Runnable(cmd: Command)
      reads this
    {
      HasActive() ==>
        var db := databases[currDb.value];
        match cmd
        case InsertInto(t, vals) => t in db.tables ==> CanInsert(db.tables[t], vals)
        case SelectFrom(sel, t) => t in db.tables ==> Selected(db.tables[t], sel).Some?
        case UpdateTable(t) => t !in db.tables
        case DeleteFrom(t) => t !in db.tables
        case _ => true
    }

    /** `DBMS::new(None)`: no databases and none in use. */
    constructor ()
      ensures databases == map[] && currDb == None
      ensures Valid()
    {
      databases := map[];
      currDb := None;
    }

    /** `DBMS::run`. */
    method Run(cmd: Command) returns (r: Outcome)
      requires Valid() && Runnable(cmd)
      modifies this
      ensures Valid()
      // CREATE DATABASE
      ensures cmd.CreateDatabase? ==> currDb == old(currDb)
      ensures cmd.CreateDatabase? && cmd.name in old(databases) ==>
                databases == old(databases)
                && r == Err("!Failed to create database " + cmd.name + " because it already exists.")
      ensures cmd.CreateDatabase? && cmd.name !in old(databases) ==>
                databases == old(databases)[cmd.name := NewDatabase()]
                && r == Ok(Some("Database " + cmd.name + " created."))
      // DROP DATABASE: the name in use is left as it was, even when it is the one dropped
      ensures cmd.DropDatabase? ==> currDb == old(currDb)
      ensures cmd.DropDatabase? && cmd.name in old(databases) ==>
                databases == old(databases) - {cmd.name}
                && r == Ok(Some("Database " + cmd.name + " deleted."))
      ensures cmd.DropDatabase? && cmd.name !in old(databases) ==>
                databases == old(databases)
                && r == Err("!Failed to delete database " + cmd.name + " because it does not exist.")
      // USE
      ensures cmd.UseDatabase? ==> databases == old(databases)
      ensures cmd.UseDatabase? && cmd.name in old(databases) ==>
                currDb == Some(cmd.name) && r == Ok(Some("Using database " + cmd.name + "."))
      ensures cmd.UseDatabase? && cmd.name !in old(databases) ==>
                currDb == old(currDb)
                && r == Err("!Cannot use database " + cmd.name + " as it does not exist")
      // ;
      ensures cmd.Semicolon? ==> databases == old(databases) && currDb == old(currDb) && r == Ok(None)
      // table commands without a database in use change nothing
      ensures cmd.IsTableCommand() && old(currDb).None? ==>
                databases == old(databases) && currDb == old(currDb) && r == Err(NoDatabase(cmd))
      ensures cmd.IsTableCommand() && old(currDb).Some? && old(currDb).value !in old(databases) ==>
                databases == old(databases) && currDb == old(currDb)
                && r == Err(Deleted(cmd, old(currDb).value))
      // table commands with a database in use change that database only
      ensures cmd.IsTableCommand() && old(HasActive()) ==>
                currDb == old(currDb) && databases.Keys == old(databases).Keys
                && forall name :: name in databases && name != currDb.value ==>
                     databases[name] == old(databases)[name]
      ensures cmd.IsTableCommand() && old(HasActive()) ==>
                TableEffect(cmd, old(databases)[currDb.value], databases[currDb.value], r)
    {
      match cmd {
        case CreateDatabase(name) =>
          if name in databases {
            r := Err("!Failed to create database " + name + " because it already exists.");
          } else {
            databases := databases[name := NewDatabase()];
            r := Ok(Some("Database " + name + " created."));
          }
        case DropDatabase(name) =>
          if name in databases {
            databases := databases - {name};
            r := Ok(Some("Database " + name + " deleted."));
          } else {
            r := Err("!Failed to delete database " + name + " because it does not exist.");
          }
        case UseDatabase(name) =>
          if name in databases {
            currDb := Some(name);
            r := Ok(Some("Using database " + name + "."));
          } else {
            r := Err("!Cannot use database " + name + " as it does not exist");
          }
        case Semicolon =>
          r := Ok(None);
        case _ =>
          match currDb {
            case None =>
              r := Err(NoDatabase(cmd));
            case Some(name) =>
              if name !in databases {
                r := Err(Deleted(cmd, name));
              } else {
                r := RunOn(name, cmd);
              }
          }
      }
    }

    /** A table command handed to the database in use. */
    method RunOn(name: string, cmd: Command) returns (r: Outcome)
      requires Valid() && Runnable(cmd) && cmd.IsTableCommand()
      requires currDb == Some(name) && name in databases
      modifies this
      ensures Valid()
      ensures currDb == old(currDb) && databases.Keys == old(databases).Keys
      ensures forall n :: n in databases && n != name ==> databases[n] == old(databases)[n]
      ensures TableEffect(cmd, old(databases)[name], databases[name], r)
    {
      var db := databases[name];
      var db' := db;
      match cmd {
        case CreateTable(t, defs) =>
          db', r := Databases.Create(db, t, defs);
        case DropTable(t) =>
          db', r := Databases.Drop(db, t);
        case InsertInto(t, vals) =>
          db', r := Databases.Insert(db, t, vals);
        case SelectFrom(sel, t) =>
          r := Databases.Select(db, sel, t);
        case AlterTable(t, a) =>
          db', r := Databases.Alter(db, t, a);
        case UpdateTable(t) =>
          r := Databases.Update(db, t);
        case DeleteFrom(t) =>
          r := Databases.Delete(db, t);
      }
      databases := databases[name := db'];
    }
  }

  /** DROP DATABASE does not clear the name in use: after dropping the database in use,
      table commands report it as deleted rather than as missing. */
  method DropDatabaseInUse() returns (r: Outcome)
    ensures r == Err("!Database shop was deleted")
  {
    var dbms := new Dbms();
    var created := dbms.Run(CreateDatabase("shop"));
    var used := dbms.Run(UseDatabase("shop"));
    var dropped := dbms.Run(DropDatabase("shop"));
    assert dbms.currDb == Some("shop") && "shop" !in dbms.databases;
    r := dbms.Run(SelectFrom(Star, "product"));
  }
}
