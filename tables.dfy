/** The columnar table of src/db.rs (`Table`, `SQLHeaderDef`, `SQLColumn`): a header of column
    definitions, one typed vector per column and a row count, with the four table operations the
    engine reaches (`new`, `insert`, `select`, `alter`).

    A table is a value: the Rust struct is owned by its database's map and never shared, so each
    operation is a method that takes the table and returns the updated one, keeping the source's
    loops. Where the Rust code panics (an `unwrap` on a failed parse, an index past the end of a
    vector, `len - 1` on an empty table) the specification functions give None and the methods
    require a defined result. */
module Tables {
  import opened Common

  /** A column type as the parser hands it over: `CHAR(n)`, `VARCHAR(n)`, `FLOAT`, `INT`.
      The size is the `u32` the source parses with `parse::<u32>().unwrap()`. */
  datatype ColumnType = CharType(size: u32) | VarcharType(size: u32) | FloatType | IntType

  /** One `columnDef` of a CREATE TABLE or ALTER TABLE ... ADD command. */
  datatype ColumnDef = ColumnDef(name: string, kind: ColumnType)

  /** `SQLHeaderDef`: a column's name and declared type. */
  datatype HeaderDef =
    | Char(name: string, size: u32)
    | Varchar(name: string, size: u32)
    | Float(name: string)
    | Int(name: string)

  /** An `f64`, kept as the literal text it was parsed from. */
  datatype F64 = F64(literal: string)

  /** `SQLColumn`: the values of one column. CHAR and VARCHAR columns both store strings. */
  datatype Column =
    | CharColumn(chars: seq<string>)
    | FloatColumn(floats: seq<F64>)
    | IntColumn(ints: seq<i64>)
  {
    function Length(): nat
    {
      match this
      case CharColumn(v) => |v|
      case FloatColumn(v) => |v|
      case IntColumn(v) => |v|
    }
  }

  /** A `columnVal` of an INSERT command, by the grammar rule it matched. */
  datatype Literal = FloatVal(text: string) | CharVal(text: string) | IntVal(text: string)

  /** The select arguments: `*` or a list of column names. */
  datatype Selection = Star | List(names: seq<string>)

  /** The action of an ALTER TABLE command: ADD with column definitions, or anything else. */
  datatype Alteration = Add(defs: seq<ColumnDef>) | OtherAlteration

  /** `Table`: header, column vectors (`data`) and the row count `len`. */
  datatype Table = Table(header: seq<HeaderDef>, data: seq<Column>, len: nat)

  /** A column stores the kind of value its header entry declares. */
  predicate Holds(h: HeaderDef, c: Column)
  {
    match h
    case Char(_, _) => c.CharColumn?
    case Varchar(_, _) => c.CharColumn?
    case Float(_) => c.FloatColumn?
    case Int(_) => c.IntColumn?
  }

  /** What every operation keeps: each column vector lines up with the header entry at its
      position (ALTER adds header entries without columns, so there may be more entries than
      columns), and no column holds more values than the row count. INSERT does not check
      arity, so a column may hold fewer. */
  predicate WellFormed(t: Table)
  {
    && |t.data| <= |t.header|
    && (forall j :: 0 <= j < |t.data| ==> Holds(t.header[j], t.data[j]))
    && (forall j :: 0 <= j < |t.data| ==> t.data[j].Length() <= t.len)
  }

  // ---------------------------------------------------------------- Table::new

  function HeaderOf(d: ColumnDef): HeaderDef
  {
    match d.kind
    case CharType(n) => Char(d.name, n)
    case VarcharType(n) => Varchar(d.name, n)
    case FloatType => Float(d.name)
    case IntType => Int(d.name)
  }

  function EmptyColumn(k: ColumnType): (c: Column)
    ensures c.Length() == 0
  {
    match k
    case CharType(_) => CharColumn([])
    case VarcharType(_) => CharColumn([])
    case FloatType => FloatColumn([])
    case IntType => IntColumn([])
  }

  function Headers(defs: seq<ColumnDef>): (hs: seq<HeaderDef>)
    ensures |hs| == |defs|
    ensures forall k :: 0 <= k < |defs| ==> hs[k] == HeaderOf(defs[k])
  {
    seq(|defs|, k requires 0 <= k < |defs| => HeaderOf(defs[k]))
  }

  /** The table `Table::new` builds: one header entry and one empty column per definition,
      in order, and no rows. */
  function EmptyTable(defs: seq<ColumnDef>): (t: Table)
    ensures WellFormed(t) && t.len == 0
    ensures t.header == Headers(defs) && |t.data| == |defs|
    ensures forall k :: 0 <= k < |defs| ==> t.data[k].Length() == 0
  {
    Table(Headers(defs), seq(|defs|, k requires 0 <= k < |defs| => EmptyColumn(defs[k].kind)), 0)
  }

  /** `Table::new`: push a header entry and an empty column for each definition. */
  method New(defs: seq<ColumnDef>) returns (t: Table)
    ensures t == EmptyTable(defs)
  {
    var header: seq<HeaderDef> := [];
    var data: seq<Column> := [];
    for i := 0 to |defs|
      invariant |header| == |data| == i
      invariant forall k :: 0 <= k < i ==> header[k] == HeaderOf(defs[k])
      invariant forall k :: 0 <= k < i ==> data[k] == EmptyColumn(defs[k].kind)
    {
      var name := defs[i].name;
      match defs[i].kind {
        case CharType(n) =>
          data := data + [CharColumn([])];
          header := header + [Char(name, n)];
        case VarcharType(n) =>
          data := data + [CharColumn([])];
          header := header + [Varchar(name, n)];
        case FloatType =>
          data := data + [FloatColumn([])];
          header := header + [Float(name)];
        case IntType =>
          data := data + [IntColumn([])];
          header := header + [Int(name)];
      }
    }
    t := Table(header, data, 0);
    assert t.header == EmptyTable(defs).header;
    assert t.data == EmptyTable(defs).data;
  }

  // ---------------------------------------------------------------- Table::insert

  /** The loop state of `Table::insert`: the columns and the column counter `i`. */
  datatype Cursor = Cursor(data: seq<Column>, i: nat)

  /** One pass of the loop body of `Table::insert`. The column at the counter is fetched with
      `get_mut(i).unwrap()`, so a counter past the last column panics (None) for every kind of
      literal. A literal of the column's kind is pushed and advances the counter; any other
      literal is skipped. A float literal is first tried against an INT column (pushing the
      integer it parses to, or panicking when it does not parse) and then, at the possibly
      advanced counter, against a FLOAT column. */
  function Push(c: Cursor, lit: Literal): Option<Cursor>
  {
    var data, i := c.data, c.i;
    if i >= |data| then None
    else
      match lit
      case FloatVal(text) =>
        if data[i].IntColumn? && ParseI64(text).None? then None
        else
          var after := if data[i].IntColumn?
            then Cursor(data[i := IntColumn(data[i].ints + [ParseI64(text).value])], i + 1)
            else c;
          if after.i >= |after.data| then None
          else if after.data[after.i].FloatColumn?
          then Some(Cursor(after.data[after.i := FloatColumn(after.data[after.i].floats + [F64(text)])], after.i + 1))
          else Some(after)
      case CharVal(text) =>
        if data[i].CharColumn? then Some(Cursor(data[i := CharColumn(data[i].chars + [text])], i + 1))
        else Some(c)
      case IntVal(text) =>
        if data[i].IntColumn? then
          if ParseI64(text).None? then None
          else Some(Cursor(data[i := IntColumn(data[i].ints + [ParseI64(text).value])], i + 1))
        else Some(c)
  }

  /** The whole loop of `Table::insert` over the literals, from cursor c. */
  function InsertRow(c: Cursor, vals: seq<Literal>): Option<Cursor>
    decreases |vals|
  {
    if vals == [] then Some(c)
    else
      match Push(c, vals[0])
      case None => None
      case Some(c') => InsertRow(c', vals[1..])
  }

  /** The literals can be inserted without a panic. */
  predicate CanInsert(t: Table, vals: seq<Literal>)
  {
    InsertRow(Cursor(t.data, 0), vals).Some?
  }

  /** The table after `Table::insert`: the pushed columns, and one more row whatever was pushed. */
  function Inserted(t: Table, vals: seq<Literal>): Table
    requires CanInsert(t, vals)
  {
    t.(data := InsertRow(Cursor(t.data, 0), vals).value.data, len := t.len + 1)
  }

  /** `Table::insert`. It never compares the number of literals with the number of columns. */
  method Insert(t: Table, vals: seq<Literal>) returns (t': Table, r: Outcome)
    requires CanInsert(t, vals)
    ensures t' == Inserted(t, vals)
    ensures r == Ok(Some("1 new record inserted"))
  {
    var data := t.data;
    var i: nat := 0;
    for n := 0 to |vals|
      invariant InsertRow(Cursor(data, i), vals[n..]) == InsertRow(Cursor(t.data, 0), vals)
    {
      assert vals[n..][0] == vals[n] && vals[n..][1..] == vals[n + 1..];
      match vals[n] {
        case FloatVal(text) =>
          if data[i].IntColumn? {
            data := data[i := IntColumn(data[i].ints + [ParseI64(text).value])];
            i := i + 1;
          }
          if data[i].FloatColumn? {
            data := data[i := FloatColumn(data[i].floats + [F64(text)])];
            i := i + 1;
          }
        case CharVal(text) =>
          if data[i].CharColumn? {
            data := data[i := CharColumn(data[i].chars + [text])];
            i := i + 1;
          }
        case IntVal(text) =>
          if data[i].IntColumn? {
            data := data[i := IntColumn(data[i].ints + [ParseI64(text).value])];
            i := i + 1;
          }
      }
    }
    t' := t.(data := data, len := t.len + 1);
    r := Ok(Some("1 new record inserted"));
  }

  // ---------------------------------------------------------------- Table::select

  /** The header segment `select` writes for one header entry (`format!("{} int | ", name)`, ...). */
  function Segment(h: HeaderDef): string
  {
    match h
    case Int(name) => name + " int | "
    case Char(name, size) => name + " char(" + NatToString(size as nat) + ") | "
    case Float(name) => name + " float | "
    case Varchar(name, size) => name + " varchar(" + NatToString(size as nat) + ") | "
  }

  /** Whether the header entry is written: always for `*`, and for a list when its name is in it. */
  predicate Shown(h: HeaderDef, sel: Selection)
  {
    sel.Star? || h.name in sel.names
  }

  /** The header part of the output, in header order. */
  function HeaderText(header: seq<HeaderDef>, sel: Selection): string
  {
    if header == [] then ""
    else
      var last := header[|header| - 1];
      HeaderText(header[..|header| - 1], sel) + (if Shown(last, sel) then Segment(last) else "")
  }

  /** Rust's `String::pop`: drop the last character, if there is one. */
  function Pop(s: string): string
  {
    if s == [] then s else s[..|s| - 1]
  }

  /** The value of row i of a column as `{}` renders it (a float as its literal). */
  function CellText(c: Column, i: nat): string
    requires i < c.Length()
  {
    match c
    case CharColumn(v) => v[i]
    case FloatColumn(v) => v[i].literal
    case IntColumn(v) => IntToString(v[i] as int)
  }

  /** The inner loop of the `*` branch for row i, from column j on: one "value | " per column.
      `get(i).unwrap()` on a column with no row i panics. */
  function StarCells(out: string, data: seq<Column>, i: nat, j: nat): Option<string>
    decreases |data| - j
  {
    if j >= |data| then Some(out)
    else if i >= data[j].Length() then None
    else StarCells(out + (CellText(data[j], i) + " | "), data, i, j + 1)
  }

  /** The inner loop of the list branch for row i, from column j on. CHAR and FLOAT values are
      written, INT values never are, and an INT value equal to 2 (`0b10`) abandons the rest of
      the row (`continue 'outer`). */
  function ListCells(out: string, data: seq<Column>, i: nat, j: nat): Option<string>
    decreases |data| - j
  {
    if j >= |data| then Some(out)
    else if i >= data[j].Length() then None
    else
      match data[j]
      case IntColumn(v) => if v[i] == 2 then Some(out) else ListCells(out, data, i, j + 1)
      case _ => ListCells(out + (CellText(data[j], i) + " | "), data, i, j + 1)
  }

  /** One row: two pops, a newline, then the cells. */
  function RowText(out: string, data: seq<Column>, i: nat, sel: Selection): Option<string>
  {
    var start := Pop(Pop(out)) + "\n";
    if sel.Star? then StarCells(start, data, i, 0) else ListCells(start, data, i, 0)
  }

  /** The row loop `for i in 0..self.len - 1`, from row i on, stopping before row n. */
  function Rows(out: string, data: seq<Column>, i: nat, n: nat, sel: Selection): Option<string>
    decreases n - i
  {
    if i >= n then Some(out)
    else
      match RowText(out, data, i, sel)
      case None => None
      case Some(o) => Rows(o, data, i + 1, n, sel)
  }

  /** The text `Table::select` returns, or None where it panics. On an empty table
      `self.len - 1` underflows `usize`, a panic. Rows `0..len - 1` are rendered, so the last
      row never is. Two final pops remove the last "| ". */
  function Selected(t: Table, sel: Selection): Option<string>
  {
    if t.len == 0 then None
    else
      match Rows(HeaderText(t.header, sel), t.data, 0, t.len - 1, sel)
      case None => None
      case Some(o) => Some(Pop(Pop(o)))
  }

  /** The header loops of `Table::select`: one segment per header entry, in header order,
      for a list only the entries whose name is in the list. */
  method WriteHeader(header: seq<HeaderDef>, sel: Selection) returns (out: string)
    ensures out == HeaderText(header, sel)
  {
    out := "";
    for k := 0 to |header|
      invariant out == HeaderText(header[..k], sel)
    {
      assert header[..k + 1][..k] == header[..k];
      var shown := match sel case Star => true case List(names) => header[k].name in names;
      if shown {
        match header[k] {
          case Int(name) => out := out + (name + " int | ");
          case Char(name, size) => out := out + (name + " char(" + NatToString(size as nat) + ") | ");
          case Float(name) => out := out + (name + " float | ");
          case Varchar(name, size) => out := out + (name + " varchar(" + NatToString(size as nat) + ") | ");
        }
      }
    }
    assert header[..|header|] == header;
  }

  /** The row loop of the `*` branch of `Table::select`, rows 0 up to n (exclusive). */
  method WriteStarRows(out0: string, data: seq<Column>, n: nat) returns (out: string)
    requires Rows(out0, data, 0, n, Star).Some?
    ensures out == Rows(out0, data, 0, n, Star).value
  {
    out := out0;
    for i := 0 to n
      invariant Rows(out, data, i, n, Star) == Rows(out0, data, 0, n, Star)
    {
      ghost var before := out;
      out := Pop(out);
      out := Pop(out);
      out := out + "\n";
      for j := 0 to |data|
        invariant StarCells(out, data, i, j) == RowText(before, data, i, Star)
      {
        match data[j] {
          case IntColumn(v) => out := out + (IntToString(v[i] as int) + " | ");
          case CharColumn(v) => out := out + (v[i] + " | ");
          case FloatColumn(v) => out := out + (v[i].literal + " | ");
        }
      }
    }
  }

  /** The row loop of the list branch of `Table::select`. */
  method WriteListRows(out0: string, data: seq<Column>, n: nat, names: seq<string>) returns (out: string)
    requires Rows(out0, data, 0, n, List(names)).Some?
    ensures out == Rows(out0, data, 0, n, List(names)).value
  {
    out := out0;
    label Outer:
    for i := 0 to n
      invariant Rows(out, data, i, n, List(names)) == Rows(out0, data, 0, n, List(names))
    {
      ghost var before := out;
      out := Pop(out);
      out := Pop(out);
      out := out + "\n";
      for j := 0 to |data|
        invariant ListCells(out, data, i, j) == RowText(before, data, i, List(names))
      {
        match data[j] {
          case IntColumn(v) =>
            if v[i] == 2 {
              continue Outer;
            }
          case CharColumn(v) => out := out + (v[i] + " | ");
          case FloatColumn(v) => out := out + (v[i].literal + " | ");
        }
      }
    }
  }

  /** `Table::select`. */
  method Select(t: Table, sel: Selection) returns (r: Outcome)
    requires Selected(t, sel).Some?
    ensures r == Ok(Some(Selected(t, sel).value))
  {
    var out := WriteHeader(t.header, sel);
    match sel {
      case Star => out := WriteStarRows(out, t.data, t.len - 1);
      case List(names) => out := WriteListRows(out, t.data, t.len - 1, names);
    }
    out := Pop(out);
    out := Pop(out);
    r := Ok(Some(out));
  }

  // ---------------------------------------------------------------- Table::alter

  /** The table after `Table::alter`: ADD appends one header entry per definition and adds no
      column vector; any other action changes nothing. */
  function Altered(t: Table, a: Alteration): (t': Table)
    ensures t'.data == t.data && t'.len == t.len
    ensures a.Add? ==> |t'.header| == |t.header| + |a.defs| && t'.header[..|t.header|] == t.header
    ensures a.Add? ==> forall k :: 0 <= k < |a.defs| ==> t'.header[|t.header| + k] == HeaderOf(a.defs[k])
    ensures !a.Add? ==> t' == t
    ensures WellFormed(t) ==> WellFormed(t')
  {
    if a.Add? then t.(header := t.header + Headers(a.defs)) else t
  }

  /** `Table::alter`. Its messages carry a literal "{}": the table's own name is filled in by
      the database. */
  method Alter(t: Table, a: Alteration) returns (t': Table, r: Outcome)
    ensures t' == Altered(t, a)
    ensures r == if a.Add? then Ok(Some("Table {} modified.")) else Err("Table {} not modified")
  {
    match a {
      case Add(defs) =>
        var header := t.header;
        for k := 0 to |defs|
          invariant |header| == |t.header| + k
          invariant header[..|t.header|] == t.header
          invariant forall m :: 0 <= m < k ==> header[|t.header| + m] == HeaderOf(defs[m])
        {
          var name := defs[k].name;
          match defs[k].kind {
            case CharType(n) => header := header + [Char(name, n)];
            case VarcharType(n) => header := header + [Varchar(name, n)];
            case FloatType => header := header + [Float(name)];
            case IntType => header := header + [Int(name)];
          }
        }
        t' := t.(header := header);
        assert t'.header == Altered(t, a).header;
        r := Ok(Some("Table {} modified."));
      case OtherAlteration =>
        t' := t;
        r := Err("Table {} not modified");
    }
  }
}
