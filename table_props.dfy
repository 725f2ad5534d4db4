/** What the table operations of src/db.rs guarantee, proved about the specification functions
    of module Tables: the shape of an insert, the invariant every operation keeps, when a select
    is defined and the layout of its text. */
module TableProperties {
  import opened Common
  import opened Tables

  // ---------------------------------------------------------------- insert

  /** c' is c with exactly one value appended, of the same kind. */
  predicate Extends(c: Column, c': Column)
  {
    match c
    case CharColumn(a) => c'.CharColumn? && |c'.chars| == |a| + 1 && c'.chars[..|a|] == a
    case FloatColumn(a) => c'.FloatColumn? && |c'.floats| == |a| + 1 && c'.floats[..|a|] == a
    case IntColumn(a) => c'.IntColumn? && |c'.ints| == |a| + 1 && c'.ints[..|a|] == a
  }

  /** The columns from `i` up to `k` each received one value; all others are untouched. */
  predicate PushedBetween(data: seq<Column>, data': seq<Column>, i: nat, k: nat)
  {
    && |data'| == |data|
    && i <= k <= |data|
    && (forall j :: 0 <= j < |data| && (j < i || k <= j) ==> data'[j] == data[j])
    && (forall j :: i <= j < k ==> Extends(data[j], data'[j]))
  }

  lemma PushShape(c: Cursor, lit: Literal)
    requires Push(c, lit).Some?
    ensures PushedBetween(c.data, Push(c, lit).value.data, c.i, Push(c, lit).value.i)
  {
  }

  /** Each pushed value goes to the column at the counter and the counter then advances by one:
      the literals of a row fill a run of consecutive columns starting at the counter, one value
      per column, and no other column changes. */
  lemma {:induction false} InsertRowShape(c: Cursor, vals: seq<Literal>)
    requires c.i <= |c.data|
    requires InsertRow(c, vals).Some?
    ensures PushedBetween(c.data, InsertRow(c, vals).value.data, c.i, InsertRow(c, vals).value.i)
    decreases |vals|
  {
    if vals != [] {
      var c1 := Push(c, vals[0]).value;
      PushShape(c, vals[0]);
      InsertRowShape(c1, vals[1..]);
      var c2 := InsertRow(c1, vals[1..]).value;
      forall j | c.i <= j < c2.i
        ensures Extends(c.data[j], c2.data[j])
      {
        if j >= c1.i {
          ExtendsUnchanged(c.data[j], c1.data[j], c2.data[j]);
        }
      }
    }
  }

  lemma ExtendsUnchanged(a: Column, b: Column, c: Column)
    requires a == b && Extends(b, c)
    ensures Extends(a, c)
  {
  }

  /** The number of columns an insert fills: the final value of the counter. */
  function Filled(t: Table, vals: seq<Literal>): nat
    requires CanInsert(t, vals)
  {
    InsertRow(Cursor(t.data, 0), vals).value.i
  }

  /** `Table::insert` keeps the header, adds exactly one to the row count, appends one value to
      each of the first `Filled` columns and leaves the remaining columns as they were. */
  lemma InsertedShape(t: Table, vals: seq<Literal>)
    requires CanInsert(t, vals)
    ensures Inserted(t, vals).header == t.header && Inserted(t, vals).len == t.len + 1
    ensures PushedBetween(t.data, Inserted(t, vals).data, 0, Filled(t, vals))
  {
    InsertRowShape(Cursor(t.data, 0), vals);
  }

  /** INSERT keeps the table well formed. */
  lemma InsertPreservesWellFormed(t: Table, vals: seq<Literal>)
    requires WellFormed(t) && CanInsert(t, vals)
    ensures WellFormed(Inserted(t, vals))
  {
    InsertedShape(t, vals);
    var t' := Inserted(t, vals);
    forall j | 0 <= j < |t'.data|
      ensures Holds(t'.header[j], t'.data[j]) && t'.data[j].Length() <= t'.len
    {
      if j < Filled(t, vals) {
        assert Extends(t.data[j], t'.data[j]);
      }
    }
  }

  /** A literal that the column at its position accepts: a string for a CHAR/VARCHAR column,
      an integer literal that parses for an INT column, a float literal for a FLOAT column. */
  predicate Fits(lit: Literal, c: Column)
  {
    match lit
    case CharVal(_) => c.CharColumn?
    case IntVal(text) => c.IntColumn? && ParseI64(text).Some?
    case FloatVal(_) => c.FloatColumn?
  }

  /** The column with the value of a fitting literal appended. */
  function Appended(c: Column, lit: Literal): Column
    requires Fits(lit, c)
  {
    match lit
    case CharVal(text) => CharColumn(c.chars + [text])
    case IntVal(text) => IntColumn(c.ints + [ParseI64(text).value])
    case FloatVal(text) => FloatColumn(c.floats + [F64(text)])
  }

  /** A fitting literal is appended to the column at the counter, which then advances. */
  lemma PushFitting(data: seq<Column>, i: nat, lit: Literal)
    requires i < |data| && Fits(lit, data[i])
    ensures Push(Cursor(data, i), lit) == Some(Cursor(data[i := Appended(data[i], lit)], i + 1))
  {
  }

  /** From counter i on, literals that each fit their column are all pushed: the counter
      reaches the last column and each column from i on gains exactly its literal's value. */
  lemma {:induction false} InsertFittingRow(data: seq<Column>, i: nat, vals: seq<Literal>) returns (d: seq<Column>)
    requires i <= |vals| == |data|
    requires forall k :: i <= k < |vals| ==> Fits(vals[k], data[k])
    ensures InsertRow(Cursor(data, i), vals[i..]) == Some(Cursor(d, |data|))
    ensures |d| == |data|
    ensures forall k :: 0 <= k < i ==> d[k] == data[k]
    ensures forall k :: i <= k < |data| ==> d[k] == Appended(data[k], vals[k])
    decreases |vals| - i
  {
    if i == |vals| {
      d := data;
    } else {
      var data1 := data[i := Appended(data[i], vals[i])];
      PushFitting(data, i, vals[i]);
      assert vals[i..][0] == vals[i] && vals[i..][1..] == vals[i + 1..];
      assert InsertRow(Cursor(data, i), vals[i..]) == InsertRow(Cursor(data1, i + 1), vals[i + 1..]);
      d := InsertFittingRow(data1, i + 1, vals);
      forall k | i <= k < |data|
        ensures d[k] == Appended(data[k], vals[k])
      {
        if k == i {
          assert d[k] == data1[k];
        } else {
          assert data1[k] == data[k];
        }
      }
    }
  }

  /** A row with one fitting literal per column, in column order, appends each literal's value
      to its own column. */
  lemma InsertFitting(t: Table, vals: seq<Literal>)
    requires |vals| == |t.data|
    requires forall k :: 0 <= k < |vals| ==> Fits(vals[k], t.data[k])
    ensures CanInsert(t, vals)
    ensures Filled(t, vals) == |t.data| && |Inserted(t, vals).data| == |t.data|
    ensures forall k :: 0 <= k < |vals| ==> Inserted(t, vals).data[k] == Appended(t.data[k], vals[k])
  {
    var d := InsertFittingRow(t.data, 0, vals);
    assert vals[0..] == vals;
  }

  // ---------------------------------------------------------------- select: when it is defined

  lemma {:induction false} StarCellsDefined(out: string, data: seq<Column>, i: nat, j: nat)
    ensures StarCells(out, data, i, j).Some? <==> forall k :: j <= k < |data| ==> i < data[k].Length()
    decreases |data| - j
  {
    if j < |data| && i < data[j].Length() {
      StarCellsDefined(out + (CellText(data[j], i) + " | "), data, i, j + 1);
    }
  }

  lemma {:induction false} StarRowsDefined(out: string, data: seq<Column>, i: nat, n: nat)
    ensures Rows(out, data, i, n, Star).Some? <==>
            (i >= n || forall k :: 0 <= k < |data| ==> n - 1 < data[k].Length())
    decreases n - i
  {
    if i < n {
      var start := Pop(Pop(out)) + "\n";
      StarCellsDefined(start, data, i, 0);
      match RowText(out, data, i, Star)
      case None =>
      case Some(o) => StarRowsDefined(o, data, i + 1, n);
    }
  }

  /** `select *` panics exactly when the table is empty or some column holds fewer than
      `len - 1` values (INSERT does not check arity, so a column can lag behind the row count). */
  lemma SelectStarDefined(t: Table)
    ensures Selected(t, Star).Some? <==>
            t.len >= 1 && forall k :: 0 <= k < |t.data| ==> t.len - 1 <= t.data[k].Length()
  {
    if t.len >= 1 {
      StarRowsDefined(HeaderText(t.header, Star), t.data, 0, t.len - 1);
    }
  }

  // ---------------------------------------------------------------- select: layout of `*`

  /** A header entry as `select` names it: "name int", "name char(n)", "name float",
      "name varchar(n)". */
  function Field(h: HeaderDef): string
  {
    match h
    case Int(name) => name + " int"
    case Char(name, size) => name + " char(" + NatToString(size as nat) + ")"
    case Float(name) => name + " float"
    case Varchar(name, size) => name + " varchar(" + NatToString(size as nat) + ")"
  }

  function Fields(hs: seq<HeaderDef>): (fs: seq<string>)
    ensures |fs| == |hs|
  {
    seq(|hs|, k requires 0 <= k < |hs| => Field(hs[k]))
  }

  /** The values of row i, one per column, in column order. */
  function RowFields(data: seq<Column>, i: nat): (fs: seq<string>)
    requires forall k :: 0 <= k < |data| ==> i < data[k].Length()
    ensures |fs| == |data|
  {
    seq(|data|, k requires 0 <= k < |data| => CellText(data[k], i))
  }

  /** Fields separated by " | ". */
  function Join(fs: seq<string>): string
  {
    if fs == [] then ""
    else if |fs| == 1 then fs[0]
    else fs[0] + " | " + Join(fs[1..])
  }

  /** Every field followed by " | ", as the loops write them before the pops. */
  function Bars(fs: seq<string>): string
  {
    if fs == [] then "" else fs[0] + " | " + Bars(fs[1..])
  }

  lemma {:induction false} BarsIsJoin(fs: seq<string>)
    requires fs != []
    ensures Bars(fs) == Join(fs) + " | "
  {
    if |fs| > 1 {
      BarsIsJoin(fs[1..]);
    }
  }

  lemma {:induction false} BarsSnoc(fs: seq<string>, f: string)
    ensures Bars(fs + [f]) == Bars(fs) + (f + " | ")
  {
    if fs != [] {
      assert (fs + [f])[1..] == fs[1..] + [f];
      BarsSnoc(fs[1..], f);
    } else {
      assert [f][1..] == [];
    }
  }

  lemma {:induction false} StarHeaderIsBars(hs: seq<HeaderDef>)
    ensures HeaderText(hs, Star) == Bars(Fields(hs))
  {
    if hs != [] {
      var init, last := hs[..|hs| - 1], hs[|hs| - 1];
      assert HeaderText(hs, Star) == HeaderText(init, Star) + Segment(last);
      StarHeaderIsBars(init);
      assert Fields(hs) == Fields(init) + [Field(last)];
      BarsSnoc(Fields(init), Field(last));
      SegmentIsField(last);
    }
  }

  lemma SegmentIsField(h: HeaderDef)
    ensures Segment(h) == Field(h) + " | "
  {
    match h
    case Int(name) =>
      assert name + " int | " == name + " int" + " | ";
    case Char(name, size) =>
      var n := NatToString(size as nat);
      assert name + " char(" + n + ") | " == name + " char(" + n + ")" + " | ";
    case Float(name) =>
      assert name + " float | " == name + " float" + " | ";
    case Varchar(name, size) =>
      var n := NatToString(size as nat);
      assert name + " varchar(" + n + ") | " == name + " varchar(" + n + ")" + " | ";
  }

  lemma {:induction false} StarCellsAreBars(out: string, data: seq<Column>, i: nat, j: nat)
    requires j <= |data|
    requires forall k :: 0 <= k < |data| ==> i < data[k].Length()
    ensures StarCells(out, data, i, j) == Some(out + Bars(RowFields(data, i)[j..]))
    decreases |data| - j
  {
    var fs := RowFields(data, i);
    if j < |data| {
      var cell := CellText(data[j], i);
      StarCellsAreBars(out + (cell + " | "), data, i, j + 1);
      assert fs[j..][0] == cell && fs[j..][1..] == fs[j + 1..];
      assert Bars(fs[j..]) == cell + " | " + Bars(fs[j + 1..]);
      assert out + (cell + " | ") + Bars(fs[j + 1..]) == out + (cell + " | " + Bars(fs[j + 1..]));
    } else {
      assert fs[j..] == [];
      assert out + Bars([]) == out;
    }
  }

  /** The data rows from i up to n as `select *` lays them out. */
  function RowLines(data: seq<Column>, i: nat, n: nat): string
    requires forall k :: 0 <= k < |data| ==> n - 1 < data[k].Length()
    decreases n - i
  {
    if i >= n then "" else "\n" + Join(RowFields(data, i)) + " " + RowLines(data, i + 1, n)
  }

  /** One row of `select *`: the two pops take back the previous "| ", then a newline and the
      row's values joined by " | ", ending in " | ". */
  lemma StarRowStep(prefix: string, data: seq<Column>, i: nat)
    requires |data| > 0
    requires forall k :: 0 <= k < |data| ==> i < data[k].Length()
    ensures RowText(prefix + "| ", data, i, Star) == Some(prefix + "\n" + Join(RowFields(data, i)) + " " + "| ")
  {
    var fs := RowFields(data, i);
    PopBar(prefix);
    StarCellsAreBars(prefix + "\n", data, i, 0);
    assert fs[0..] == fs;
    BarsIsJoin(fs);
    assert prefix + "\n" + Bars(fs) == prefix + "\n" + Join(fs) + " " + "| ";
  }

  lemma {:induction false} StarRowsLayout(prefix: string, data: seq<Column>, i: nat, n: nat)
    requires |data| > 0
    requires forall k :: 0 <= k < |data| ==> n - 1 < data[k].Length()
    ensures Rows(prefix + "| ", data, i, n, Star) == Some(prefix + RowLines(data, i, n) + "| ")
    decreases n - i
  {
    if i < n {
      var line := "\n" + Join(RowFields(data, i)) + " ";
      var next := prefix + "\n" + Join(RowFields(data, i)) + " ";
      var rest := RowLines(data, i + 1, n);
      StarRowStep(prefix, data, i);
      StarRowsLayout(next, data, i + 1, n);
      calc {
        Rows(prefix + "| ", data, i, n, Star);
        Rows(next + "| ", data, i + 1, n, Star);
        Some(next + rest + "| ");
        { assert next == prefix + line; }
        Some(prefix + line + rest + "| ");
        { ConcatAssoc(prefix, line, rest); }
        Some(prefix + (line + rest) + "| ");
        { assert RowLines(data, i, n) == line + rest; }
        Some(prefix + RowLines(data, i, n) + "| ");
      }
    } else {
      assert prefix + "" == prefix;
    }
  }

  lemma ConcatAssoc(a: string, b: string, c: string)
    ensures a + b + c + "| " == a + (b + c) + "| "
  {
  }

  /** The text of `select *` on a table with at least one header entry and one column: the
      header fields separated by " | " with a trailing space, then for each of the rows
      `0..len - 1` (the last row is never shown) a newline and its values, in column order,
      separated by " | " with a trailing space. */
  lemma SelectStarLayout(t: Table)
    requires |t.header| > 0 && |t.data| > 0
    requires Selected(t, Star).Some?
    ensures forall k :: 0 <= k < |t.data| ==> t.len - 1 <= t.data[k].Length()
    ensures Selected(t, Star).value == Join(Fields(t.header)) + " " + RowLines(t.data, 0, t.len - 1)
  {
    SelectStarDefined(t);
    var h := Join(Fields(t.header)) + " ";
    StarHeaderIsBars(t.header);
    BarsIsJoin(Fields(t.header));
    assert HeaderText(t.header, Star) == h + "| ";
    StarRowsLayout(h, t.data, 0, t.len - 1);
    var o := h + RowLines(t.data, 0, t.len - 1);
    assert Rows(HeaderText(t.header, Star), t.data, 0, t.len - 1, Star) == Some(o + "| ");
    PopBar(o);
  }

  /** The two final pops take back a trailing "| ". */
  lemma PopBar(o: string)
    ensures Pop(Pop(o + "| ")) == o
  {
    assert (o + "| ")[..|o| + 1] == o + "|";
    assert (o + "|")[..|o|] == o;
  }

  /** With a single row, `select` (of any kind) shows the header and no data row. */
  lemma SelectOneRow(t: Table, sel: Selection)
    requires t.len == 1
    ensures Selected(t, sel) == Some(Pop(Pop(HeaderText(t.header, sel))))
  {
  }

  // ---------------------------------------------------------------- select: projected header

  /** The header entries a projection names, in header order. */
  function Projected(hs: seq<HeaderDef>, names: seq<string>): seq<HeaderDef>
  {
    if hs == [] then []
    else
      var last := hs[|hs| - 1];
      Projected(hs[..|hs| - 1], names) + (if last.name in names then [last] else [])
  }

  /** `Projected` keeps exactly the entries whose name is listed. */
  lemma {:induction false} ProjectedMembers(hs: seq<HeaderDef>, names: seq<string>)
    ensures forall h :: h in Projected(hs, names) <==> h in hs && h.name in names
  {
    if hs != [] {
      var init := hs[..|hs| - 1];
      ProjectedMembers(init, names);
      assert hs == init + [hs[|hs| - 1]];
    }
  }

  /** The projected select writes the header segments of the listed entries, in header order. */
  lemma {:induction false} ProjectedHeader(hs: seq<HeaderDef>, names: seq<string>)
    ensures HeaderText(hs, List(names)) == HeaderText(Projected(hs, names), Star)
  {
    if hs != [] {
      var init, last := hs[..|hs| - 1], hs[|hs| - 1];
      ProjectedHeader(init, names);
      var p := Projected(init, names);
      if last.name in names {
        assert (p + [last])[..|p|] == p;
      } else {
        assert p + [] == p;
      }
    }
  }

  /** The order and repetitions of the names in the list do not matter: the header of a
      projected select depends only on which names are listed. */
  lemma {:induction false} ProjectionIgnoresListOrder(hs: seq<HeaderDef>, names1: seq<string>, names2: seq<string>)
    requires forall x :: x in names1 <==> x in names2
    ensures HeaderText(hs, List(names1)) == HeaderText(hs, List(names2))
  {
    if hs != [] {
      ProjectionIgnoresListOrder(hs[..|hs| - 1], names1, names2);
    }
  }

  // ---------------------------------------------------------------- an example

  /** Two rows inserted into a fresh (INT, CHAR(5)) table, then `select *`: the header and the
      first row are shown, the second row is not. */
  lemma SelectSkipsLastRow()
    ensures
      var t := EmptyTable([ColumnDef("id", IntType), ColumnDef("name", CharType(5))]);
      var t1 := Inserted(t, [IntVal("1"), CharVal("ab")]);
      var t2 := Inserted(t1, [IntVal("2"), CharVal("cd")]);
      CanInsert(t, [IntVal("1"), CharVal("ab")]) && CanInsert(t1, [IntVal("2"), CharVal("cd")])
      && Selected(t2, Star) == Some("id int | name char(5) \n1 | ab ")
  {
    var t := EmptyTable([ColumnDef("id", IntType), ColumnDef("name", CharType(5))]);
    var t2 := ExampleInserts(t);
    ExampleSelect(t2);
  }

  lemma ExampleInserts(t: Table) returns (t2: Table)
    requires t == EmptyTable([ColumnDef("id", IntType), ColumnDef("name", CharType(5))])
    ensures CanInsert(t, [IntVal("1"), CharVal("ab")])
    ensures CanInsert(Inserted(t, [IntVal("1"), CharVal("ab")]), [IntVal("2"), CharVal("cd")])
    ensures t2 == Inserted(Inserted(t, [IntVal("1"), CharVal("ab")]), [IntVal("2"), CharVal("cd")])
    ensures t2 == Table([Int("id"), Char("name", 5)], [IntColumn([1, 2]), CharColumn(["ab", "cd"])], 2)
  {
    assert ParseI64("1") == Some(1) && ParseI64("2") == Some(2) by {
      assert DigitsValue("1") == 1 by { assert "1"[..0] == []; }
      assert DigitsValue("2") == 2 by { assert "2"[..0] == []; }
    }
    var row1, row2 := [IntVal("1"), CharVal("ab")], [IntVal("2"), CharVal("cd")];
    assert t.data == [IntColumn([]), CharColumn([])];
    InsertFitting(t, row1);
    var t1 := Inserted(t, row1);
    assert t1.data[0] == Appended(IntColumn([]), IntVal("1")) == IntColumn([1]);
    assert t1.data[1] == Appended(CharColumn([]), CharVal("ab")) == CharColumn(["ab"]);
    assert t1 == Table(t.header, [IntColumn([1]), CharColumn(["ab"])], 1);
    InsertFitting(t1, row2);
    t2 := Inserted(t1, row2);
    assert t2.data[0] == Appended(IntColumn([1]), IntVal("2")) == IntColumn([1, 2]);
    assert t2.data[1] == Appended(CharColumn(["ab"]), CharVal("cd")) == CharColumn(["ab", "cd"]);
    assert t.header == [Int("id"), Char("name", 5)];
  }

  lemma ExampleSelect(t2: Table)
    requires t2 == Table([Int("id"), Char("name", 5)], [IntColumn([1, 2]), CharColumn(["ab", "cd"])], 2)
    ensures Selected(t2, Star) == Some("id int | name char(5) \n1 | ab ")
  {
    ExampleLayout(t2);
    ExampleHeader(t2.header);
    ExampleRow(t2.data);
    assert "id int | name char(5) " + "\n1 | ab " == "id int | name char(5) \n1 | ab ";
  }

  /** The example table is laid out as `SelectStarLayout` says, with its one shown row. */
  lemma ExampleLayout(t2: Table)
    requires t2 == Table([Int("id"), Char("name", 5)], [IntColumn([1, 2]), CharColumn(["ab", "cd"])], 2)
    ensures Selected(t2, Star) == Some(Join(Fields(t2.header)) + " " + RowLines(t2.data, 0, 1))
  {
    SelectStarDefined(t2);
    SelectStarLayout(t2);
  }

  lemma ExampleHeader(hs: seq<HeaderDef>)
    requires hs == [Int("id"), Char("name", 5)]
    ensures Join(Fields(hs)) + " " == "id int | name char(5) "
  {
    assert NatToString(5) == "5";
    assert Field(Char("name", 5)) == "name char(5)";
    assert Fields(hs)[0] == "id int";
    assert Fields(hs)[1] == "name char(5)";
    assert Fields(hs) == ["id int", "name char(5)"];
    assert Join(["name char(5)"]) == "name char(5)";
    assert Join(Fields(hs)) == "id int | name char(5)";
  }

  lemma ExampleRow(data: seq<Column>)
    requires data == [IntColumn([1, 2]), CharColumn(["ab", "cd"])]
    ensures RowLines(data, 0, 1) == "\n1 | ab "
  {
    assert IntToString(1) == "1";
    assert RowFields(data, 0)[0] == "1";
    assert RowFields(data, 0)[1] == "ab";
    assert RowFields(data, 0) == ["1", "ab"];
    assert Join(["ab"]) == "ab";
    assert Join(RowFields(data, 0)) == "1 | ab";
    assert RowLines(data, 1, 1) == "";
    assert "\n" + "1 | ab" + " " + "" == "\n1 | ab ";
  }
}
