/** The row and key/value table model of zypper's tabulator: rows of column
    cells with detail lines, a table holding a header and body rows, and the
    property table that turns key/value pairs into two-column rows. */
module Tables {
  import opened Decimal

  /** Border drawing styles (`TableLineStyle`). */
  datatype LineStyle =
    | Ascii | Light | Heavy | Double | Light3 | Heavy3
    | LightHeavy | LightDouble | HeavyLight | DoubleLight
    | Colon | none

  /** A row as stored in a table: `Table` keeps copies of the rows it is given. */
  datatype Row = Row(columns: seq<string>, details: seq<string>)

  /** `unsigned` arithmetic wraps modulo 2^32. */
  const UINT_RANGE: nat := 0x1_0000_0000

  /** The text of the boolean value column (translation is not modelled). */
  const YES: string := "Yes"
  const NO: string := "No"

  // ---------------------------------------------------------------------
  // TableRow::Less: the sort comparator on one column.

  /** `std::string`'s `operator<`: lexicographic order on characters, where a
      proper prefix comes first. */
  predicate StringLess(a: string, b: string)
  {
    if a == [] then b != []
    else if b == [] then false
    else if a[0] != b[0] then a[0] < b[0]
    else StringLess(a[1..], b[1..])
  }

  lemma {:induction false} StringLessIrreflexive(a: string)
    ensures !StringLess(a, a)
  {
    if a != [] { StringLessIrreflexive(a[1..]); }
  }

  lemma {:induction false} StringLessTransitive(a: string, b: string, c: string)
    requires StringLess(a, b) && StringLess(b, c)
    ensures StringLess(a, c)
  {
    if a != [] && b != [] && c != [] && a[0] == b[0] && b[0] == c[0] {
      StringLessTransitive(a[1..], b[1..], c[1..]);
    }
  }

  /** Any two different strings are ordered one way or the other. */
  lemma {:induction false} StringLessTotal(a: string, b: string)
    requires a != b
    ensures StringLess(a, b) || StringLess(b, a)
  {
    if a != [] && b != [] && a[0] == b[0] {
      assert a == [a[0]] + a[1..] && b == [b[0]] + b[1..];
      StringLessTotal(a[1..], b[1..]);
    }
  }

  /** `TableRow::Less(byColumn)(a, b)`: compares column `byColumn`, which
      both rows must have (the comparator indexes without a bounds check). */
  predicate Less(byColumn: nat, a: Row, b: Row)
    requires byColumn < |a.columns| && byColumn < |b.columns|
  {
    StringLess(a.columns[byColumn], b.columns[byColumn])
  }

  lemma LessIrreflexive(byColumn: nat, a: Row)
    requires byColumn < |a.columns|
    ensures !Less(byColumn, a, a)
  {
    StringLessIrreflexive(a.columns[byColumn]);
  }

  lemma LessTransitive(byColumn: nat, a: Row, b: Row, c: Row)
    requires byColumn < |a.columns| && byColumn < |b.columns| && byColumn < |c.columns|
    requires Less(byColumn, a, b) && Less(byColumn, b, c)
    ensures Less(byColumn, a, c)
  {
    StringLessTransitive(a.columns[byColumn], b.columns[byColumn], c.columns[byColumn]);
  }

  /** Two rows are incomparable exactly when their sort column is equal, so
      incomparability is an equivalence: `Less` is a strict weak ordering. */
  lemma LessIncomparable(byColumn: nat, a: Row, b: Row)
    requires byColumn < |a.columns| && byColumn < |b.columns|
    ensures !Less(byColumn, a, b) && !Less(byColumn, b, a)
        <==> a.columns[byColumn] == b.columns[byColumn]
  {
    if a.columns[byColumn] == b.columns[byColumn] {
      StringLessIrreflexive(a.columns[byColumn]);
    } else {
      StringLessTotal(a.columns[byColumn], b.columns[byColumn]);
    }
  }

  // ---------------------------------------------------------------------
  // TableRow

  /** A row under construction: cells and detail lines are appended in place. */
  class TableRow {
    var columns: seq<string>
    var details: seq<string>

    constructor ()
      ensures columns == [] && details == []
    {
      columns := [];
      details := [];
    }

    /** The value a table stores when this row is added to it. */
    function Value(): Row
      reads this
    {
      Row(columns, details)
    }

    function Cols(): nat
      reads this
    {
      |columns|
    }

    method Add(s: string)
      modifies this
      ensures columns == old(columns) + [s]
      ensures details == old(details)
    {
      columns := columns + [s];
    }

    method AddDetail(s: string)
      modifies this
      ensures details == old(details) + [s]
      ensures columns == old(columns)
    {
      details := details + [s];
    }

    /** `tr << val`: one more column holding the text of `val`. */
    method Put<T>(val: T, asString: T -> string)
      modifies this
      ensures columns == old(columns) + [asString(val)]
      ensures details == old(details)
      ensures Cols() == old(Cols()) + 1
    {
      Add(asString(val));
    }
  }

  // ---------------------------------------------------------------------
  // Table: row storage (rendering and width bookkeeping are not modelled)

  class Table {
    var hasHeader: bool
    var header: Row
    var rows: seq<Row>
    var style: LineStyle

    /** A table with no header and no rows, drawn in `defaultStyle`. */
    constructor (defaultStyle: LineStyle)
      ensures !hasHeader && header == Row([], []) && rows == []
      ensures style == defaultStyle
      ensures Empty()
    {
      hasHeader := false;
      header := Row([], []);
      rows := [];
      style := defaultStyle;
    }

    /** `empty()`: no body rows; the header does not count. */
    predicate Empty()
      reads this
    {
      rows == []
    }

    /** `add(tr)` and `table << tr`: a copy of the row goes to the end. */
    method Add(tr: TableRow)
      modifies this
      ensures rows == old(rows) + [tr.Value()]
      ensures hasHeader == old(hasHeader) && header == old(header) && style == old(style)
      ensures !Empty()
    {
      rows := rows + [tr.Value()];
    }

    /** `setHeader(th)` and `table << th`: installs or replaces the header. */
    method SetHeader(th: TableRow)
      modifies this
      ensures hasHeader && header == th.Value()
      ensures rows == old(rows) && style == old(style)
      ensures Empty() == old(Empty())
    {
      hasHeader := true;
      header := th.Value();
    }

    method SetLineStyle(st: LineStyle)
      modifies this
      ensures style == st
      ensures rows == old(rows) && hasHeader == old(hasHeader) && header == old(header)
    {
      style := st;
    }
  }

  // ---------------------------------------------------------------------
  // PropertyTable: the rows its operations build

  /** The row that `add(key, begin, end)` builds from a range of values:
      empty range, one value inline, or the count with the values as details.
      The count is an `unsigned`, so it wraps modulo 2^32. */
  function RangeRow(key: string, values: seq<string>): Row
  {
    if |values| == 0 then Row([key, ""], [])
    else if |values| == 1 then Row([key, values[0]], [])
    else Row([key, NatToDecimal(|values| % UINT_RANGE)], values)
  }

  /** An empty range: the key and an empty value, no details. */
  lemma RangeRowEmpty(key: string)
    ensures RangeRow(key, []).columns == [key, ""]
    ensures RangeRow(key, []).details == []
  {
  }

  /** One value: shown inline, no details. */
  lemma RangeRowSingle(key: string, v: string)
    ensures RangeRow(key, [v]).columns == [key, v]
    ensures RangeRow(key, [v]).details == []
  {
  }

  /** More values: two columns, the second the decimal count, which reads back
      as the number of values; the details are the values in order. */
  lemma RangeRowMany(key: string, values: seq<string>)
    requires 1 < |values| < UINT_RANGE
    ensures |RangeRow(key, values).columns| == 2
    ensures RangeRow(key, values).columns[0] == key
    ensures AllDigits(RangeRow(key, values).columns[1])
    ensures DecimalValue(RangeRow(key, values).columns[1]) == |values|
    ensures RangeRow(key, values).details == values
  {
    var n := |values|;
    assert n % UINT_RANGE == n;
    assert RangeRow(key, values) == Row([key, NatToDecimal(n)], values);
    DecimalRoundTrip(n);
  }

  /** Every range row has exactly the key and one value column. */
  lemma RangeRowHasTwoColumns(key: string, values: seq<string>)
    ensures |RangeRow(key, values).columns| == 2
    ensures RangeRow(key, values).columns[0] == key
    ensures |values| <= 1 ==> RangeRow(key, values).details == []
  {
  }

  /** A row with its last cell replaced, everything else kept. */
  function WithLastCell(r: Row, s: string): (r': Row)
    requires r.columns != []
    ensures |r'.columns| == |r.columns|
    ensures r'.columns[|r.columns| - 1] == s
    ensures forall i :: 0 <= i < |r.columns| - 1 ==> r'.columns[i] == r.columns[i]
    ensures r'.details == r.details
  {
    Row(r.columns[..|r.columns| - 1] + [s], r.details)
  }

  predicate IsStrictlySorted(values: seq<string>)
  {
    forall i, j :: 0 <= i < j < |values| ==> StringLess(values[i], values[j])
  }

  /** Rows from a strictly sorted sequence (the iteration order of a
      `std::set`) list every value once, in ascending order. */
  lemma SortedDetailsDistinct(key: string, values: seq<string>)
    requires IsStrictlySorted(values)
    ensures forall i, j :: 0 <= i < j < |RangeRow(key, values).details| ==>
      RangeRow(key, values).details[i] != RangeRow(key, values).details[j]
  {
    forall i, j | 0 <= i < j < |RangeRow(key, values).details|
      ensures RangeRow(key, values).details[i] != RangeRow(key, values).details[j]
    {
      StringLessIrreflexive(values[i]);
    }
  }

  /** Every row is a key/value pair: exactly two columns. */
  predicate KeyValueRows(rows: seq<Row>)
  {
    forall i :: 0 <= i < |rows| ==> |rows[i].columns| == 2
  }

  /** Aligned key/value table over a `Table` drawn in the colon style. Its
      table is private and only its `add` overloads append to it, so every
      row has exactly a key and a value column. */
  class PropertyTable {
    const table: Table

    ghost predicate Valid()
      reads this, table
    {
      table.style == Colon && KeyValueRows(table.rows)
    }

    constructor (defaultStyle: LineStyle)
      ensures Valid() && fresh(table)
      ensures table.rows == [] && !table.hasHeader
    {
      var t := new Table(defaultStyle);
      t.SetLineStyle(Colon);
      table := t;
    }

    /** `add(key, val)`: one row `[key, val]` in the values' text forms. */
    method Add<K, V>(key: K, val: V, keyString: K -> string, valString: V -> string)
      requires Valid()
      modifies table
      ensures Valid()
      ensures table.rows == old(table.rows) + [Row([keyString(key), valString(val)], [])]
      ensures table.hasHeader == old(table.hasHeader) && table.header == old(table.header)
    {
      var r := new TableRow();
      r.Put(key, keyString);
      r.Put(val, valString);
      assert r.Value() == Row([keyString(key), valString(val)], []);
      table.Add(r);
    }

    /** `add(key, bool)`: the value column is "Yes" or "No". */
    method AddBool<K>(key: K, val: bool, keyString: K -> string)
      requires Valid()
      modifies table
      ensures Valid()
      ensures table.rows == old(table.rows) + [Row([keyString(key), if val then YES else NO], [])]
      ensures table.hasHeader == old(table.hasHeader) && table.header == old(table.header)
    {
      var r := new TableRow();
      r.Put(key, keyString);
      r.Add(if val then YES else NO);
      assert r.Value() == Row([keyString(key), if val then YES else NO], []);
      table.Add(r);
    }

    /** `add(key, begin, end)`: walks the range once, counting the values and
        listing them as details when there is more than one. */
    method AddRange<K>(key: K, keyString: K -> string, values: seq<string>)
      requires Valid()
      modifies table
      ensures Valid()
      ensures table.rows == old(table.rows) + [RangeRow(keyString(key), values)]
      ensures table.hasHeader == old(table.hasHeader) && table.header == old(table.header)
    {
      var r := new TableRow();
      r.Put(key, keyString);
      assert r.columns == [keyString(key)];
      var begin := 0;
      if begin != |values| {
        var first := begin;
        begin := begin + 1;
        if begin != |values| {
          var cnt: nat := 1;
          r.AddDetail(values[first]);
          while begin != |values|
            invariant 1 <= begin <= |values|
            invariant cnt == begin % UINT_RANGE
            invariant r.columns == [keyString(key)] && r.details == values[..begin]
            modifies r
          {
            cnt := (cnt + 1) % UINT_RANGE;
            r.AddDetail(values[begin]);
            begin := begin + 1;
          }
          assert values[..begin] == values;
          r.Put(cnt, NatToDecimal);
          assert r.Value() == RangeRow(keyString(key), values);
        } else {
          r.Add(values[first]);
          assert r.Value() == RangeRow(keyString(key), values);
        }
      } else {
        r.Add("");
        assert r.Value() == RangeRow(keyString(key), values);
      }
      table.Add(r);
    }

    /** `lst(key, container)` and the `std::list`/`std::vector` overloads of
        `add`: the container's elements, in order, as a range. */
    method Lst<K>(key: K, keyString: K -> string, values: seq<string>)
      requires Valid()
      modifies table
      ensures Valid()
      ensures table.rows == old(table.rows) + [RangeRow(keyString(key), values)]
      ensures table.hasHeader == old(table.hasHeader) && table.header == old(table.header)
    {
      AddRange(key, keyString, values);
    }

    /** The `std::set` overload of `add`: a set is iterated in ascending
        order, so it is given as its strictly sorted sequence of elements. */
    method AddSet<K>(key: K, keyString: K -> string, elements: seq<string>)
      requires Valid()
      requires IsStrictlySorted(elements)
      modifies table
      ensures Valid()
      ensures table.rows == old(table.rows) + [RangeRow(keyString(key), elements)]
      ensures table.hasHeader == old(table.hasHeader) && table.header == old(table.header)
    {
      Lst(key, keyString, elements);
    }

    /** `paint(cc, cond)`: when `cond` holds, the last cell of the last row is
        replaced by its coloured form; `colored` stands for
        `s => ColorString(s, cc).str()`. */
    method Paint(colored: string -> string, cond: bool)
      requires Valid()
      requires cond ==> table.rows != []
      modifies table
      ensures Valid()
      ensures !cond ==> table.rows == old(table.rows)
      ensures cond ==> |table.rows| == |old(table.rows)|
      ensures cond ==> table.rows[..|table.rows| - 1] == old(table.rows)[..|table.rows| - 1]
      ensures cond ==> var last := old(table.rows)[|table.rows| - 1];
        table.rows[|table.rows| - 1] == WithLastCell(last, colored(last.columns[|last.columns| - 1]))
      ensures table.hasHeader == old(table.hasHeader) && table.header == old(table.header)
    {
      if cond {
        var n := |table.rows|;
        var last := table.rows[n - 1];
        var lastval := last.columns[|last.columns| - 1];
        table.rows := table.rows[..n - 1] + [WithLastCell(last, colored(lastval))];
      }
    }
  }

  /** A client: `add("Repos", {"a", "b", "c"})` and then `paint`, using only
      the contracts above. The row shows the count 3 with the three values as
      details, and painting needs nothing beyond a non-empty table. */
  method PropertyTableClient(colored: string -> string)
  {
    var p := new PropertyTable(Ascii);
    p.AddSet("Repos", s => s, ["a", "b", "c"]);
    assert NatToDecimal(3) == "3";
    assert p.table.rows == [Row(["Repos", "3"], ["a", "b", "c"])];
    p.Paint(colored, true);
    assert p.table.rows[0].columns == ["Repos", colored("3")];
    assert p.table.rows == [Row(["Repos", colored("3")], ["a", "b", "c"])];
  }
}
