/** The slice of pandas the reconciliation code uses: a table is a list of column names
    and a list of rows, each row a map from column name to cell. A pandas DataFrame gives
    every row every column, which is `WellFormed` here; the index is not modelled. */
module Frames {
  import opened Wrappers
  import opened Seqs

  /** One cell: missing (None, NaN, NaT and pd.NA alike), a string, a number, a boolean,
      or a timestamp produced by `pd.to_datetime`. */
  datatype Cell = Missing | Str(s: string) | Num(x: real) | Flag(b: bool) | Stamp(t: int)

  type Row = map<string, Cell>

  datatype Table = Table(columns: seq<string>, rows: seq<Row>)

  /** `row[c]`, reading an absent column as missing. */
  function Get(r: Row, c: string): Cell
  {
    if c in r then r[c] else Missing
  }

  function ColumnSet(cols: seq<string>): set<string>
  {
    set c | c in cols
  }

  /** Every row has exactly the table's columns. */
  predicate WellFormed(t: Table)
  {
    forall r :: r in t.rows ==> r.Keys == ColumnSet(t.columns)
  }

  /** `df[c]` as a list of cells, one per row. */
  function Column(t: Table, c: string): (r: seq<Cell>)
    ensures |r| == |t.rows|
    ensures forall i :: 0 <= i < |t.rows| ==> r[i] == Get(t.rows[i], c)
  {
    Map(t.rows, (row: Row) => Get(row, c))
  }

  /** `Series.astype(bool)` on one cell (Python truthiness; a missing cell reads as None). */
  function Truthy(c: Cell): bool
  {
    match c
    case Missing => false
    case Str(s) => s != ""
    case Num(x) => x != 0.0
    case Flag(b) => b
    case Stamp(_) => true
  }

  /** `df[c] = vals`: replaces the column, or appends it at the end when it is new. */
  function WithColumn(t: Table, c: string, vals: seq<Cell>): Table
    requires |vals| == |t.rows|
  {
    Table(if c in t.columns then t.columns else t.columns + [c],
          seq(|t.rows|, i requires 0 <= i < |t.rows| => t.rows[i][c := vals[i]]))
  }

  /** `df.loc[mask, c] = vals`: the masked rows take the new value, the others keep theirs. */
  function SetWhere(t: Table, mask: seq<bool>, c: string, vals: seq<Cell>): Table
    requires |mask| == |t.rows| && |vals| == |t.rows|
  {
    WithColumn(t, c, seq(|t.rows|, i requires 0 <= i < |t.rows| => if mask[i] then vals[i] else Get(t.rows[i], c)))
  }

  /** A column of missing cells. */
  function Nulls(n: nat): (r: seq<Cell>)
    ensures |r| == n && forall i :: 0 <= i < n ==> r[i] == Missing
  {
    seq(n, i => Missing)
  }

  /** `df.drop(columns=[c])` */
  function DropColumn(t: Table, c: string): Table
  {
    Table(Filter(t.columns, (x: string) => x != c), Map(t.rows, (r: Row) => r - {c}))
  }

  /** The row restricted to the columns `cs`, absent ones read as missing. */
  function Restrict(r: Row, cs: set<string>): Row
  {
    map k | k in cs :: Get(r, k)
  }

  /** `df[cols]` */
  function Select(t: Table, cols: seq<string>): Table
  {
    Table(cols, Map(t.rows, (r: Row) => Restrict(r, ColumnSet(cols))))
  }

  /** `df.fillna(v)` on one row of a table with columns `cs`. */
  function FillRow(r: Row, cs: set<string>, v: Cell): Row
  {
    map k | k in r.Keys + cs :: if Get(r, k) == Missing then v else Get(r, k)
  }

  /** `df.fillna(v)` */
  function FillNa(t: Table, v: Cell): Table
  {
    Table(t.columns, Map(t.rows, (r: Row) => FillRow(r, ColumnSet(t.columns), v)))
  }

  /** The columns of `a`, then those of `b` that `a` lacks, in order of appearance. */
  function Union(a: seq<string>, b: seq<string>): seq<string>
  {
    a + Filter(b, (x: string) => x !in a)
  }

  function AllColumns(ts: seq<Table>): seq<string>
    decreases |ts|
  {
    if ts == [] then [] else Union(AllColumns(ts[..|ts| - 1]), ts[|ts| - 1].columns)
  }

  function AllRows(ts: seq<Table>): seq<Row>
    decreases |ts|
  {
    if ts == [] then [] else AllRows(ts[..|ts| - 1]) + ts[|ts| - 1].rows
  }

  function SumRows(ts: seq<Table>): nat
    decreases |ts|
  {
    if ts == [] then 0 else SumRows(ts[..|ts| - 1]) + |ts[|ts| - 1].rows|
  }

  /** `pd.concat(ts)`: the rows of every table in turn, over the union of the columns,
      a column a table lacks being missing in its rows. */
  function Concat(ts: seq<Table>): Table
  {
    var cols := AllColumns(ts);
    Table(cols, Map(AllRows(ts), (r: Row) => Restrict(r, ColumnSet(cols))))
  }

  /** A column belongs to the concatenation iff some input table has it. */
  lemma {:induction false} AllColumnsMembers(ts: seq<Table>, c: string)
    ensures c in AllColumns(ts) <==> exists k :: 0 <= k < |ts| && c in ts[k].columns
    decreases |ts|
  {
    if ts != [] {
      var init := ts[..|ts| - 1];
      AllColumnsMembers(init, c);
      if c in AllColumns(init) {
        var k :| 0 <= k < |init| && c in init[k].columns;
        assert ts[k] == init[k];
      }
      if c in AllColumns(ts) && c !in AllColumns(init) {
        assert c in ts[|ts| - 1].columns;
      }
      if exists k :: 0 <= k < |ts| && c in ts[k].columns {
        var k :| 0 <= k < |ts| && c in ts[k].columns;
        if k < |ts| - 1 {
          assert init[k] == ts[k];
        }
      }
    }
  }

  /** The concatenation has as many rows as its inputs together, and they are the inputs'
      rows in order. */
  lemma {:induction false} AllRowsCount(ts: seq<Table>)
    ensures |AllRows(ts)| == SumRows(ts)
    decreases |ts|
  {
    if ts != [] {
      AllRowsCount(ts[..|ts| - 1]);
    }
  }

  lemma AllRowsPair(a: Table, b: Table)
    ensures AllRows([a, b]) == a.rows + b.rows
  {
    assert [a, b][..1] == [a];
    assert [a][..0] == [];
    assert AllRows([a]) == AllRows([]) + a.rows;
    assert AllRows([a, b]) == AllRows([a]) + b.rows;
  }

  /** A concatenation is a table of the pandas kind, whatever its inputs. */
  lemma ConcatWellFormed(ts: seq<Table>)
    ensures WellFormed(Concat(ts))
  {
  }

  /** Replacing or adding a column keeps every row on the table's columns. */
  lemma WithColumnWellFormed(t: Table, c: string, vals: seq<Cell>)
    requires WellFormed(t) && |vals| == |t.rows|
    ensures WellFormed(WithColumn(t, c, vals))
  {
    var t' := WithColumn(t, c, vals);
    assert ColumnSet(t'.columns) == ColumnSet(t.columns) + {c};
    forall r | r in t'.rows ensures r.Keys == ColumnSet(t'.columns) {
      var i :| 0 <= i < |t'.rows| && t'.rows[i] == r;
      assert t.rows[i] in t.rows;
    }
  }

  lemma DropColumnWellFormed(t: Table, c: string)
    requires WellFormed(t)
    ensures WellFormed(DropColumn(t, c))
  {
    var t' := DropColumn(t, c);
    assert ColumnSet(t'.columns) == ColumnSet(t.columns) - {c};
    forall r | r in t'.rows ensures r.Keys == ColumnSet(t'.columns) {
      var i :| 0 <= i < |t'.rows| && t'.rows[i] == r;
      assert t.rows[i] in t.rows;
    }
  }

  // ----- Sort keys -----

  /** A cell as `sort_values` compares it: numbers (booleans as 0 and 1), timestamps and
      strings each among themselves; missing cells go last. */
  datatype Key = Value(x: real) | Time(t: int) | Text(s: string) | Absent

  function KeyOf(c: Cell): Key
  {
    match c
    case Missing => Absent
    case Str(s) => Text(s)
    case Num(x) => Value(x)
    case Flag(b) => Value(if b then 1.0 else 0.0)
    case Stamp(t) => Time(t)
  }

  function Rank(k: Key): nat
  {
    match k
    case Value(_) => 0
    case Time(_) => 1
    case Text(_) => 2
    case Absent => 3
  }

  /** Python's `<=` on strings: code point by code point, a prefix first. */
  predicate StrLe(a: string, b: string)
    decreases |a|
  {
    if a == [] then true
    else if b == [] then false
    else a[0] < b[0] || (a[0] == b[0] && StrLe(a[1..], b[1..]))
  }

  /** The order `sort_values` puts keys in. Keys of different kinds are ordered by kind
      only so that the relation is total; pandas refuses to sort such a column, and the
      callers check for that first. */
  predicate KeyLe(a: Key, b: Key)
  {
    if Rank(a) != Rank(b) then Rank(a) < Rank(b)
    else match a
      case Value(x) => x <= b.x
      case Time(t) => t <= b.t
      case Text(s) => StrLe(s, b.s)
      case Absent => true
  }

  lemma {:induction false} StrLeTotal(a: string, b: string)
    ensures StrLe(a, b) || StrLe(b, a)
    decreases |a|
  {
    if a != [] && b != [] && a[0] == b[0] {
      StrLeTotal(a[1..], b[1..]);
    }
  }

  lemma {:induction false} StrLeTrans(a: string, b: string, c: string)
    requires StrLe(a, b) && StrLe(b, c)
    ensures StrLe(a, c)
    decreases |a|
  {
    if a != [] && b != [] && c != [] && a[0] == b[0] && b[0] == c[0] {
      StrLeTrans(a[1..], b[1..], c[1..]);
    }
  }

  lemma KeyLeTotal(a: Key, b: Key)
    ensures KeyLe(a, b) || KeyLe(b, a)
  {
    if a.Text? && b.Text? {
      StrLeTotal(a.s, b.s);
    }
  }

  lemma KeyLeTrans(a: Key, b: Key, c: Key)
    requires KeyLe(a, b) && KeyLe(b, c)
    ensures KeyLe(a, c)
  {
    if a.Text? && b.Text? && c.Text? {
      StrLeTrans(a.s, b.s, c.s);
    }
  }

  /** The key of one row for a sort on column `c`. */
  function RowKey(r: Row, c: string): Key
  {
    KeyOf(Get(r, c))
  }

  /** Ascending in column `c`, missing cells last. */
  predicate SortedBy(rows: seq<Row>, c: string)
  {
    forall i, j :: 0 <= i < j < |rows| ==> KeyLe(RowKey(rows[i], c), RowKey(rows[j], c))
  }

  /** All non-missing cells of the column can be compared with each other. */
  predicate Comparable(cells: seq<Cell>)
  {
    forall i, j :: 0 <= i < |cells| && 0 <= j < |cells| && cells[i] != Missing && cells[j] != Missing
      ==> Rank(KeyOf(cells[i])) == Rank(KeyOf(cells[j]))
  }

  function Insert(x: Row, s: seq<Row>, c: string): seq<Row>
    decreases |s|
  {
    if s == [] then [x]
    else if KeyLe(RowKey(x, c), RowKey(s[0], c)) then [x] + s
    else [s[0]] + Insert(x, s[1..], c)
  }

  /** The rows in ascending order of column `c`. Only the order and the permutation are
      promised: how equal keys are ordered is left open, as pandas' default sort is not stable. */
  function SortRows(s: seq<Row>, c: string): seq<Row>
    decreases |s|
  {
    if s == [] then [] else Insert(s[0], SortRows(s[1..], c), c)
  }

  /** `df.sort_values(c)` */
  function SortBy(t: Table, c: string): Table
  {
    Table(t.columns, SortRows(t.rows, c))
  }

  lemma {:induction false} InsertPermutation(x: Row, s: seq<Row>, c: string)
    ensures multiset(Insert(x, s, c)) == multiset(s) + multiset{x}
    decreases |s|
  {
    if s != [] && !KeyLe(RowKey(x, c), RowKey(s[0], c)) {
      InsertPermutation(x, s[1..], c);
      assert s == [s[0]] + s[1..];
    }
  }

  /** Inserting adds `x` and nothing else. */
  lemma {:induction false} InsertElements(x: Row, s: seq<Row>, c: string)
    ensures forall y :: y in Insert(x, s, c) ==> y == x || y in s
    decreases |s|
  {
    if s != [] && !KeyLe(RowKey(x, c), RowKey(s[0], c)) {
      InsertElements(x, s[1..], c);
    }
  }

  /** A row at most every row of a sorted sequence can go in front of it. */
  lemma SortedCons(h: Row, s: seq<Row>, c: string)
    requires SortedBy(s, c)
    requires forall y :: y in s ==> KeyLe(RowKey(h, c), RowKey(y, c))
    ensures SortedBy([h] + s, c)
  {
    var r := [h] + s;
    forall i, j | 0 <= i < j < |r| ensures KeyLe(RowKey(r[i], c), RowKey(r[j], c)) {
      if i == 0 {
        assert r[j] == s[j - 1] && s[j - 1] in s;
      } else {
        assert r[i] == s[i - 1] && r[j] == s[j - 1];
      }
    }
  }

  lemma {:induction false} InsertSorted(x: Row, s: seq<Row>, c: string)
    requires SortedBy(s, c)
    ensures SortedBy(Insert(x, s, c), c)
    decreases |s|
  {
    if s == [] {
    } else if KeyLe(RowKey(x, c), RowKey(s[0], c)) {
      forall y | y in s ensures KeyLe(RowKey(x, c), RowKey(y, c)) {
        var j :| 0 <= j < |s| && s[j] == y;
        if j > 0 {
          KeyLeTrans(RowKey(x, c), RowKey(s[0], c), RowKey(y, c));
        }
      }
      SortedCons(x, s, c);
    } else {
      var tail := Insert(x, s[1..], c);
      InsertSorted(x, s[1..], c);
      InsertElements(x, s[1..], c);
      KeyLeTotal(RowKey(x, c), RowKey(s[0], c));
      forall y | y in tail ensures KeyLe(RowKey(s[0], c), RowKey(y, c)) {
        if y != x {
          var m :| 0 <= m < |s[1..]| && s[1..][m] == y;
          assert s[m + 1] == y;
        }
      }
      SortedCons(s[0], tail, c);
    }
  }

  /** Sorting permutes the rows. */
  lemma {:induction false} SortRowsPermutation(s: seq<Row>, c: string)
    ensures multiset(SortRows(s, c)) == multiset(s)
    decreases |s|
  {
    if s != [] {
      SortRowsPermutation(s[1..], c);
      InsertPermutation(s[0], SortRows(s[1..], c), c);
      assert multiset(s) == multiset(s[1..]) + multiset{s[0]} by {
        assert s == [s[0]] + s[1..];
      }
    }
  }

  /** Sorting leaves the rows in ascending order. */
  lemma {:induction false} SortRowsSorted(s: seq<Row>, c: string)
    ensures SortedBy(SortRows(s, c), c)
    decreases |s|
  {
    if s != [] {
      SortRowsSorted(s[1..], c);
      InsertSorted(s[0], SortRows(s[1..], c), c);
    }
  }

  /** `sort_values` keeps the columns, permutes the rows, orders them by the column, and
      keeps the table well formed. */
  lemma SortByCorrect(t: Table, c: string)
    ensures SortBy(t, c).columns == t.columns
    ensures multiset(SortBy(t, c).rows) == multiset(t.rows)
    ensures |SortBy(t, c).rows| == |t.rows|
    ensures SortedBy(SortBy(t, c).rows, c)
    ensures WellFormed(t) ==> WellFormed(SortBy(t, c))
  {
    SortRowsPermutation(t.rows, c);
    SortRowsSorted(t.rows, c);
    var s := SortBy(t, c).rows;
    assert |s| == |multiset(s)| == |multiset(t.rows)| == |t.rows|;
    forall r | r in s ensures r in t.rows {
      assert r in multiset(s);
    }
  }

  /** A pandas DataFrame on which the reconciliation code writes in place. */
  class DataFrame {
    var columns: seq<string>
    var rows: seq<Row>

    function Value(): Table
      reads this
    {
      Table(columns, rows)
    }

    constructor (t: Table)
      ensures Value() == t
    {
      columns := t.columns;
      rows := t.rows;
    }

    /** `df.copy()` */
    method Copy() returns (d: DataFrame)
      ensures fresh(d) && d.Value() == Value()
    {
      d := new DataFrame(Value());
    }

    /** `df[c]` */
    function Col(c: string): seq<Cell>
      reads this
    {
      Column(Value(), c)
    }

    /** `df[c] = vals` */
    method SetColumn(c: string, vals: seq<Cell>)
      requires |vals| == |rows|
      modifies this
      ensures Value() == WithColumn(old(Value()), c, vals)
    {
      var t := WithColumn(Value(), c, vals);
      columns, rows := t.columns, t.rows;
    }

    /** `df.loc[mask, c] = vals` */
    method SetMasked(mask: seq<bool>, c: string, vals: seq<Cell>)
      requires |mask| == |rows| && |vals| == |rows|
      modifies this
      ensures Value() == SetWhere(old(Value()), mask, c, vals)
    {
      var t := SetWhere(Value(), mask, c, vals);
      columns, rows := t.columns, t.rows;
    }

    /** `df = df.drop(columns=[c])` */
    method Drop(c: string)
      modifies this
      ensures Value() == DropColumn(old(Value()), c)
    {
      var t := DropColumn(Value(), c);
      columns, rows := t.columns, t.rows;
    }

    /** `df = df.sort_values(c)` */
    method SortValues(c: string)
      modifies this
      ensures Value() == SortBy(old(Value()), c)
    {
      rows := SortRows(rows, c);
    }

    /** `df = df.fillna(v)` */
    method FillNaInPlace(v: Cell)
      modifies this
      ensures Value() == FillNa(old(Value()), v)
    {
      rows := FillNa(Value(), v).rows;
    }

    /** `df = df[cols]` */
    method SelectColumns(cols: seq<string>)
      modifies this
      ensures Value() == Select(old(Value()), cols)
    {
      var t := Select(Value(), cols);
      columns, rows := t.columns, t.rows;
    }
  }
}
