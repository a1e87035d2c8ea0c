/** Merging the product tables extracted from the documents: the amendment tables are
    stacked in amendment-number order (`concat_avenant_df`), then stacked under the CG/CP
    table and ordered by signature date (`get_df_cpcgav_all`). */
module GptTables {
  import opened Wrappers
  import opened Seqs
  import opened Frames

  const AvenantNumber: string := "avenant_number"
  const SigCp: string := "signature_date_cp"
  const SigAv: string := "signature_date_av"
  /** The helper column the merge sorts on and then drops. */
  const SigAny: string := "signature_date_any"

  // ----- concat_avenant_df -----

  /** `concat_avenant_df`: stacks the tables and sorts by amendment number. pandas refuses an
      empty list, a missing sort column, and a sort column mixing kinds of values. On success
      the result has the union of the columns, as many rows as the inputs together, in
      ascending amendment number. */
  function ConcatAvenantDf(ts: seq<Table>): (r: Result<Table>)
    ensures r.Ok? ==> r.value.columns == AllColumns(ts) && |r.value.rows| == SumRows(ts)
    ensures r.Ok? ==> SortedBy(r.value.rows, AvenantNumber)
  {
    AllRowsCount(ts);
    SortByCorrect(Concat(ts), AvenantNumber);
    if ts == [] then Err(ValueError("No objects to concatenate"))
    else
      var t := Concat(ts);
      if AvenantNumber !in t.columns then Err(KeyError(AvenantNumber))
      else if !Comparable(Column(t, AvenantNumber)) then Err(TypeError("'<' not supported between avenant_number values"))
      else Ok(SortBy(t, AvenantNumber))
  }

  /** The call fails iff the list is empty, no table has an `avenant_number` column, or that
      column mixes numbers, dates and strings. */
  lemma ConcatAvenantDfErrors(ts: seq<Table>)
    ensures ConcatAvenantDf(ts).Err? <==>
      || ts == []
      || (forall k :: 0 <= k < |ts| ==> AvenantNumber !in ts[k].columns)
      || !Comparable(Column(Concat(ts), AvenantNumber))
  {
    AllColumnsMembers(ts, AvenantNumber);
  }

  /** On success the result holds every input row once (over the union of the columns),
      as many rows as the inputs together, in ascending amendment number. */
  lemma ConcatAvenantDfCorrect(ts: seq<Table>)
    requires ConcatAvenantDf(ts).Ok?
    ensures var r := ConcatAvenantDf(ts).value;
      && r.columns == AllColumns(ts)
      && |r.rows| == SumRows(ts)
      && multiset(r.rows) == multiset(Concat(ts).rows)
      && SortedBy(r.rows, AvenantNumber)
      && WellFormed(r)
  {
    AllRowsCount(ts);
    ConcatWellFormed(ts);
    SortByCorrect(Concat(ts), AvenantNumber);
  }

  // ----- get_df_cpcgav_all -----

  /** `.replace("null", pd.NA)` on one cell. */
  function NullToNa(c: Cell): Cell
  {
    if c == Str("null") then Missing else c
  }

  /** `a.combine_first(b)` on one row: `a` unless it is missing. */
  function CombineFirst(a: Cell, b: Cell): Cell
  {
    if a != Missing then a else b
  }

  /** `pd.to_datetime(c, errors="coerce")` on one cell; `toDate` is the date grammar, which
      the model takes as given. */
  function ToStamp(c: Cell, toDate: Cell -> Option<int>): Cell
  {
    if c == Missing then Missing
    else match toDate(c)
      case Some(t) => Stamp(t)
      case None => Missing
  }

  function StampColumn(cells: seq<Cell>, toDate: Cell -> Option<int>): seq<Cell>
  {
    Map(cells, (c: Cell) => ToStamp(c, toDate))
  }

  function CombinedDates(t: Table): seq<Cell>
  {
    seq(|t.rows|, i requires 0 <= i < |t.rows| => CombineFirst(Get(t.rows[i], SigAv), Get(t.rows[i], SigCp)))
  }

  /** The sort key of a merged row: its amendment date if it has one, else its CP date, parsed. */
  function SigKey(r: Row, toDate: Cell -> Option<int>): Cell
  {
    ToStamp(CombineFirst(Get(r, SigAv), Get(r, SigCp)), toDate)
  }

  /** One input row as the merge outputs it: on the union of the columns, "null" dates
      read as missing, and no helper column. */
  function Merged(r: Row, cs: set<string>): Row
  {
    map k | k in cs - {SigAny} :: if k == SigCp || k == SigAv then NullToNa(Get(r, k)) else Get(r, k)
  }

  /** The table just before the sort: both dates normalised and the helper key added. */
  function Keyed(t: Table, toDate: Cell -> Option<int>): Table
    requires SigCp in t.columns && SigAv in t.columns
  {
    var t1 := WithColumn(t, SigCp, Map(Column(t, SigCp), NullToNa));
    var t2 := WithColumn(t1, SigAv, Map(Column(t1, SigAv), NullToNa));
    var t3 := WithColumn(t2, SigAny, CombinedDates(t2));
    WithColumn(t3, SigAny, StampColumn(Column(t3, SigAny), toDate))
  }

  /** `get_df_cpcgav_all` on table values: its only errors are the KeyErrors of the two date
      columns, and on success the helper column is gone. */
  function CpCgAvAllTable(cpcg: Table, av: Table, toDate: Cell -> Option<int>): (r: Result<Table>)
    ensures r.Err? ==> r.error == KeyError(SigCp) || r.error == KeyError(SigAv)
    ensures r.Ok? ==> SigAny !in r.value.columns
  {
    var t := Concat([cpcg, av]);
    if SigCp !in t.columns then Err(KeyError(SigCp))
    else if SigAv !in t.columns then Err(KeyError(SigAv))
    else Ok(DropColumn(SortBy(Keyed(t, toDate), SigAny), SigAny))
  }

  /** Each row before the sort is its merged row plus the helper key computed from it. */
  lemma KeyedRows(t: Table, toDate: Cell -> Option<int>, i: nat)
    requires SigCp in t.columns && SigAv in t.columns && i < |t.rows|
    requires t.rows[i].Keys == ColumnSet(t.columns)
    ensures Keyed(t, toDate).rows[i] - {SigAny} == Merged(t.rows[i], ColumnSet(t.columns))
    ensures Get(Keyed(t, toDate).rows[i], SigAny) == SigKey(Keyed(t, toDate).rows[i] - {SigAny}, toDate)
  {
    var r := t.rows[i];
    var k := Keyed(t, toDate).rows[i];
    var a, p := NullToNa(Get(r, SigAv)), NullToNa(Get(r, SigCp));
    assert k == r[SigCp := p][SigAv := a][SigAny := CombineFirst(a, p)][SigAny := ToStamp(CombineFirst(a, p), toDate)];
  }

  /** The merge fails iff neither input has `signature_date_cp`, or neither has
      `signature_date_av`. */
  lemma CpCgAvAllErrors(cpcg: Table, av: Table, toDate: Cell -> Option<int>)
    ensures CpCgAvAllTable(cpcg, av, toDate).Err? <==>
      || (SigCp !in cpcg.columns && SigCp !in av.columns)
      || (SigAv !in cpcg.columns && SigAv !in av.columns)
  {
    var ts := [cpcg, av];
    var cols := Concat(ts).columns;
    AllColumnsMembers(ts, SigCp);
    AllColumnsMembers(ts, SigAv);
    assert ts[0] == cpcg && ts[1] == av;
    assert SigCp in cols <==> SigCp in cpcg.columns || SigCp in av.columns;
    assert SigAv in cols <==> SigAv in cpcg.columns || SigAv in av.columns;
  }

  function DropKey(x: Row): Row
  {
    x - {SigAny}
  }

  /** Before the sort every row drops to its merged row and carries its own key. */
  lemma KeyedTable(t: Table, toDate: Cell -> Option<int>)
    requires SigCp in t.columns && SigAv in t.columns && WellFormed(t)
    ensures Map(Keyed(t, toDate).rows, DropKey) == Map(t.rows, (x: Row) => Merged(x, ColumnSet(t.columns)))
    ensures forall x :: x in Keyed(t, toDate).rows ==> Get(x, SigAny) == SigKey(DropKey(x), toDate)
  {
    var kt := Keyed(t, toDate);
    forall i | 0 <= i < |kt.rows|
      ensures DropKey(kt.rows[i]) == Merged(t.rows[i], ColumnSet(t.columns))
      ensures Get(kt.rows[i], SigAny) == SigKey(DropKey(kt.rows[i]), toDate)
    {
      assert t.rows[i] in t.rows;
      KeyedRows(t, toDate, i);
    }
  }

  /** The helper column is added at the end unless the table already has one. */
  lemma KeyedColumns(t: Table, toDate: Cell -> Option<int>)
    requires SigCp in t.columns && SigAv in t.columns
    ensures Keyed(t, toDate).columns == if SigAny in t.columns then t.columns else t.columns + [SigAny]
  {
  }

  /** Merging a padded row is merging the row itself. */
  lemma ConcatPairMerged(a: Table, b: Table)
    ensures var cs := ColumnSet(Concat([a, b]).columns);
      Map(Concat([a, b]).rows, (x: Row) => Merged(x, cs)) == Map(a.rows + b.rows, (x: Row) => Merged(x, cs))
  {
    var t := Concat([a, b]);
    var cs := ColumnSet(t.columns);
    AllRowsPair(a, b);
    forall i | 0 <= i < |t.rows| ensures Merged(t.rows[i], cs) == Merged((a.rows + b.rows)[i], cs) {
      var x := (a.rows + b.rows)[i];
      assert t.rows[i] == Restrict(x, cs);
    }
  }

  /** Rows sorted on a key column that each row computes from its other columns stay in
      that order once the key column is dropped. */
  lemma DroppedKeysSorted(s: seq<Row>, toDate: Cell -> Option<int>)
    requires SortedBy(s, SigAny)
    requires forall x :: x in s ==> Get(x, SigAny) == SigKey(DropKey(x), toDate)
    ensures forall i, j :: 0 <= i < j < |s| ==>
      KeyLe(KeyOf(SigKey(Map(s, DropKey)[i], toDate)), KeyOf(SigKey(Map(s, DropKey)[j], toDate)))
  {
    forall i, j | 0 <= i < j < |s|
      ensures KeyLe(KeyOf(SigKey(Map(s, DropKey)[i], toDate)), KeyOf(SigKey(Map(s, DropKey)[j], toDate)))
    {
      assert s[i] in s && s[j] in s;
    }
  }

  /** A property of every row survives a permutation of the rows. */
  lemma KeysSurviveSort(s: seq<Row>, u: seq<Row>, toDate: Cell -> Option<int>)
    requires multiset(s) == multiset(u)
    requires forall x :: x in u ==> Get(x, SigAny) == SigKey(DropKey(x), toDate)
    ensures forall x :: x in s ==> Get(x, SigAny) == SigKey(DropKey(x), toDate)
  {
    forall x | x in s ensures Get(x, SigAny) == SigKey(DropKey(x), toDate) {
      assert x in multiset(u);
    }
  }

  /** On success the merge holds every CG/CP row and every amendment row once, each on the
      union of the columns, with its "null" dates read as missing and without the helper
      column; so it has as many rows as the two inputs. */
  lemma CpCgAvAllRows(cpcg: Table, av: Table, toDate: Cell -> Option<int>)
    requires CpCgAvAllTable(cpcg, av, toDate).Ok?
    ensures var r := CpCgAvAllTable(cpcg, av, toDate).value;
      var cs := ColumnSet(AllColumns([cpcg, av]));
      && multiset(r.rows) == multiset(Map(cpcg.rows + av.rows, (x: Row) => Merged(x, cs)))
      && |r.rows| == |cpcg.rows| + |av.rows|
  {
    var t := Concat([cpcg, av]);
    var cs := ColumnSet(t.columns);
    var kt := Keyed(t, toDate);
    ConcatWellFormed([cpcg, av]);
    AllRowsPair(cpcg, av);
    SortDropPermutation(kt);
    KeyedTable(t, toDate);
    ConcatPairMerged(cpcg, av);
    var merged := Map(cpcg.rows + av.rows, (x: Row) => Merged(x, cs));
    assert Map(kt.rows, DropKey) == merged;
  }

  /** Sorting and then dropping the helper column permutes the rows with the helper dropped. */
  lemma SortDropPermutation(kt: Table)
    ensures multiset(DropColumn(SortBy(kt, SigAny), SigAny).rows) == multiset(Map(kt.rows, DropKey))
    ensures |DropColumn(SortBy(kt, SigAny), SigAny).rows| == |kt.rows|
  {
    var sorted := SortBy(kt, SigAny);
    SortByCorrect(kt, SigAny);
    MapPermutation(sorted.rows, kt.rows, DropKey);
    assert DropColumn(sorted, SigAny).rows == Map(sorted.rows, DropKey);
  }

  /** On success the rows ascend by signature date (the amendment date, else the CP date,
      "null" read as missing, parsed), undated rows last; no row keeps the helper column. */
  lemma CpCgAvAllOrder(cpcg: Table, av: Table, toDate: Cell -> Option<int>)
    requires CpCgAvAllTable(cpcg, av, toDate).Ok?
    ensures var r := CpCgAvAllTable(cpcg, av, toDate).value;
      && (forall i, j :: 0 <= i < j < |r.rows| ==>
            KeyLe(KeyOf(SigKey(r.rows[i], toDate)), KeyOf(SigKey(r.rows[j], toDate))))
      && (forall i :: 0 <= i < |r.rows| ==> SigAny !in r.rows[i])
  {
    var t := Concat([cpcg, av]);
    var kt := Keyed(t, toDate);
    var sorted := SortBy(kt, SigAny);
    ConcatWellFormed([cpcg, av]);
    KeyedTable(t, toDate);
    SortByCorrect(kt, SigAny);
    assert DropColumn(sorted, SigAny).rows == Map(sorted.rows, DropKey);
    KeysSurviveSort(sorted.rows, kt.rows, toDate);
    DroppedKeysSorted(sorted.rows, toDate);
  }

  /** On success the columns are those of the two inputs, in order of appearance, without
      the helper column, and every row has exactly those columns. */
  lemma CpCgAvAllColumns(cpcg: Table, av: Table, toDate: Cell -> Option<int>)
    requires CpCgAvAllTable(cpcg, av, toDate).Ok?
    ensures CpCgAvAllTable(cpcg, av, toDate).value.columns
      == Filter(AllColumns([cpcg, av]), (c: string) => c != SigAny)
    ensures WellFormed(CpCgAvAllTable(cpcg, av, toDate).value)
  {
    var t := Concat([cpcg, av]);
    KeyedColumns(t, toDate);
    FilterAppend(t.columns, [SigAny], (c: string) => c != SigAny);
    ConcatWellFormed([cpcg, av]);
    KeyedWellFormed(t, toDate);
    SortByCorrect(Keyed(t, toDate), SigAny);
    DropColumnWellFormed(SortBy(Keyed(t, toDate), SigAny), SigAny);
  }

  /** Normalising the dates and adding the helper key keeps every row on the table's columns. */
  lemma KeyedWellFormed(t: Table, toDate: Cell -> Option<int>)
    requires SigCp in t.columns && SigAv in t.columns && WellFormed(t)
    ensures WellFormed(Keyed(t, toDate))
  {
    var t1 := WithColumn(t, SigCp, Map(Column(t, SigCp), NullToNa));
    WithColumnWellFormed(t, SigCp, Map(Column(t, SigCp), NullToNa));
    var t2 := WithColumn(t1, SigAv, Map(Column(t1, SigAv), NullToNa));
    WithColumnWellFormed(t1, SigAv, Map(Column(t1, SigAv), NullToNa));
    var t3 := WithColumn(t2, SigAny, CombinedDates(t2));
    WithColumnWellFormed(t2, SigAny, CombinedDates(t2));
    WithColumnWellFormed(t3, SigAny, StampColumn(Column(t3, SigAny), toDate));
  }

  /** `get_df_cpcgav_all`: builds a new merged table; neither input is changed. */
  method GetDfCpCgAvAll(cpcg: DataFrame, av: DataFrame, toDate: Cell -> Option<int>) returns (r: Result<DataFrame>)
    ensures r.Ok? <==> CpCgAvAllTable(cpcg.Value(), av.Value(), toDate).Ok?
    ensures r.Ok? ==> fresh(r.value) && r.value.Value() == CpCgAvAllTable(cpcg.Value(), av.Value(), toDate).value
    ensures r.Err? ==> r.error == CpCgAvAllTable(cpcg.Value(), av.Value(), toDate).error
  {
    var df := new DataFrame(Concat([cpcg.Value(), av.Value()]));
    if SigCp !in df.columns {
      return Err(KeyError(SigCp));
    }
    if SigAv !in df.columns {
      return Err(KeyError(SigAv));
    }
    df.SetColumn(SigCp, Map(df.Col(SigCp), NullToNa));
    df.SetColumn(SigAv, Map(df.Col(SigAv), NullToNa));
    df.SetColumn(SigAny, CombinedDates(df.Value()));
    df.SetColumn(SigAny, StampColumn(df.Col(SigAny), toDate));
    df.SortValues(SigAny);
    df.Drop(SigAny);
    return Ok(df);
  }
}
