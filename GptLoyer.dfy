/** `loyer2null`: on one-shot products, a rent (`loyer`) the extraction put where the unit
    price belongs is moved to `price_unitaire`, and the recurring-fee columns are blanked
    unless the product is billed by volume. With `safe_flag` the clean-up first casts the
    two flag columns to booleans and gives up, returning the cast copy, unless each of them
    holds both True and False. */
module GptLoyer {
  import opened Wrappers
  import opened Seqs
  import opened Frames

  const OneShot: string := "one_shot_service"
  const IsVolume: string := "is_volume_product"
  const Price: string := "price_unitaire"
  const Loyer: string := "loyer"
  /** The numeric copy of the price the clean-up adds and drops again. */
  const PriceF: string := "price_unitaire_f"

  /** The recurring-fee columns blanked on one-shot, non-volume rows. */
  const ColsToNull: seq<string> := ["loyer", "loyer_facturation", "loyer_annuele", "billing_frequency", "loyer_periodicity"]

  /** The columns the clean-up reads, in the order it first reads them; a missing one raises
      KeyError at its first read. */
  const Required: seq<string> := [Price, OneShot, Loyer, IsVolume]

  /** `astype(bool)` on one cell. */
  function AsBool(c: Cell): Cell
  {
    Flag(Truthy(c))
  }

  /** The two values of the cast flag column are exactly True and False. */
  predicate HasBoth(cells: seq<Cell>)
  {
    Flag(false) in cells && Flag(true) in cells
  }

  /** Where the safe path goes: it returns `early` at once, or goes on with the cast copy. */
  datatype Gate = Stop(early: Table) | Go(cast: Table)

  /** `df[c] = df[c].astype(bool)`. */
  function Cast(t: Table, c: string): Table
  {
    WithColumn(t, c, Map(Column(t, c), AsBool))
  }

  /** The casts and checks that `safe_flag` adds. A missing flag column raises inside the
      `try`, whose bare `except` returns the copy as cast so far. */
  function SafeGate(t: Table): Gate
  {
    if OneShot !in t.columns then Stop(t)
    else if IsVolume !in Cast(t, OneShot).columns then Stop(Cast(t, OneShot))
    else
      var t2 := Cast(Cast(t, OneShot), IsVolume);
      if HasBoth(Column(t2, OneShot)) && HasBoth(Column(t2, IsVolume)) then Go(t2) else Stop(t2)
  }

  /** `pd.to_numeric(price.replace({"null": nan}), errors="coerce")` on one cell; `toNumber` is
      the number grammar, which the model takes as given. */
  function PriceNumber(c: Cell, toNumber: Cell -> Option<real>): Cell
  {
    if c == Missing || c == Str("null") then Missing
    else match toNumber(c)
      case Some(x) => Num(x)
      case None => Missing
  }

  function PriceColumn(cells: seq<Cell>, toNumber: Cell -> Option<real>): seq<Cell>
  {
    Map(cells, (c: Cell) => PriceNumber(c, toNumber))
  }

  /** One-shot rows with no usable price and a rent. */
  function MoveMask(oneShot: seq<bool>, priceF: seq<Cell>, loyer: seq<Cell>): seq<bool>
    requires |priceF| == |oneShot| && |loyer| == |oneShot|
  {
    seq(|oneShot|, i requires 0 <= i < |oneShot| => oneShot[i] && priceF[i] == Missing && loyer[i] != Missing)
  }

  /** One-shot rows that are not volume products. */
  function NoLoyerMask(oneShot: seq<bool>, volume: seq<Cell>): seq<bool>
    requires |volume| == |oneShot|
  {
    seq(|oneShot|, i requires 0 <= i < |oneShot| => oneShot[i] && !Truthy(volume[i]))
  }

  /** The loop over `cols_to_null`: each listed column the table has is blanked on the masked rows. */
  function NullColumns(t: Table, mask: seq<bool>, cs: seq<string>): (r: Table)
    requires |mask| == |t.rows|
    ensures |r.rows| == |t.rows| && r.columns == t.columns
    decreases |cs|
  {
    if cs == [] then t
    else
      var t' := NullColumns(t, mask, cs[..|cs| - 1]);
      var c := cs[|cs| - 1];
      if c in t'.columns then SetWhere(t', mask, c, Nulls(|t.rows|)) else t'
  }

  /** The first required column the table lacks, if any. */
  function FirstMissing(columns: seq<string>, cs: seq<string>): (r: Option<string>)
    ensures r.None? <==> forall c :: c in cs ==> c in columns
    ensures r.Some? ==> r.value in cs && r.value !in columns
    ensures r.Some? ==> exists i :: 0 <= i < |cs| && cs[i] == r.value && forall j :: 0 <= j < i ==> cs[j] in columns
    decreases |cs|
  {
    if cs == [] then None
    else if cs[0] !in columns then Some(cs[0])
    else FirstMissing(columns, cs[1..])
  }

  /** The numeric copy of the price, as a new column. */
  function WithPriceF(t: Table, toNumber: Cell -> Option<real>): Table
  {
    WithColumn(t, PriceF, PriceColumn(Column(t, Price), toNumber))
  }

  function OneShotMask(t: Table): seq<bool>
  {
    Map(Column(t, OneShot), Truthy)
  }

  /** The rent moved into the price on the rows of the move mask. */
  function Moved(t3: Table): Table
  {
    SetWhere(t3, MoveMask(OneShotMask(t3), Column(t3, PriceF), Column(t3, Loyer)), Price, Column(t3, Loyer))
  }

  /** The clean-up proper, once every required column is there. */
  function Loyer2NullCore(t: Table, toNumber: Cell -> Option<real>): Table
  {
    var t3 := WithPriceF(t, toNumber);
    var t4 := Moved(t3);
    DropColumn(NullColumns(t4, NoLoyerMask(OneShotMask(t3), Column(t4, IsVolume)), ColsToNull), PriceF)
  }

  /** Past the safe check: a KeyError at the first read of a missing column, or the
      clean-up proper. */
  function Proceed(t: Table, toNumber: Cell -> Option<real>): Result<Table>
  {
    match FirstMissing(t.columns, Required)
    case Some(c) => Err(KeyError(c))
    case None => Ok(Loyer2NullCore(t, toNumber))
  }

  /** `loyer2null(df, safe_flag)` on table values: there are as many rows as in the input,
      and its only error is a KeyError naming a column it reads. The rows' contents are
      stated by `Loyer2NullRowwise`. */
  function Loyer2NullTable(t: Table, safe: bool, toNumber: Cell -> Option<real>): (r: Result<Table>)
    ensures r.Ok? ==> |r.value.rows| == |t.rows|
    ensures r.Err? ==> r.error.KeyError? && r.error.key in Required
  {
    if !safe then
      CoreLength(t, toNumber);
      Proceed(t, toNumber)
    else match SafeGate(t)
      case Stop(early) => Ok(early)
      case Go(cast) =>
        SafeGateRows(t);
        CoreLength(cast, toNumber);
        Proceed(cast, toNumber)
  }

  // ----- A reference definition, row by row -----

  /** What the clean-up does to one row: a one-shot row with no usable price and a rent gets
      the rent as its price; a one-shot row that is not a volume product loses its
      recurring fees; the helper column is gone. */
  function FixRow(r: Row, toNumber: Cell -> Option<real>): Row
  {
    var oneShot := Truthy(Get(r, OneShot));
    var move := oneShot && PriceNumber(Get(r, Price), toNumber) == Missing && Get(r, Loyer) != Missing;
    var blank := oneShot && !Truthy(Get(r, IsVolume));
    map k | k in r.Keys - {PriceF} ::
      if blank && k in ColsToNull then Missing
      else if k == Price && move then Get(r, Loyer)
      else r[k]
  }

  /** The row as the clean-up proper sees it: with `safe_flag` its flags are already cast. */
  function Prepared(r: Row, safe: bool): Row
  {
    if safe then r[OneShot := AsBool(Get(r, OneShot))][IsVolume := AsBool(Get(r, IsVolume))] else r
  }

  /** The clean-up goes past the safe check. */
  predicate Proceeds(t: Table, safe: bool)
  {
    !safe || SafeGate(t).Go?
  }

  function NullRow(r: Row, b: bool, cs: seq<string>): Row
  {
    map k | k in r.Keys :: if b && k in cs then Missing else r[k]
  }

  lemma {:induction false} NullColumnsRows(t: Table, mask: seq<bool>, cs: seq<string>)
    requires |mask| == |t.rows| && WellFormed(t)
    ensures forall i :: 0 <= i < |t.rows| ==> NullColumns(t, mask, cs).rows[i] == NullRow(t.rows[i], mask[i], cs)
    decreases |cs|
  {
    if cs != [] {
      var init := cs[..|cs| - 1];
      var c := cs[|cs| - 1];
      NullColumnsRows(t, mask, init);
      var t' := NullColumns(t, mask, init);
      forall i | 0 <= i < |t.rows| ensures NullColumns(t, mask, cs).rows[i] == NullRow(t.rows[i], mask[i], cs) {
        var r := t.rows[i];
        assert r in t.rows;
        assert forall k :: k in cs <==> k in init || k == c;
        if c in t'.columns {
          assert NullColumns(t, mask, cs).rows[i] == t'.rows[i][c := if mask[i] then Missing else Get(t'.rows[i], c)];
        }
      }
    }
  }

  lemma WellFormedMoved(t: Table, toNumber: Cell -> Option<real>)
    requires WellFormed(t)
    ensures WellFormed(WithPriceF(t, toNumber)) && WellFormed(Moved(WithPriceF(t, toNumber)))
  {
    var t3 := WithPriceF(t, toNumber);
    WithColumnWellFormed(t, PriceF, PriceColumn(Column(t, Price), toNumber));
    var mask := MoveMask(OneShotMask(t3), Column(t3, PriceF), Column(t3, Loyer));
    var vals := Column(t3, Loyer);
    WithColumnWellFormed(t3, Price, seq(|t3.rows|, i requires 0 <= i < |t3.rows| => if mask[i] then vals[i] else Get(t3.rows[i], Price)));
  }

  /** The reference row is the row after the clean-up's steps: the helper price added, the
      rent moved, the fees blanked and the helper dropped. */
  lemma FixRowSteps(r: Row, toNumber: Cell -> Option<real>)
    requires forall c :: c in Required ==> c in r
    ensures var pf := PriceNumber(Get(r, Price), toNumber);
      var oneShot := Truthy(Get(r, OneShot));
      var move := oneShot && pf == Missing && Get(r, Loyer) != Missing;
      var r4 := r[PriceF := pf][Price := if move then Get(r, Loyer) else Get(r, Price)];
      NullRow(r4, oneShot && !Truthy(Get(r, IsVolume)), ColsToNull) - {PriceF} == FixRow(r, toNumber)
  {
  }

  /** Row `i` after the move is the row with the helper price added and the rent moved. */
  lemma MovedRow(t: Table, toNumber: Cell -> Option<real>, i: nat)
    requires i < |t.rows|
    ensures var r := t.rows[i];
      var pf := PriceNumber(Get(r, Price), toNumber);
      var move := Truthy(Get(r, OneShot)) && pf == Missing && Get(r, Loyer) != Missing;
      && |Moved(WithPriceF(t, toNumber)).rows| == |t.rows|
      && Moved(WithPriceF(t, toNumber)).rows[i] == r[PriceF := pf][Price := if move then Get(r, Loyer) else Get(r, Price)]
  {
    var t3 := WithPriceF(t, toNumber);
    var r := t.rows[i];
    assert t3.rows[i] == r[PriceF := PriceNumber(Get(r, Price), toNumber)];
    assert OneShotMask(t3)[i] == Truthy(Get(r, OneShot));
  }

  /** Row `i` of the clean-up proper is the reference row. */
  lemma CoreRow(t: Table, toNumber: Cell -> Option<real>, i: nat)
    requires WellFormed(t) && (forall c :: c in Required ==> c in t.columns) && i < |t.rows|
    ensures |Loyer2NullCore(t, toNumber).rows| == |t.rows|
    ensures Loyer2NullCore(t, toNumber).rows[i] == FixRow(t.rows[i], toNumber)
  {
    var t3 := WithPriceF(t, toNumber);
    var t4 := Moved(t3);
    var noLoyer := NoLoyerMask(OneShotMask(t3), Column(t4, IsVolume));
    var r := t.rows[i];
    assert r in t.rows;
    MovedRow(t, toNumber, i);
    assert t3.rows[i] == r[PriceF := PriceNumber(Get(r, Price), toNumber)];
    assert noLoyer[i] == (Truthy(Get(r, OneShot)) && !Truthy(Get(r, IsVolume)));
    WellFormedMoved(t, toNumber);
    NullColumnsRows(t4, noLoyer, ColsToNull);
    FixRowSteps(r, toNumber);
  }

  /** The columns the clean-up proper leaves: the table's, without the helper. */
  lemma CoreColumns(t: Table, toNumber: Cell -> Option<real>)
    requires Price in t.columns
    ensures Loyer2NullCore(t, toNumber).columns == Filter(t.columns, (c: string) => c != PriceF)
  {
    var t3 := WithPriceF(t, toNumber);
    FilterAppend(t.columns, [PriceF], (c: string) => c != PriceF);
    assert t3.columns == t.columns || t3.columns == t.columns + [PriceF];
  }

  /** The cast copy of the safe path is the table with both flags cast, row by row. */
  lemma SafeGateRows(t: Table)
    requires SafeGate(t).Go?
    ensures SafeGate(t).cast.columns == t.columns
    ensures |SafeGate(t).cast.rows| == |t.rows|
    ensures forall i :: 0 <= i < |t.rows| ==> SafeGate(t).cast.rows[i] == Prepared(t.rows[i], true)
  {
    var t1 := Cast(t, OneShot);
    forall i | 0 <= i < |t.rows| ensures SafeGate(t).cast.rows[i] == Prepared(t.rows[i], true) {
      assert t1.rows[i] == t.rows[i][OneShot := AsBool(Get(t.rows[i], OneShot))];
    }
  }

  lemma SafeGateColumns(t: Table)
    requires SafeGate(t).Go?
    ensures SafeGate(t).cast.columns == t.columns
  {
    CastKeeps(t, OneShot, IsVolume);
    CastKeeps(Cast(t, OneShot), IsVolume, OneShot);
  }

  lemma SafeGateWellFormed(t: Table)
    requires SafeGate(t).Go? && WellFormed(t)
    ensures WellFormed(SafeGate(t).cast)
  {
    var t1 := Cast(t, OneShot);
    WithColumnWellFormed(t, OneShot, Map(Column(t, OneShot), AsBool));
    WithColumnWellFormed(t1, IsVolume, Map(Column(t1, IsVolume), AsBool));
  }

  /** Column `c` holds a truthy and a falsy value. */
  predicate Mixed(t: Table, c: string)
  {
    && (exists i :: 0 <= i < |t.rows| && Truthy(Get(t.rows[i], c)))
    && (exists i :: 0 <= i < |t.rows| && !Truthy(Get(t.rows[i], c)))
  }

  lemma CastColumn(t: Table, c: string)
    ensures Column(Cast(t, c), c) == Map(Column(t, c), AsBool)
    ensures HasBoth(Map(Column(t, c), AsBool)) <==> Mixed(t, c)
  {
    var a := Map(Column(t, c), AsBool);
    assert forall i :: 0 <= i < |t.rows| ==> a[i] == AsBool(Get(t.rows[i], c));
  }

  lemma CastKeeps(t: Table, c: string, other: string)
    requires other != c
    ensures Column(Cast(t, c), other) == Column(t, other)
    ensures Cast(t, c).columns == t.columns || Cast(t, c).columns == t.columns + [c]
  {
  }

  /** The safe path goes on iff both flag columns exist and each holds a truthy and a falsy
      value. */
  lemma SafeGateIff(t: Table)
    ensures SafeGate(t).Go? <==> OneShot in t.columns && IsVolume in t.columns && Mixed(t, OneShot) && Mixed(t, IsVolume)
  {
    if OneShot in t.columns && IsVolume in t.columns {
      var t1 := Cast(t, OneShot);
      CastColumn(t, OneShot);
      CastColumn(t, IsVolume);
      CastKeeps(t, OneShot, IsVolume);
      CastKeeps(t1, IsVolume, OneShot);
      CastColumn(t1, IsVolume);
    } else if OneShot in t.columns {
      CastKeeps(t, OneShot, IsVolume);
    }
  }

  /** When the safe check gives up, the copy comes back with the same rows and columns, and
      every cell outside the two flag columns (prices and rents included) unchanged. */
  lemma SafeEarlyReturn(t: Table, toNumber: Cell -> Option<real>)
    requires !SafeGate(t).Go?
    ensures Loyer2NullTable(t, true, toNumber).Ok?
    ensures var r := Loyer2NullTable(t, true, toNumber).value;
      && r.columns == t.columns
      && |r.rows| == |t.rows|
      && forall i, c :: 0 <= i < |t.rows| && c != OneShot && c != IsVolume ==> Get(r.rows[i], c) == Get(t.rows[i], c)
  {
  }

  /** The clean-up raises iff it goes past the safe check and a column it reads is missing;
      the KeyError names the first one it reads. */
  lemma Loyer2NullErrors(t: Table, safe: bool, toNumber: Cell -> Option<real>)
    ensures Loyer2NullTable(t, safe, toNumber).Err? <==>
      Proceeds(t, safe) && exists c :: c in Required && c !in t.columns
    ensures Loyer2NullTable(t, safe, toNumber).Err? ==>
      Loyer2NullTable(t, safe, toNumber).error == KeyError(FirstMissing(t.columns, Required).value)
  {
    if safe && SafeGate(t).Go? {
      SafeGateColumns(t);
    }
  }

  /** Past the safe check, the clean-up keeps the row count and order and the columns (less
      the helper), and row by row does what the reference row does. */
  lemma Loyer2NullRowwise(t: Table, safe: bool, toNumber: Cell -> Option<real>)
    requires WellFormed(t) && Proceeds(t, safe) && Loyer2NullTable(t, safe, toNumber).Ok?
    ensures var r := Loyer2NullTable(t, safe, toNumber).value;
      && |r.rows| == |t.rows|
      && r.columns == Filter(t.columns, (c: string) => c != PriceF)
      && forall i :: 0 <= i < |t.rows| ==> r.rows[i] == FixRow(Prepared(t.rows[i], safe), toNumber)
  {
    var t2 := Gated(t, safe);
    GatedTable(t, safe, toNumber);
    CoreColumns(t2, toNumber);
    CoreLength(t2, toNumber);
    forall i | 0 <= i < |t.rows| ensures Loyer2NullCore(t2, toNumber).rows[i] == FixRow(Prepared(t.rows[i], safe), toNumber) {
      CoreRow(t2, toNumber, i);
    }
  }

  /** Every row of the result has exactly the result's columns, on the early return as past
      the safe check. */
  lemma Loyer2NullWellFormed(t: Table, safe: bool, toNumber: Cell -> Option<real>)
    requires WellFormed(t) && Loyer2NullTable(t, safe, toNumber).Ok?
    ensures WellFormed(Loyer2NullTable(t, safe, toNumber).value)
  {
    if Proceeds(t, safe) {
      var t2 := Gated(t, safe);
      GatedTable(t, safe, toNumber);
      CoreWellFormed(t2, toNumber);
    } else if OneShot in t.columns {
      WithColumnWellFormed(t, OneShot, Map(Column(t, OneShot), AsBool));
      var t1 := Cast(t, OneShot);
      if IsVolume in t1.columns {
        WithColumnWellFormed(t1, IsVolume, Map(Column(t1, IsVolume), AsBool));
      }
    }
  }

  /** The clean-up proper keeps every row on the table's columns. */
  lemma CoreWellFormed(t: Table, toNumber: Cell -> Option<real>)
    requires WellFormed(t) && (forall c :: c in Required ==> c in t.columns)
    ensures WellFormed(Loyer2NullCore(t, toNumber))
  {
    var r := Loyer2NullCore(t, toNumber);
    var cs := ColumnSet(r.columns);
    CoreColumns(t, toNumber);
    assert cs == ColumnSet(t.columns) - {PriceF};
    forall x | x in r.rows ensures x.Keys == cs {
      var i :| 0 <= i < |r.rows| && r.rows[i] == x;
      CoreRowKeys(t, toNumber, i);
    }
  }

  lemma CoreRowKeys(t: Table, toNumber: Cell -> Option<real>, i: nat)
    requires WellFormed(t) && (forall c :: c in Required ==> c in t.columns) && i < |t.rows|
    ensures i < |Loyer2NullCore(t, toNumber).rows|
    ensures Loyer2NullCore(t, toNumber).rows[i].Keys == ColumnSet(t.columns) - {PriceF}
  {
    CoreRow(t, toNumber, i);
    assert t.rows[i] in t.rows;
  }

  /** The table the clean-up proper works on. */
  function Gated(t: Table, safe: bool): Table
    requires Proceeds(t, safe)
  {
    if safe then SafeGate(t).cast else t
  }

  lemma GatedTable(t: Table, safe: bool, toNumber: Cell -> Option<real>)
    requires WellFormed(t) && Proceeds(t, safe) && Loyer2NullTable(t, safe, toNumber).Ok?
    ensures Loyer2NullTable(t, safe, toNumber) == Ok(Loyer2NullCore(Gated(t, safe), toNumber))
    ensures forall c :: c in Required ==> c in Gated(t, safe).columns
    ensures WellFormed(Gated(t, safe)) && Gated(t, safe).columns == t.columns
    ensures |Gated(t, safe).rows| == |t.rows|
    ensures forall i :: 0 <= i < |t.rows| ==> Gated(t, safe).rows[i] == Prepared(t.rows[i], safe)
  {
    if safe {
      SafeGateRows(t);
      SafeGateWellFormed(t);
    }
  }

  lemma CoreLength(t: Table, toNumber: Cell -> Option<real>)
    ensures |Loyer2NullCore(t, toNumber).rows| == |t.rows|
  {
  }


  /** Casting the flags changes no other cell and no flag's truth value. */
  lemma PreparedReads(r: Row, safe: bool)
    ensures forall c :: c != OneShot && c != IsVolume ==> Get(Prepared(r, safe), c) == Get(r, c)
    ensures Truthy(Get(Prepared(r, safe), OneShot)) == Truthy(Get(r, OneShot))
    ensures Truthy(Get(Prepared(r, safe), IsVolume)) == Truthy(Get(r, IsVolume))
  {
  }

  /** A one-shot row with no usable price and a rent takes the rent as its price, and the
      blanking that follows does not undo it; any other row keeps its price. */
  lemma FixRowMovesRent(r: Row, safe: bool, toNumber: Cell -> Option<real>)
    requires Price in r
    ensures var move := Truthy(Get(r, OneShot)) && PriceNumber(Get(r, Price), toNumber) == Missing && Get(r, Loyer) != Missing;
      Get(FixRow(Prepared(r, safe), toNumber), Price) == if move then Get(r, Loyer) else Get(r, Price)
  {
    PreparedReads(r, safe);
    assert Price in Prepared(r, safe);
  }

  /** A one-shot row that is not a volume product has every recurring-fee column blank. */
  lemma FixRowBlanksFees(r: Row, safe: bool, toNumber: Cell -> Option<real>)
    requires Truthy(Get(r, OneShot)) && !Truthy(Get(r, IsVolume))
    ensures forall c :: c in ColsToNull && c in r ==> Get(FixRow(Prepared(r, safe), toNumber), c) == Missing
  {
    PreparedReads(r, safe);
  }

  /** A one-shot volume product keeps its recurring fees. */
  lemma FixRowKeepsVolumeFees(r: Row, safe: bool, toNumber: Cell -> Option<real>)
    requires Truthy(Get(r, IsVolume))
    ensures forall c :: c in ColsToNull ==> Get(FixRow(Prepared(r, safe), toNumber), c) == Get(r, c)
  {
    PreparedReads(r, safe);
    forall c | c in ColsToNull ensures Get(FixRow(Prepared(r, safe), toNumber), c) == Get(r, c) {
      assert c != Price && c != PriceF && c != OneShot && c != IsVolume;
    }
  }

  /** The row keeps its columns but the helper, and every cell outside the price, the fees
      and the flags; a row that is not one-shot changes nowhere but in its cast flags. */
  lemma FixRowKeepsOthers(r: Row, safe: bool, toNumber: Cell -> Option<real>)
    ensures FixRow(Prepared(r, safe), toNumber).Keys == Prepared(r, safe).Keys - {PriceF}
    ensures forall c :: c !in ColsToNull && c != Price && c != PriceF && c != OneShot && c != IsVolume ==>
      Get(FixRow(Prepared(r, safe), toNumber), c) == Get(r, c)
    ensures !Truthy(Get(r, OneShot)) ==> FixRow(Prepared(r, safe), toNumber) == Prepared(r, safe) - {PriceF}
  {
    PreparedReads(r, safe);
  }

  /** A rectified table writes "null" into a missing flag, and the string "null" is truthy:
      a row whose one-shot flag was missing is then cleaned as a one-shot row and loses its rent. */
  lemma NullTextCountsAsOneShot(toNumber: Cell -> Option<real>)
    ensures var row := map[OneShot := Str("null"), IsVolume := Flag(false), Price := Num(10.0), Loyer := Num(12.0)];
      Get(FixRow(row, toNumber), Loyer) == Missing
  {
    var row := map[OneShot := Str("null"), IsVolume := Flag(false), Price := Num(10.0), Loyer := Num(12.0)];
    FixRowBlanksFees(row, false, toNumber);
    assert Loyer in ColsToNull && Loyer in row;
  }

  /** The loop over `cols_to_null`, in place: `df.loc[mask, c] = None` for each listed
      column the table has. */
  method NullColumnsInPlace(d: DataFrame, mask: seq<bool>, cs: seq<string>)
    requires |mask| == |d.rows|
    modifies d
    ensures d.Value() == NullColumns(old(d.Value()), mask, cs)
  {
    ghost var t := d.Value();
    var k := 0;
    while k < |cs|
      invariant 0 <= k <= |cs|
      invariant d.Value() == NullColumns(t, mask, cs[..k])
    {
      var c := cs[k];
      if c in d.columns {
        d.SetMasked(mask, c, Nulls(|d.rows|));
      }
      assert cs[..k + 1][..k] == cs[..k];
      k := k + 1;
    }
    assert cs[..k] == cs;
  }

  /** The `safe_flag` block, in place: casts the flags and reports whether the clean-up
      goes on; when it does not, the table is the one returned. */
  method SafeGateInPlace(d: DataFrame) returns (go: bool)
    modifies d
    ensures go == SafeGate(old(d.Value())).Go?
    ensures go ==> d.Value() == SafeGate(old(d.Value())).cast
    ensures !go ==> d.Value() == SafeGate(old(d.Value())).early
  {
    if OneShot !in d.columns {
      return false;
    }
    d.SetColumn(OneShot, Map(d.Col(OneShot), AsBool));
    if IsVolume !in d.columns {
      return false;
    }
    d.SetColumn(IsVolume, Map(d.Col(IsVolume), AsBool));
    go := HasBoth(d.Col(OneShot)) && HasBoth(d.Col(IsVolume));
  }

  /** The clean-up proper, in place. */
  method CoreInPlace(d: DataFrame, toNumber: Cell -> Option<real>)
    modifies d
    ensures d.Value() == Loyer2NullCore(old(d.Value()), toNumber)
  {
    d.SetColumn(PriceF, PriceColumn(d.Col(Price), toNumber));
    var oneShot := Map(d.Col(OneShot), Truthy);
    var loyer := d.Col(Loyer);
    d.SetMasked(MoveMask(oneShot, d.Col(PriceF), loyer), Price, loyer);
    var noLoyer := NoLoyerMask(oneShot, d.Col(IsVolume));
    NullColumnsInPlace(d, noLoyer, ColsToNull);
    d.Drop(PriceF);
  }

  /** Past the safe check, on the copy: the KeyError, or the clean-up proper in place. */
  method ProceedInPlace(d: DataFrame, toNumber: Cell -> Option<real>) returns (r: Result<DataFrame>)
    modifies d
    ensures r.Ok? <==> Proceed(old(d.Value()), toNumber).Ok?
    ensures r.Ok? ==> r.value == d && d.Value() == Proceed(old(d.Value()), toNumber).value
    ensures r.Err? ==> r.error == Proceed(old(d.Value()), toNumber).error
  {
    var missing := FirstMissing(d.columns, Required);
    if missing.Some? {
      return Err(KeyError(missing.value));
    }
    CoreInPlace(d, toNumber);
    return Ok(d);
  }

  /** `loyer2null`: works on a copy, which it returns; the table passed in is not changed.
      A KeyError is raised at the first read of a missing column; the copy it would leave
      half-cleaned is discarded, so the check is made before the first write. */
  method Loyer2Null(df: DataFrame, safe: bool, toNumber: Cell -> Option<real>) returns (r: Result<DataFrame>)
    ensures r.Ok? <==> Loyer2NullTable(df.Value(), safe, toNumber).Ok?
    ensures r.Ok? ==> fresh(r.value) && r.value.Value() == Loyer2NullTable(df.Value(), safe, toNumber).value
    ensures r.Err? ==> r.error == Loyer2NullTable(df.Value(), safe, toNumber).error
  {
    var d := df.Copy();
    if safe {
      var go := SafeGateInPlace(d);
      if !go {
        return Ok(d);
      }
    }
    r := ProceedInPlace(d, toNumber);
  }
}
