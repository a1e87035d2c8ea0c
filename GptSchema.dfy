/** The schema gate of the extraction pipeline: `validate_columns` checks that a table has
    exactly the expected columns, and `rectify_df` writes the string "null" into every
    missing cell and puts the columns in the expected order. */
module GptSchema {
  import opened Wrappers
  import opened Seqs
  import opened Frames

  /** The 62 product columns, in output order. */
  const ColOrder: seq<string> := [
    "company_name", "numero_de_contrat", "signature_date_cg", "signature_date_cp",
    "signature_date_av", "avenant_number", "product_code", "product_name",
    "service_start_date", "duree_de_service", "duree_de_service_notes", "date_end_of_contract",
    "reconduction_tacite", "term_mode", "billing_frequency", "bon_de_commande",
    "bon_de_commande_code", "payment_methods", "payment_terms", "debut_facturation",
    "price_unitaire", "quantity", "quantity_periodicity", "is_volume_product",
    "loyer", "loyer_facturation", "loyer_annuele", "devise_de_facturation",
    "loyer_periodicity", "one_shot_service", "tax_basis", "is_included",
    "usage_overconsumption_price", "usage_overconsumption_periodicity", "usage_term_mode",
    "overconsumption_term_mode", "usage_notes", "billing_modality_notes", "reval_method",
    "reval_rate_per", "reval_formula", "reval_compute_when", "reval_apply_when",
    "reval_apply_from", "reval_source", "evidence_product", "evidence_price",
    "evidence_payment_methods", "evidence_date_end_of_contract", "evidence_avenant",
    "evidence_usage", "evidence_revalorization", "evidence_billing", "evidence_dates",
    "evidence_contract_errors", "confidence_price", "confidence_usage",
    "confidence_revalorization", "confidence_billing", "confidence_dates",
    "confidence_company", "confidence_avenant"
  ]

  /** The text a missing cell becomes. */
  const NullText: Cell := Str("null")

  /** `validate_columns`: fails when a column of the table is not expected or an expected
      column is absent. When it passes, every column is expected and every expected column
      is there; its only error is the "Column mismatch" ValueError. */
  function ValidateColumns(columns: seq<string>, colOrder: seq<string>): (r: Outcome)
    ensures r == Pass ==> forall c :: c in columns <==> c in colOrder
    ensures r.Fail? ==> r.error == ValueError("Column mismatch between df and col_order")
  {
    var dfOnly := Filter(columns, (c: string) => c !in colOrder);
    var expectedOnly := Filter(colOrder, (c: string) => c !in columns);
    if dfOnly != [] || expectedOnly != [] then Fail(ValueError("Column mismatch between df and col_order"))
    else Pass
  }

  /** The check passes iff the table has the same set of columns as expected; anything
      else is the one ValueError. */
  lemma ValidateColumnsIff(columns: seq<string>, colOrder: seq<string>)
    ensures ValidateColumns(columns, colOrder) == Pass <==> ColumnSet(columns) == ColumnSet(colOrder)
    ensures ValidateColumns(columns, colOrder) != Pass
      ==> ValidateColumns(columns, colOrder) == Fail(ValueError("Column mismatch between df and col_order"))
  {
    var dfOnly := Filter(columns, (c: string) => c !in colOrder);
    var expectedOnly := Filter(colOrder, (c: string) => c !in columns);
    assert dfOnly != [] ==> dfOnly[0] in dfOnly;
    assert expectedOnly != [] ==> expectedOnly[0] in expectedOnly;
    assert dfOnly != [] ==> dfOnly[0] in ColumnSet(columns) && dfOnly[0] !in ColumnSet(colOrder);
    assert expectedOnly != [] ==> expectedOnly[0] in ColumnSet(colOrder) && expectedOnly[0] !in ColumnSet(columns);
    if ColumnSet(columns) != ColumnSet(colOrder) {
      if c :| c in ColumnSet(columns) && c !in ColumnSet(colOrder) {
        assert c in dfOnly;
      } else {
        var c :| c in ColumnSet(colOrder) && c !in ColumnSet(columns);
        assert c in expectedOnly;
      }
    }
  }

  /** Only membership is checked: the same columns in another order pass. */
  lemma ValidateColumnsIgnoresOrder()
    ensures ValidateColumns(["price_unitaire", "loyer"], ["loyer", "price_unitaire"]) == Pass
  {
    ValidateColumnsIff(["price_unitaire", "loyer"], ["loyer", "price_unitaire"]);
    ColumnSetSwap("price_unitaire", "loyer");
  }

  /** Only membership is checked: a repeated column passes. */
  lemma ValidateColumnsIgnoresRepeats()
    ensures ValidateColumns(["loyer", "loyer"], ["loyer"]) == Pass
  {
    ValidateColumnsIff(["loyer", "loyer"], ["loyer"]);
    ColumnSetRepeat("loyer");
  }

  lemma ColumnSetSwap(a: string, b: string)
    ensures ColumnSet([a, b]) == ColumnSet([b, a])
  {
    assert ColumnSet([a, b]) == {a, b};
    assert ColumnSet([b, a]) == {a, b};
  }

  lemma ColumnSetRepeat(a: string)
    ensures ColumnSet([a, a]) == ColumnSet([a])
  {
    assert ColumnSet([a, a]) == {a};
    assert ColumnSet([a]) == {a};
  }

  /** `rectify_df` on table values: on success the columns are exactly `col_order` and
      there are as many rows as in the input; its only error is the one `validate_columns`
      raises. The cells are stated by `RectifyTableCorrect`. */
  function RectifyTable(t: Table, colOrder: seq<string>): (r: Result<Table>)
    ensures r.Ok? ==> r.value.columns == colOrder && |r.value.rows| == |t.rows|
    ensures r.Err? ==> r.error == ValueError("Column mismatch between df and col_order")
  {
    match ValidateColumns(t.columns, colOrder)
    case Fail(e) => Err(e)
    case Pass => Ok(Select(FillNa(t, NullText), colOrder))
  }

  /** A rectified table fails exactly when the column sets differ. Otherwise it has the
      expected columns in the expected order and as many rows as before; each of its cells
      holds the row's value, or "null" where that value was missing, so no cell is missing. */
  lemma RectifyTableCorrect(t: Table, colOrder: seq<string>)
    ensures RectifyTable(t, colOrder).Err? <==> ColumnSet(t.columns) != ColumnSet(colOrder)
    ensures RectifyTable(t, colOrder).Ok? ==>
      var r := RectifyTable(t, colOrder).value;
      && r.columns == colOrder
      && |r.rows| == |t.rows|
      && WellFormed(r)
      && (forall i, c :: 0 <= i < |r.rows| && c in colOrder ==>
            Get(r.rows[i], c) == if Get(t.rows[i], c) == Missing then NullText else Get(t.rows[i], c))
      && (forall i, c :: 0 <= i < |r.rows| && c in colOrder ==> Get(r.rows[i], c) != Missing)
  {
    ValidateColumnsIff(t.columns, colOrder);
  }

  /** Rectifying a rectified table changes nothing. */
  lemma RectifyTableIdempotent(t: Table, colOrder: seq<string>)
    requires RectifyTable(t, colOrder).Ok?
    ensures RectifyTable(RectifyTable(t, colOrder).value, colOrder) == RectifyTable(t, colOrder)
  {
    var r := RectifyTable(t, colOrder).value;
    RectifyTableCorrect(t, colOrder);
    ValidateColumnsIff(r.columns, colOrder);
    var cs := ColumnSet(colOrder);
    var r2 := Select(FillNa(r, NullText), colOrder);
    forall i | 0 <= i < |r.rows| ensures r2.rows[i] == r.rows[i] {
      assert r.rows[i] in r.rows;
      FilledRowFixed(r.rows[i], cs);
    }
    assert r2.rows == r.rows;
  }

  /** A row with exactly the columns `cs`, none of them missing, is its own rectified row. */
  lemma FilledRowFixed(row: Row, cs: set<string>)
    requires row.Keys == cs && forall k :: k in cs ==> row[k] != Missing
    ensures Restrict(FillRow(row, cs, NullText), cs) == row
  {
  }

  /** The pipeline's own call: a table holding exactly the 62 product columns, in any order
      and with any repeats, rectifies to a table whose columns are those 62 in output order. */
  lemma RectifyWithColOrder(t: Table)
    requires ColumnSet(t.columns) == ColumnSet(ColOrder)
    ensures RectifyTable(t, ColOrder).Ok?
    ensures RectifyTable(t, ColOrder).value.columns == ColOrder
    ensures |RectifyTable(t, ColOrder).value.columns| == 62
  {
    RectifyTableCorrect(t, ColOrder);
  }

  /** `rectify_df`: works on a copy, which it returns on success; the table passed in is
      not changed. */
  method RectifyDf(df: DataFrame, colOrder: seq<string>) returns (r: Result<DataFrame>)
    ensures r.Ok? <==> RectifyTable(df.Value(), colOrder).Ok?
    ensures r.Ok? ==> fresh(r.value) && r.value.Value() == RectifyTable(df.Value(), colOrder).value
    ensures r.Err? ==> r.error == RectifyTable(df.Value(), colOrder).error
  {
    var out := df.Copy();
    var check := ValidateColumns(out.columns, colOrder);
    if check.Fail? {
      return Err(check.error);
    }
    out.FillNaInPlace(NullText);
    out.SelectColumns(colOrder);
    return Ok(out);
  }
}
