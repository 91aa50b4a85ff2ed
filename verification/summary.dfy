/** The numbers of the final summary table: the principal at the chosen row,
    and for every instrument column its last known value, profit or loss and
    return rate. Formatting into display strings is not part of it. */
module Summary {
  import opened Wrappers

  /** The label of the principal column and of the principal row. */
  const PrincipalLabel: string := "총 적립 원금"

  /** A column of the merged table; `None` stands for a missing value. */
  datatype Column = Column(name: string, values: seq<Option<real>>)

  /** One row of the summary table, with its values kept numeric. */
  datatype SummaryRow = SummaryRow(name: string, principal: real, value: real, profitLoss: real, returnRate: real)

  /** The last non-missing value of a column, if it has one. */
  function LastPresent(values: seq<Option<real>>): (r: Option<real>)
    ensures r.None? <==> forall i :: 0 <= i < |values| ==> values[i].None?
    decreases |values|
  {
    if values == [] then None
    else if values[|values| - 1].Some? then values[|values| - 1]
    else LastPresent(values[..|values| - 1])
  }

  /** The value found is present in the column and every later value is missing. */
  lemma {:induction false} LastPresentIsLast(values: seq<Option<real>>)
    requires LastPresent(values).Some?
    ensures exists i :: 0 <= i < |values| && values[i] == LastPresent(values)
                        && forall j :: i < j < |values| ==> values[j].None?
    decreases |values|
  {
    var last := |values| - 1;
    if values[last].None? {
      var init := values[..last];
      LastPresentIsLast(init);
      var i :| 0 <= i < |init| && init[i] == LastPresent(init)
               && forall j :: i < j < |init| ==> init[j].None?;
      assert values[i] == LastPresent(values);
      assert forall j :: i < j < |values| ==> values[j].None?;
    }
  }

  /** The return rate in percent, zero when there is no positive principal. */
  function ReturnRate(profitLoss: real, principal: real): (rate: real)
    ensures principal > 0.0 ==> rate * principal == profitLoss * 100.0
    ensures principal > 0.0 ==> (rate > 0.0 <==> profitLoss > 0.0) && (rate == 0.0 <==> profitLoss == 0.0)
    ensures principal <= 0.0 ==> rate == 0.0
  {
    if principal > 0.0 then profitLoss / principal * 100.0 else 0.0
  }

  /** The row of one instrument whose last known value is `finalValue`. */
  function InstrumentRow(name: string, finalValue: real, principal: real): (row: SummaryRow)
    ensures row.name == name && row.principal == principal && row.value == finalValue
    ensures row.value == row.principal + row.profitLoss
    ensures row.returnRate == ReturnRate(row.profitLoss, principal)
    ensures finalValue == principal ==> row.profitLoss == 0.0 && row.returnRate == 0.0
  {
    var profitLoss := finalValue - principal;
    SummaryRow(name, principal, finalValue, profitLoss, ReturnRate(profitLoss, principal))
  }

  /** The principal row, present only for a positive principal. */
  function PrincipalRows(principal: real): seq<SummaryRow>
  {
    if principal > 0.0 then [SummaryRow(PrincipalLabel, principal, principal, 0.0, 0.0)] else []
  }

  /** The row a column contributes: none for the principal column and for a
      column without any value. */
  function ColumnRows(c: Column, principal: real): seq<SummaryRow>
  {
    if c.name == PrincipalLabel then []
    else match LastPresent(c.values)
      case None => []
      case Some(v) => [InstrumentRow(c.name, v, principal)]
  }

  /** The instrument rows of `columns`, in column order. */
  function InstrumentRows(columns: seq<Column>, principal: real): seq<SummaryRow>
    decreases |columns|
  {
    if columns == [] then []
    else InstrumentRows(columns[..|columns| - 1], principal) + ColumnRows(columns[|columns| - 1], principal)
  }

  /** At most one row per column; no instrument row carries the principal label,
      and every row is measured against the same principal. */
  lemma {:induction false} InstrumentRowsShape(columns: seq<Column>, principal: real)
    ensures |InstrumentRows(columns, principal)| <= |columns|
    ensures forall r :: r in InstrumentRows(columns, principal) ==>
              r.name != PrincipalLabel && r.principal == principal
              && r.value == principal + r.profitLoss
              && r.returnRate == ReturnRate(r.profitLoss, principal)
    decreases |columns|
  {
    if columns != [] {
      var init := columns[..|columns| - 1];
      InstrumentRowsShape(init, principal);
      forall r | r in InstrumentRows(columns, principal)
        ensures r.name != PrincipalLabel && r.principal == principal
                && r.value == principal + r.profitLoss
                && r.returnRate == ReturnRate(r.profitLoss, principal)
      {
        if r !in InstrumentRows(init, principal) {
          assert r in ColumnRows(columns[|columns| - 1], principal);
        }
      }
    }
  }

  /** No two columns share a name, as a label lookup into the merged table
      needs. */
  predicate DistinctNames(columns: seq<Column>)
  {
    forall a, b :: 0 <= a < b < |columns| ==> columns[a].name != columns[b].name
  }

  /** The whole summary table at row `maxIndex` of the principal series. */
  function SummaryOf(columns: seq<Column>, principal: seq<real>, maxIndex: nat): seq<SummaryRow>
    requires maxIndex < |principal|
  {
    PrincipalRows(principal[maxIndex]) + InstrumentRows(columns, principal[maxIndex])
  }

  /** The summary loop: the principal row first when the principal is positive,
      then one row per instrument column that has a value. */
  method SummarizeTable(columns: seq<Column>, cumulativePrincipal: seq<real>, maxIndex: nat)
    returns (investmentSummary: seq<SummaryRow>)
    requires DistinctNames(columns)
    requires maxIndex < |cumulativePrincipal|
    ensures investmentSummary == SummaryOf(columns, cumulativePrincipal, maxIndex)
  {
    var principal := cumulativePrincipal[maxIndex];
    investmentSummary := [];
    if principal > 0.0 {
      investmentSummary := investmentSummary + [SummaryRow(PrincipalLabel, principal, principal, 0.0, 0.0)];
    }
    for i := 0 to |columns|
      invariant investmentSummary == PrincipalRows(principal) + InstrumentRows(columns[..i], principal)
    {
      SummaryGrows(columns, principal, i, investmentSummary);
      var code := columns[i].name;
      if code == PrincipalLabel {
        continue;
      }
      var series := LastPresent(columns[i].values);
      if series.None? {
        continue;
      }
      var finalValue := series.value;
      var profitLoss := finalValue - principal;
      var returnRate := if principal > 0.0 then profitLoss / principal * 100.0 else 0.0;
      var row := SummaryRow(code, principal, finalValue, profitLoss, returnRate);
      assert row == InstrumentRow(code, finalValue, principal);
      assert ColumnRows(columns[i], principal) == [row];
      investmentSummary := investmentSummary + [row];
    }
    assert columns[..|columns|] == columns;
  }

  /** Appending the rows of column `i` extends the summary of the first `i`
      columns to the summary of the first `i + 1`. */
  lemma SummaryGrows(columns: seq<Column>, principal: real, i: nat, summary: seq<SummaryRow>)
    requires i < |columns|
    requires summary == PrincipalRows(principal) + InstrumentRows(columns[..i], principal)
    ensures summary + ColumnRows(columns[i], principal)
            == PrincipalRows(principal) + InstrumentRows(columns[..i + 1], principal)
  {
    assert columns[..i + 1][..i] == columns[..i];
  }

  /** The principal row appears exactly when the principal is positive, and
      then it is the first row. */
  lemma PrincipalRowIffPositive(columns: seq<Column>, principal: seq<real>, maxIndex: nat)
    requires maxIndex < |principal|
    ensures var rows := SummaryOf(columns, principal, maxIndex);
            (exists k :: 0 <= k < |rows| && rows[k].name == PrincipalLabel) <==> principal[maxIndex] > 0.0
    ensures var rows := SummaryOf(columns, principal, maxIndex);
            principal[maxIndex] > 0.0 ==>
              rows[0] == SummaryRow(PrincipalLabel, principal[maxIndex], principal[maxIndex], 0.0, 0.0)
  {
    var rows := SummaryOf(columns, principal, maxIndex);
    var instrumentRows := InstrumentRows(columns, principal[maxIndex]);
    InstrumentRowsShape(columns, principal[maxIndex]);
    if principal[maxIndex] <= 0.0 {
      assert rows == instrumentRows;
      forall k | 0 <= k < |rows|
        ensures rows[k].name != PrincipalLabel
      {
        assert rows[k] in instrumentRows;
      }
    } else {
      assert rows[0].name == PrincipalLabel;
    }
  }

  /** Every column other than the principal column that has a value gets its
      row, built from its last non-missing value. */
  lemma {:induction false} EveryValuedColumnHasRow(columns: seq<Column>, principal: real, c: nat)
    requires c < |columns|
    requires columns[c].name != PrincipalLabel && LastPresent(columns[c].values).Some?
    ensures InstrumentRow(columns[c].name, LastPresent(columns[c].values).value, principal)
              in InstrumentRows(columns, principal)
    decreases |columns|
  {
    var last := |columns| - 1;
    if c < last {
      EveryValuedColumnHasRow(columns[..last], principal, c);
    }
  }

  /** Every instrument row comes from a column other than the principal column
      that has a value: columns without any value are skipped. */
  lemma {:induction false} EveryRowHasValuedColumn(columns: seq<Column>, principal: real, row: SummaryRow)
    requires row in InstrumentRows(columns, principal)
    ensures exists c :: 0 <= c < |columns| && columns[c].name == row.name && columns[c].name != PrincipalLabel
                        && LastPresent(columns[c].values) == Some(row.value)
    decreases |columns|
  {
    var last := |columns| - 1;
    if row in InstrumentRows(columns[..last], principal) {
      EveryRowHasValuedColumn(columns[..last], principal, row);
      var c :| 0 <= c < last && columns[..last][c].name == row.name && columns[..last][c].name != PrincipalLabel
               && LastPresent(columns[..last][c].values) == Some(row.value);
      assert columns[c] == columns[..last][c];
    } else {
      assert row in ColumnRows(columns[last], principal);
    }
  }

  /** No two rows share a name. */
  predicate RowNamesDistinct(rows: seq<SummaryRow>)
  {
    forall a, b :: 0 <= a < b < |rows| ==> rows[a].name != rows[b].name
  }

  /** With distinct column names, no two instrument rows share a name: one row
      per instrument code. */
  lemma {:induction false} InstrumentRowNamesDistinct(columns: seq<Column>, principal: real)
    requires DistinctNames(columns)
    ensures RowNamesDistinct(InstrumentRows(columns, principal))
    decreases |columns|
  {
    if columns != [] {
      var last := |columns| - 1;
      var init := columns[..last];
      assert DistinctNames(init);
      InstrumentRowNamesDistinct(init, principal);
      forall c | 0 <= c < |init|
        ensures init[c].name != columns[last].name
      {
        assert init[c] == columns[c];
      }
      NoRowWithoutColumn(init, principal, columns[last].name);
      AppendNamedRows(InstrumentRows(init, principal), ColumnRows(columns[last], principal), columns[last].name);
    }
  }

  /** A name that no column carries is carried by no instrument row. */
  lemma NoRowWithoutColumn(columns: seq<Column>, principal: real, name: string)
    requires forall c :: 0 <= c < |columns| ==> columns[c].name != name
    ensures forall r :: r in InstrumentRows(columns, principal) ==> r.name != name
  {
    forall r | r in InstrumentRows(columns, principal)
      ensures r.name != name
    {
      EveryRowHasValuedColumn(columns, principal, r);
    }
  }

  /** Appending at most one row named `name` to rows with distinct names, none
      of them `name`, keeps the names distinct. */
  lemma AppendNamedRows(before: seq<SummaryRow>, added: seq<SummaryRow>, name: string)
    requires RowNamesDistinct(before)
    requires forall r :: r in before ==> r.name != name
    requires |added| <= 1 && forall r :: r in added ==> r.name == name
    ensures RowNamesDistinct(before + added)
  {
    var rows := before + added;
    forall a, b | 0 <= a < b < |rows|
      ensures rows[a].name != rows[b].name
    {
      if b >= |before| {
        assert rows[b] in added;
        assert rows[a] == before[a];
      } else {
        assert rows[a] == before[a] && rows[b] == before[b];
      }
    }
  }
}
