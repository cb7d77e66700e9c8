/**
  The feet/inch calculation dialog: a table of rows (feet, inch, nos) with
  derived running feet, square feet and weight rounded to hundredths, and
  running column totals handed back on save.

  The change handler registered for every row recomputes the row at
  `length - 1` at the moment of the change, i.e. the last row, whichever
  row was edited; `Edit` keeps that behaviour and `EditCorrected` is the
  evidently intended one.
 */
module SqFeetDialog {

  import opened Forms
  import opened Rounding
  import PC = ProductCalculation

  /** One table row: three inputs and three read-only derived values. */
  datatype Row = Row(
    feet: Field, inch: Field, nos: Field,
    runningFeet: real, sqFeet: real, weight: real)

  /** The dialog: the product's weight per running foot, the rows and the displayed totals. */
  datatype Dialog = Dialog(productWeight: real, rows: seq<Row>, totals: PC.Totals)

  /** The editable inputs of a row. */
  datatype Input = Feet | Inch | Nos

  /** A row as `addRow` creates it. */
  const NewRow: Row := Row(Num(0.0), Num(0.0), Num(1.0), 0.0, 0.0, 0.0)

  /** The inputs pass their validators: feet and inch required and ≥ 0, nos required and ≥ 1. */
  predicate RowValid(row: Row) {
    RequiredAtLeast(row.feet, 0.0) && RequiredAtLeast(row.inch, 0.0) && RequiredAtLeast(row.nos, 1.0)
  }

  predicate AllValid(rows: seq<Row>) {
    forall j :: 0 <= j < |rows| ==> RowValid(rows[j])
  }

  /** Running feet before rounding, from the inputs as `|| 0` and `|| 1` read them. */
  function RawRunningFeet(row: Row): real {
    PC.RunningFeet(OrZero(row.feet), OrZero(row.inch), OrOne(row.nos))
  }

  /**
    `calculateRow` on one row: the dialog spells out the service's formulas
    (inches and back to feet, times 3.5, times the product weight) and rounds
    each derived value to hundredths.
   */
  function Derive(row: Row, productWeight: real): (r: Row)
    ensures r.feet == row.feet && r.inch == row.inch && r.nos == row.nos
    ensures var raw := RawRunningFeet(row);
            && raw - 0.005 <= r.runningFeet <= raw + 0.005
            && PC.SqFeet(raw) - 0.005 <= r.sqFeet <= PC.SqFeet(raw) + 0.005
            && PC.Weight(raw, productWeight) - 0.005 <= r.weight <= PC.Weight(raw, productWeight) + 0.005
  {
    var runningFeet := RawRunningFeet(row);
    row.(runningFeet := Round2(runningFeet),
         sqFeet := Round2(PC.SqFeet(runningFeet)),
         weight := Round2(PC.Weight(runningFeet, productWeight)))
  }

  /** Valid inputs and a non-negative product weight give non-negative derived values. */
  lemma DeriveNonNegative(row: Row, productWeight: real)
    requires RowValid(row) && productWeight >= 0.0
    ensures var r := Derive(row, productWeight);
            r.runningFeet >= 0.0 && r.sqFeet >= 0.0 && r.weight >= 0.0
  {
  }

  /** Recomputing a recomputed row changes nothing: the derived values read the inputs only. */
  lemma DeriveIdempotent(row: Row, productWeight: real)
    ensures Consistent(Derive(row, productWeight), productWeight)
  {
    SameInputsSameRaw(row, Derive(row, productWeight));
  }

  lemma SameInputsSameRaw(a: Row, b: Row)
    requires a.feet == b.feet && a.inch == b.inch && a.nos == b.nos
    ensures RawRunningFeet(a) == RawRunningFeet(b)
  {
  }

  /** The row's derived values agree with its inputs. */
  predicate Consistent(row: Row, productWeight: real) {
    Derive(row, productWeight) == row
  }

  predicate AllConsistent(d: Dialog) {
    forall j :: 0 <= j < |d.rows| ==> Consistent(d.rows[j], d.productWeight)
  }

  /** What the totals reducer reads from a row: inputs with `|| 0`, so a missing nos counts 0. */
  function AsCalculation(row: Row): PC.Calculation {
    PC.Calculation(OrZero(row.feet), OrZero(row.inch), OrZero(row.nos),
                   row.runningFeet, row.sqFeet, row.weight)
  }

  function AsCalculations(rows: seq<Row>): (r: seq<PC.Calculation>)
    ensures |r| == |rows|
    ensures forall j :: 0 <= j < |rows| ==> r[j] == AsCalculation(rows[j])
  {
    seq(|rows|, j requires 0 <= j < |rows| => AsCalculation(rows[j]))
  }

  /** `calculateTotals`: a left fold over the rows. */
  function TotalsOf(rows: seq<Row>): (t: PC.Totals)
    ensures |rows| == 0 ==> t == PC.ZeroTotals
    ensures (forall j :: 0 <= j < |rows| ==> PC.NonNegativeRow(AsCalculation(rows[j]))) ==>
              PC.NonNegativeTotals(t)
  {
    if |rows| == 0 then PC.ZeroTotals
    else
      var last := |rows| - 1;
      var acc := TotalsOf(rows[..last]);
      var row := rows[last];
      PC.Totals(acc.totalFeet + OrZero(row.feet),
                acc.totalInch + OrZero(row.inch),
                acc.totalNos + OrZero(row.nos),
                acc.totalRunningFeet + row.runningFeet,
                acc.totalSqFeet + row.sqFeet,
                acc.totalWeight + row.weight)
  }

  /** The reducer reads each row as a service calculation row would be summed. */
  lemma {:induction false} TotalsOfMatchesService(rows: seq<Row>)
    ensures TotalsOf(rows) == PC.CalculateTotals(AsCalculations(rows))
  {
    if |rows| > 0 {
      var last := |rows| - 1;
      assert AsCalculations(rows)[..last] == AsCalculations(rows[..last]);
      TotalsOfMatchesService(rows[..last]);
    }
  }

  /** The displayed totals are those of the current rows. */
  predicate TotalsFresh(d: Dialog) {
    d.totals == TotalsOf(d.rows)
  }

  /** `initForm`: one new row; the totals keep their initial zeros. */
  function Init(productWeight: real): (d: Dialog)
    ensures |d.rows| == 1 && RowValid(d.rows[0])
    ensures d.rows[0] == NewRow && d.productWeight == productWeight
    ensures d.rows[0].feet == Num(0.0) && d.rows[0].inch == Num(0.0) && d.rows[0].nos == Num(1.0)
    ensures d.totals == PC.ZeroTotals
  {
    AddRow(Dialog(productWeight, [], PC.ZeroTotals))
  }

  /** `addRow`: appends a new row; pushing a row does not recompute the totals. */
  function AddRow(d: Dialog): (r: Dialog)
    ensures |r.rows| == |d.rows| + 1 && r.rows[..|d.rows|] == d.rows
    ensures RowValid(r.rows[|d.rows|]) && r.rows[|d.rows|] == NewRow
    ensures r.totals == d.totals && r.productWeight == d.productWeight
  {
    d.(rows := d.rows + [NewRow])
  }

  /** `removeRow`: removes the row, with no minimum, and recomputes the totals. */
  function RemoveRow(d: Dialog, index: nat): (r: Dialog)
    ensures TotalsFresh(r) && r.productWeight == d.productWeight
    ensures r.rows == RemoveAt(d.rows, index)
    ensures index < |d.rows| ==>
              |r.rows| == |d.rows| - 1 &&
              PC.AddTotals(r.totals, PC.RowTotals(AsCalculation(d.rows[index]))) == TotalsOf(d.rows)
    ensures index >= |d.rows| ==> r.rows == d.rows
    ensures |d.rows| == 1 && index == 0 ==> r.rows == [] && r.totals == PC.ZeroTotals
  {
    var rows := RemoveAt(d.rows, index);
    RemovedRowTotals(d.rows, index);
    d.(rows := rows, totals := TotalsOf(rows))
  }

  /** Removing a row subtracts exactly its contribution from the totals. */
  lemma RemovedRowTotals(rows: seq<Row>, index: nat)
    ensures index < |rows| ==>
              PC.AddTotals(TotalsOf(RemoveAt(rows, index)), PC.RowTotals(AsCalculation(rows[index])))
              == TotalsOf(rows)
  {
    if index < |rows| {
      TotalsOfMatchesService(rows);
      TotalsOfMatchesService(RemoveAt(rows, index));
      PC.TotalsRemoveAt(AsCalculations(rows), index);
      AsCalculationsRemoveAt(rows, index);
    }
  }

  lemma AsCalculationsRemoveAt(rows: seq<Row>, index: nat)
    ensures AsCalculations(RemoveAt(rows, index)) == RemoveAt(AsCalculations(rows), index)
  {
  }

  /** `calculateRow(index)`: recomputes that row's derived values, then the totals. */
  function CalculateRow(d: Dialog, index: nat): (r: Dialog)
    requires index < |d.rows|
    ensures |r.rows| == |d.rows| && r.productWeight == d.productWeight
    ensures r.rows[index] == Derive(d.rows[index], d.productWeight)
    ensures Consistent(r.rows[index], d.productWeight)
    ensures forall j :: 0 <= j < |d.rows| && j != index ==> r.rows[j] == d.rows[j]
    ensures TotalsFresh(r)
  {
    var row := Derive(d.rows[index], d.productWeight);
    DeriveIdempotent(d.rows[index], d.productWeight);
    var rows := d.rows[index := row];
    d.(rows := rows, totals := TotalsOf(rows))
  }

  /** Writes one input of a row, leaving its derived values as they were. */
  function SetInput(row: Row, input: Input, v: Field): Row {
    match input
    case Feet => row.(feet := v)
    case Inch => row.(inch := v)
    case Nos => row.(nos := v)
  }

  /** A value change in row `index`: the row's handler recomputes the last row. */
  function Edit(d: Dialog, index: nat, input: Input, v: Field): (r: Dialog)
    requires index < |d.rows|
    ensures |r.rows| == |d.rows| && r.productWeight == d.productWeight
    ensures Consistent(r.rows[|r.rows| - 1], d.productWeight)
    ensures var last := |d.rows| - 1;
            r.rows[last] == Derive(if index == last then SetInput(d.rows[index], input, v) else d.rows[last],
                                   d.productWeight)
    ensures index < |d.rows| - 1 ==> r.rows[index] == SetInput(d.rows[index], input, v)
    ensures index < |d.rows| - 1 ==> r.rows[index].runningFeet == d.rows[index].runningFeet
    ensures forall j :: 0 <= j < |d.rows| - 1 && j != index ==> r.rows[j] == d.rows[j]
    ensures TotalsFresh(r)
  {
    var rows := d.rows[index := SetInput(d.rows[index], input, v)];
    CalculateRow(d.(rows := rows), |rows| - 1)
  }

  /** The change recomputes the edited row itself. */
  function EditCorrected(d: Dialog, index: nat, input: Input, v: Field): (r: Dialog)
    requires index < |d.rows|
    ensures |r.rows| == |d.rows| && r.productWeight == d.productWeight
    ensures r.rows[index] == Derive(SetInput(d.rows[index], input, v), d.productWeight)
    ensures r.rows[index].runningFeet == Round2(RawRunningFeet(SetInput(d.rows[index], input, v)))
    ensures forall j :: 0 <= j < |d.rows| && j != index ==> r.rows[j] == d.rows[j]
    ensures AllConsistent(d) ==> AllConsistent(r)
    ensures TotalsFresh(r)
  {
    var rows := d.rows[index := SetInput(d.rows[index], input, v)];
    CalculateRow(d.(rows := rows), index)
  }

  /** On a dialog whose rows are all up to date, `calculateRow` changes nothing. */
  lemma CalculateRowOnConsistent(d: Dialog, index: nat)
    requires index < |d.rows| && AllConsistent(d) && TotalsFresh(d)
    ensures CalculateRow(d, index) == d
  {
    assert CalculateRow(d, index).rows == d.rows;
  }

  /** Recomputing the same row twice is recomputing it once. */
  lemma CalculateRowIdempotent(d: Dialog, index: nat)
    requires index < |d.rows|
    ensures CalculateRow(CalculateRow(d, index), index) == CalculateRow(d, index)
  {
    var once := CalculateRow(d, index);
    assert CalculateRow(once, index).rows == once.rows;
  }

  /** For the last row the handler's `length - 1` is the edited row, so the two agree. */
  lemma EditLastRowIsCorrect(d: Dialog, input: Input, v: Field)
    requires |d.rows| > 0
    ensures Edit(d, |d.rows| - 1, input, v) == EditCorrected(d, |d.rows| - 1, input, v)
  {
  }

  /** `onSave`: hands back the totals when every row is valid, otherwise nothing. */
  function Save(d: Dialog): (r: Option<PC.Totals>)
    ensures r.Some? <==> AllValid(d.rows)
    ensures r.Some? ==> r.value == d.totals
  {
    if AllValid(d.rows) then Some(d.totals) else None
  }

  /** A missing or zero nos derives like one piece but adds nothing to the nos total. */
  lemma NosDefaultsToOne(row: Row, productWeight: real)
    requires row.nos == Unset || row.nos == Blank || row.nos == Num(0.0)
    ensures Derive(row, productWeight) == Derive(row.(nos := Num(1.0)), productWeight).(nos := row.nos)
    ensures TotalsOf([row]).totalNos == 0.0
  {
    NosOneArithmetic(row);
    assert [row][..0] == [];
  }

  lemma NosOneArithmetic(row: Row)
    requires row.nos == Unset || row.nos == Blank || row.nos == Num(0.0)
    ensures RawRunningFeet(row) == RawRunningFeet(row.(nos := Num(1.0)))
  {
    assert OrOne(row.nos) == OrOne(Num(1.0));
  }

  /** For valid inputs, each derived value is the rounded closed form in feet, inches and pieces. */
  lemma DeriveClosedForm(row: Row, productWeight: real)
    requires RowValid(row)
    ensures var rf := (row.feet.value + row.inch.value / 12.0) * row.nos.value;
            && Derive(row, productWeight).runningFeet == Round2(rf)
            && Derive(row, productWeight).sqFeet == Round2(3.5 * rf)
            && Derive(row, productWeight).weight == Round2(rf * productWeight)
  {
    ClosedFormArithmetic(row, productWeight);
  }

  lemma ClosedFormArithmetic(row: Row, productWeight: real)
    requires RowValid(row)
    ensures var rf := (row.feet.value + row.inch.value / 12.0) * row.nos.value;
            var raw := PC.RunningFeet(OrZero(row.feet), OrZero(row.inch), OrOne(row.nos));
            && raw == rf
            && PC.SqFeet(raw) == 3.5 * rf
            && PC.Weight(raw, productWeight) == rf * productWeight
  {
  }

  /** A fresh dialog shows zero totals although its row already holds one piece. */
  lemma FreshTotalsLag(productWeight: real)
    ensures Init(productWeight).totals.totalNos == 0.0
    ensures TotalsOf(Init(productWeight).rows).totalNos == 1.0
  {
    var rows := Init(productWeight).rows;
    assert rows == [NewRow];
    assert rows[..0] == [];
    var t0 := TotalsOf(rows[..0]);
    assert t0 == PC.ZeroTotals;
    assert TotalsOf(rows).totalNos == t0.totalNos + OrZero(NewRow.nos);
  }

  /** After `addRow` the displayed totals lag behind by exactly the new row's one piece. */
  lemma {:induction false} AddRowTotalsLag(d: Dialog)
    requires TotalsFresh(d)
    ensures TotalsOf(AddRow(d).rows) == PC.AddTotals(AddRow(d).totals, PC.Totals(0.0, 0.0, 1.0, 0.0, 0.0, 0.0))
  {
    var rows := AddRow(d).rows;
    assert rows[..|rows| - 1] == d.rows;
  }

  /** Removing the row just added gives the rows back, with fresh totals. */
  lemma AddThenRemove(d: Dialog)
    ensures RemoveRow(AddRow(d), |d.rows|).rows == d.rows
  {
    RemoveAtPush(d.rows, NewRow);
  }

  /** Removing the only row leaves an empty table, which saves with all-zero totals. */
  lemma RemoveLastRowSavesZero(productWeight: real)
    ensures RemoveRow(Init(productWeight), 0).rows == []
    ensures Save(RemoveRow(Init(productWeight), 0)) == Some(PC.ZeroTotals)
  {
  }

  /** The totals do not depend on the order of the rows. */
  lemma TotalsOrderFree(a: seq<Row>, b: seq<Row>)
    requires multiset(a) == multiset(b)
    ensures TotalsOf(a) == TotalsOf(b)
  {
    MultisetMapped(a, b);
    TotalsOfMatchesService(a);
    TotalsOfMatchesService(b);
    PC.TotalsPermutation(AsCalculations(a), AsCalculations(b));
  }

  lemma {:induction false} MultisetMapped(a: seq<Row>, b: seq<Row>)
    requires multiset(a) == multiset(b)
    ensures multiset(AsCalculations(a)) == multiset(AsCalculations(b))
    decreases |a|
  {
    if |a| == 0 {
      assert |b| == |multiset(b)| == 0;
    } else {
      var last := |a| - 1;
      var x := a[last];
      assert a == a[..last] + [x];
      assert x in multiset(b);
      var j :| 0 <= j < |b| && b[j] == x;
      RemoveAtMultiset(b, j);
      MultisetCancel(multiset(a[..last]), multiset(RemoveAt(b, j)), x);
      MultisetMapped(a[..last], RemoveAt(b, j));
      assert AsCalculations(a) == AsCalculations(a[..last]) + [AsCalculation(x)];
      AsCalculationsRemoveAt(b, j);
      RemoveAtMultiset(AsCalculations(b), j);
    }
  }

  /** A new row's derived zeros agree with its inputs. */
  lemma NewRowConsistent(productWeight: real)
    ensures Consistent(NewRow, productWeight)
  {
    NewRowArithmetic(productWeight);
  }

  /** `addRow` keeps every row's derived values in step with its inputs. */
  lemma AddRowKeepsConsistent(d: Dialog)
    requires AllConsistent(d)
    ensures AllConsistent(AddRow(d))
  {
    NewRowConsistent(d.productWeight);
    ConsistentAppend(d, NewRow);
  }

  lemma ConsistentAppend(d: Dialog, row: Row)
    requires AllConsistent(d) && Consistent(row, d.productWeight)
    ensures AllConsistent(d.(rows := d.rows + [row]))
  {
  }

  lemma NewRowArithmetic(productWeight: real)
    ensures RawRunningFeet(NewRow) == 0.0
    ensures RawRunningFeet(NewRow) * productWeight == 0.0
  {
    NewRowRaw();
    ZeroProduct(RawRunningFeet(NewRow), productWeight);
  }

  lemma NewRowRaw()
    ensures RawRunningFeet(NewRow) == 0.0
  {
  }

  /** A first row set to ten feet whose derived values are still the new row's zeros. */
  lemma TenFeetRowStale(productWeight: real)
    ensures !Consistent(NewRow.(feet := Num(10.0)), productWeight)
  {
    var row := NewRow.(feet := Num(10.0));
    TenFeetRaw();
    Round2Cents(1000);
    assert Derive(row, productWeight).runningFeet == 10.0;
  }

  lemma TenFeetRaw()
    ensures RawRunningFeet(NewRow.(feet := Num(10.0))) == 10.0
  {
  }

  lemma EditKeepsEarlierRow(d: Dialog, index: nat, input: Input, v: Field)
    requires index < |d.rows| - 1
    ensures Edit(d, index, input, v).rows[index] == SetInput(d.rows[index], input, v)
  {
  }

  /**
    Editing the first of two new rows (a fresh dialog after one `addRow`)
    leaves that row's derived values stale, whatever the product.
   */
  lemma EditLeavesEditedRowStale(d: Dialog)
    requires |d.rows| == 2 && d.rows[0] == NewRow
    ensures var r := Edit(d, 0, Feet, Num(10.0));
            && r.rows[0].feet == Num(10.0)
            && r.rows[0].runningFeet == 0.0
            && !Consistent(r.rows[0], d.productWeight)
  {
    EditKeepsEarlierRow(d, 0, Feet, Num(10.0));
    TenFeetRowStale(d.productWeight);
  }
}
