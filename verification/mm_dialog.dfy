/**
  The millimetre calculation dialog: a table of rows (length, width, nos)
  with derived area in mm², area in ft² and weight, each rounded to
  hundredths, and running column totals. Unlike the feet/inch dialog it
  never drops below one row, reads a missing product weight as 0, and hands
  back the row inputs together with the totals on save.

  As in the feet/inch dialog, the change handler of every row recomputes the
  row at `length - 1` at the moment of the change; `Edit` keeps that and
  `EditCorrected` recomputes the edited row.
 */
module MmDialog {

  import opened Forms
  import opened Rounding
  import PC = ProductCalculation

  /** One table row: three inputs and three read-only derived values. */
  datatype Row = Row(
    length: Field, width: Field, nos: Field,
    sqMM: real, sqFeet: real, weight: real)

  /** The six column totals the dialog displays. */
  datatype Totals = Totals(
    totalLength: real, totalWidth: real, totalNos: real,
    totalSqMM: real, totalSqFeet: real, totalWeight: real)

  const ZeroTotals: Totals := Totals(0.0, 0.0, 0.0, 0.0, 0.0, 0.0)

  /** The dialog: the product's weight field, the rows and the displayed totals. */
  datatype Dialog = Dialog(productWeight: Field, rows: seq<Row>, totals: Totals)

  /** The editable inputs of a row. */
  datatype Input = Length | Width | Nos

  /** The enabled controls of a row: all that the form's value reports for it. */
  datatype RowInputs = RowInputs(length: Field, width: Field, nos: Field)

  /** What `onSave` emits: the totals spread out, plus the rows' enabled values. */
  datatype Saved = Saved(totals: Totals, calculations: seq<RowInputs>)

  /** A row as `addRow` creates it. */
  const NewRow: Row := Row(Num(0.0), Num(0.0), Num(1.0), 0.0, 0.0, 0.0)

  /** Length and width required and ≥ 0, nos required and ≥ 1. */
  predicate RowValid(row: Row) {
    RequiredAtLeast(row.length, 0.0) && RequiredAtLeast(row.width, 0.0) && RequiredAtLeast(row.nos, 1.0)
  }

  predicate AllValid(rows: seq<Row>) {
    forall j :: 0 <= j < |rows| ==> RowValid(rows[j])
  }

  /** Area of `nos` pieces of `length` by `width` millimetres. */
  function Area(length: real, width: real, nos: real): (r: real)
    ensures length >= 0.0 && width >= 0.0 && nos >= 0.0 ==> r >= 0.0
    ensures length == 0.0 || width == 0.0 ==> r == 0.0
  {
    ProductNonNegative(length, width);
    ProductNonNegative(length * width, nos);
    length * width * nos
  }

  /** Weight of an area in ft² for a product weighing `productWeight` per ft². */
  function AreaWeight(sqFeet: real, productWeight: real): (r: real)
    ensures sqFeet >= 0.0 && productWeight >= 0.0 ==> r >= 0.0
    ensures productWeight == 0.0 ==> r == 0.0
  {
    ProductNonNegative(sqFeet, productWeight);
    sqFeet * productWeight
  }

  /** The unrounded area in mm², from the inputs as `|| 0` and `|| 1` read them. */
  function RawSqMM(row: Row): real {
    Area(OrZero(row.length), OrZero(row.width), OrOne(row.nos))
  }

  /**
    `calculateRow` on one row. The ft² value and the weight are computed from
    the unrounded area, and only then rounded.
   */
  function Derive(row: Row, productWeight: Field): (r: Row)
    ensures r.length == row.length && r.width == row.width && r.nos == row.nos
    ensures var raw := RawSqMM(row);
            var sqFeet := PC.ConvertMMToSqFeet(raw);
            var weight := AreaWeight(sqFeet, OrZero(productWeight));
            && raw - 0.005 <= r.sqMM <= raw + 0.005
            && sqFeet - 0.005 <= r.sqFeet <= sqFeet + 0.005
            && weight - 0.005 <= r.weight <= weight + 0.005
  {
    var sqMM := RawSqMM(row);
    var sqFeet := PC.ConvertMMToSqFeet(sqMM);
    row.(sqMM := Round2(sqMM),
         sqFeet := Round2(sqFeet),
         weight := Round2(AreaWeight(sqFeet, OrZero(productWeight))))
  }

  /** The row's derived values agree with its inputs. */
  predicate Consistent(row: Row, productWeight: Field) {
    Derive(row, productWeight) == row
  }

  predicate AllConsistent(d: Dialog) {
    forall j :: 0 <= j < |d.rows| ==> Consistent(d.rows[j], d.productWeight)
  }

  lemma SameInputsSameArea(a: Row, b: Row)
    requires a.length == b.length && a.width == b.width && a.nos == b.nos
    ensures RawSqMM(a) == RawSqMM(b)
  {
  }

  /** Recomputing a recomputed row changes nothing: the derived values read the inputs only. */
  lemma DeriveIdempotent(row: Row, productWeight: Field)
    ensures Consistent(Derive(row, productWeight), productWeight)
  {
    SameInputsSameArea(row, Derive(row, productWeight));
  }

  /** Valid inputs and a non-negative product weight give non-negative derived values. */
  lemma DeriveNonNegative(row: Row, productWeight: Field)
    requires RowValid(row) && OrZero(productWeight) >= 0.0
    ensures var r := Derive(row, productWeight);
            r.sqMM >= 0.0 && r.sqFeet >= 0.0 && r.weight >= 0.0
  {
  }

  /** A product without a weight gives every row weight 0, whatever its area. */
  lemma MissingWeightIsZero(row: Row, productWeight: Field)
    requires productWeight == Unset || productWeight == Blank || productWeight == Num(0.0)
    ensures Derive(row, productWeight).weight == 0.0
  {
    Round2Cents(0);
  }

  /** A missing or zero nos derives like one piece but adds nothing to the nos total. */
  lemma NosDefaultsToOne(row: Row, productWeight: Field)
    requires row.nos == Unset || row.nos == Blank || row.nos == Num(0.0)
    ensures Derive(row, productWeight) == Derive(row.(nos := Num(1.0)), productWeight).(nos := row.nos)
    ensures TotalsOf([row]).totalNos == 0.0
  {
    NosOneArea(row);
    assert [row][..0] == [];
  }

  lemma NosOneArea(row: Row)
    requires row.nos == Unset || row.nos == Blank || row.nos == Num(0.0)
    ensures RawSqMM(row) == RawSqMM(row.(nos := Num(1.0)))
  {
    assert OrOne(row.nos) == OrOne(Num(1.0));
  }

  /** For valid inputs the area is length × width × nos and the ft² value its conversion, rounded. */
  lemma DeriveClosedForm(row: Row, productWeight: Field)
    requires RowValid(row)
    ensures var area := Area(row.length.value, row.width.value, row.nos.value);
            && Derive(row, productWeight).sqMM == Round2(area)
            && Derive(row, productWeight).sqFeet == Round2(PC.ConvertMMToSqFeet(area))
            && Derive(row, productWeight).weight ==
                 Round2(AreaWeight(PC.ConvertMMToSqFeet(area), OrZero(productWeight)))
  {
    ValidArea(row);
  }

  lemma ValidArea(row: Row)
    requires RowValid(row)
    ensures RawSqMM(row) == Area(row.length.value, row.width.value, row.nos.value)
  {
    assert row.nos.value >= 1.0;
  }

  /** The ft² value differs from the exact conversion of the unrounded area by at most half a cent. */
  lemma SqFeetNearConversion(row: Row, productWeight: Field)
    ensures var r := Derive(row, productWeight);
            && PC.ConvertMMToSqFeet(RawSqMM(row)) - 0.005 <= r.sqFeet
            && r.sqFeet <= PC.ConvertMMToSqFeet(RawSqMM(row)) + 0.005
  {
  }

  /** A 1000 mm by 500 mm sheet, two pieces: 1 000 000 mm², that is 10.76 ft². */
  lemma SheetExample(row: Row, productWeight: Field)
    requires row.length == Num(1000.0) && row.width == Num(500.0) && row.nos == Num(2.0)
    ensures Derive(row, productWeight).sqMM == 1000000.0
    ensures Derive(row, productWeight).sqFeet == 10.76
  {
    SheetArea(row);
    Round2Cents(100000000);
    RoundsTo(PC.ConvertMMToSqFeet(1000000.0), 1076);
  }

  lemma SheetArea(row: Row)
    requires row.length == Num(1000.0) && row.width == Num(500.0) && row.nos == Num(2.0)
    ensures RawSqMM(row) == 1000000.0
  {
  }

  /** What the totals reducer adds for one row: inputs with `|| 0`, derived values as stored. */
  function RowTotals(row: Row): Totals {
    Totals(OrZero(row.length), OrZero(row.width), OrZero(row.nos), row.sqMM, row.sqFeet, row.weight)
  }

  function AddTotals(a: Totals, b: Totals): Totals {
    Totals(a.totalLength + b.totalLength, a.totalWidth + b.totalWidth, a.totalNos + b.totalNos,
           a.totalSqMM + b.totalSqMM, a.totalSqFeet + b.totalSqFeet, a.totalWeight + b.totalWeight)
  }

  predicate NonNegative(t: Totals) {
    t.totalLength >= 0.0 && t.totalWidth >= 0.0 && t.totalNos >= 0.0 &&
    t.totalSqMM >= 0.0 && t.totalSqFeet >= 0.0 && t.totalWeight >= 0.0
  }

  /** `calculateTotals`: a left fold over the rows. */
  function TotalsOf(rows: seq<Row>): (t: Totals)
    ensures |rows| == 0 ==> t == ZeroTotals
    ensures (forall j :: 0 <= j < |rows| ==> NonNegative(RowTotals(rows[j]))) ==> NonNegative(t)
  {
    if |rows| == 0 then ZeroTotals
    else AddTotals(TotalsOf(rows[..|rows| - 1]), RowTotals(rows[|rows| - 1]))
  }

  /** The totals of a concatenation are the field-wise sum of the two parts' totals. */
  lemma {:induction false} TotalsAppend(a: seq<Row>, b: seq<Row>)
    ensures TotalsOf(a + b) == AddTotals(TotalsOf(a), TotalsOf(b))
    decreases |b|
  {
    if |b| == 0 {
      assert a + b == a;
    } else {
      var last := |b| - 1;
      assert (a + b)[..|a + b| - 1] == a + b[..last];
      assert (a + b)[|a + b| - 1] == b[last];
      TotalsAppend(a, b[..last]);
    }
  }

  lemma TotalsSingleton(row: Row)
    ensures TotalsOf([row]) == RowTotals(row)
  {
    assert [row][..0] == [];
  }

  /** Taking one row out takes exactly that row's contribution out of the totals. */
  lemma {:induction false} TotalsRemoveAt(rows: seq<Row>, index: nat)
    requires index < |rows|
    ensures TotalsOf(rows) == AddTotals(TotalsOf(RemoveAt(rows, index)), RowTotals(rows[index]))
  {
    assert rows == rows[..index] + [rows[index]] + rows[index + 1..];
    TotalsAppend(rows[..index] + [rows[index]], rows[index + 1..]);
    TotalsAppend(rows[..index], [rows[index]]);
    TotalsAppend(rows[..index], rows[index + 1..]);
    TotalsSingleton(rows[index]);
  }

  /** The displayed totals are those of the current rows. */
  predicate TotalsFresh(d: Dialog) {
    d.totals == TotalsOf(d.rows)
  }

  /** `initForm`: one new row; the totals keep their initial zeros. */
  function Init(productWeight: Field): (d: Dialog)
    ensures |d.rows| == 1 && RowValid(d.rows[0]) && d.rows[0] == NewRow
    ensures d.totals == ZeroTotals
  {
    AddRow(Dialog(productWeight, [], ZeroTotals))
  }

  /** `addRow`: appends a new row without recomputing the totals. */
  function AddRow(d: Dialog): (r: Dialog)
    ensures |r.rows| == |d.rows| + 1 && r.rows[..|d.rows|] == d.rows
    ensures r.rows[|d.rows|] == NewRow && RowValid(NewRow)
    ensures r.totals == d.totals && r.productWeight == d.productWeight
  {
    d.(rows := d.rows + [NewRow])
  }

  /** A new row's derived zeros agree with its inputs. */
  lemma NewRowConsistent(productWeight: Field)
    ensures Consistent(NewRow, productWeight)
  {
    NewRowArea();
    Round2Cents(0);
  }

  lemma NewRowArea()
    ensures RawSqMM(NewRow) == 0.0
  {
  }

  lemma ConsistentAppend(d: Dialog, row: Row)
    requires AllConsistent(d) && Consistent(row, d.productWeight)
    ensures AllConsistent(d.(rows := d.rows + [row]))
  {
  }

  /** `addRow` keeps every row's derived values in step with its inputs. */
  lemma AddRowKeepsConsistent(d: Dialog)
    requires AllConsistent(d)
    ensures AllConsistent(AddRow(d))
  {
    NewRowConsistent(d.productWeight);
    ConsistentAppend(d, NewRow);
  }

  /** `removeRow`: with more than one row, removes the row and recomputes the totals; otherwise nothing. */
  function RemoveRow(d: Dialog, index: nat): (r: Dialog)
    ensures r.productWeight == d.productWeight
    ensures |d.rows| <= 1 ==> r == d
    ensures |d.rows| > 1 ==> TotalsFresh(r) && r.rows == RemoveAt(d.rows, index)
    ensures |d.rows| >= 1 ==> |r.rows| >= 1
    ensures |d.rows| > 1 && index < |d.rows| ==>
              AddTotals(r.totals, RowTotals(d.rows[index])) == TotalsOf(d.rows)
  {
    if |d.rows| > 1 then
      var rows := RemoveAt(d.rows, index);
      RemovedRowTotals(d.rows, index);
      d.(rows := rows, totals := TotalsOf(rows))
    else d
  }

  lemma RemovedRowTotals(rows: seq<Row>, index: nat)
    ensures index < |rows| ==>
              AddTotals(TotalsOf(RemoveAt(rows, index)), RowTotals(rows[index])) == TotalsOf(rows)
  {
    if index < |rows| {
      TotalsRemoveAt(rows, index);
    }
  }

  /** `calculateRow(index)`: recomputes that row's derived values, then the totals. */
  function CalculateRow(d: Dialog, index: nat): (r: Dialog)
    requires index < |d.rows|
    ensures |r.rows| == |d.rows| && r.productWeight == d.productWeight
    ensures r.rows[index] == Derive(d.rows[index], d.productWeight)
    ensures Consistent(r.rows[index], d.productWeight)
    ensures forall j :: 0 <= j < |d.rows| && j != index ==> r.rows[j] == d.rows[j]
    ensures TotalsFresh(r)
  {
    DeriveIdempotent(d.rows[index], d.productWeight);
    var rows := d.rows[index := Derive(d.rows[index], d.productWeight)];
    d.(rows := rows, totals := TotalsOf(rows))
  }

  /** Writes one input of a row, leaving its derived values as they were. */
  function SetInput(row: Row, input: Input, v: Field): Row {
    match input
    case Length => row.(length := v)
    case Width => row.(width := v)
    case Nos => row.(nos := v)
  }

  /** A value change in row `index`: the row's handler recomputes the last row. */
  function Edit(d: Dialog, index: nat, input: Input, v: Field): (r: Dialog)
    requires index < |d.rows|
    ensures |r.rows| == |d.rows| && r.productWeight == d.productWeight
    ensures Consistent(r.rows[|r.rows| - 1], d.productWeight)
    ensures var last := |d.rows| - 1;
            r.rows[last] == Derive(if index == last then SetInput(d.rows[index], input, v) else d.rows[last],
                                   d.productWeight)
    ensures index < |d.rows| - 1 ==> r.rows[index] == SetInput(d.rows[index], input, v)
    ensures index < |d.rows| - 1 ==> r.rows[index].sqMM == d.rows[index].sqMM
    ensures forall j :: 0 <= j < |d.rows| - 1 && j != index ==> r.rows[j] == d.rows[j]
    ensures TotalsFresh(r)
  {
    var rows := d.rows[index := SetInput(d.rows[index], input, v)];
    CalculateRow(d.(rows := rows), |rows| - 1)
  }

  /** The change recomputes the edited row itself. */
  function EditCorrected(d: Dialog, index: nat, input: Input, v: Field): (r: Dialog)
    requires index < |d.rows|
    ensures |r.rows| == |d.rows| && r.productWeight == d.productWeight
    ensures r.rows[index] == Derive(SetInput(d.rows[index], input, v), d.productWeight)
    ensures r.rows[index].sqMM == Round2(RawSqMM(SetInput(d.rows[index], input, v)))
    ensures forall j :: 0 <= j < |d.rows| && j != index ==> r.rows[j] == d.rows[j]
    ensures AllConsistent(d) ==> AllConsistent(r)
    ensures TotalsFresh(r)
  {
    var rows := d.rows[index := SetInput(d.rows[index], input, v)];
    CalculateRow(d.(rows := rows), index)
  }

  /** On a dialog whose rows are all up to date, `calculateRow` changes nothing. */
  lemma CalculateRowOnConsistent(d: Dialog, index: nat)
    requires index < |d.rows| && AllConsistent(d) && TotalsFresh(d)
    ensures CalculateRow(d, index) == d
  {
    assert CalculateRow(d, index).rows == d.rows;
  }

  /** Recomputing the same row twice is recomputing it once. */
  lemma CalculateRowIdempotent(d: Dialog, index: nat)
    requires index < |d.rows|
    ensures CalculateRow(CalculateRow(d, index), index) == CalculateRow(d, index)
  {
    var once := CalculateRow(d, index);
    assert CalculateRow(once, index).rows == once.rows;
  }

  /** For the last row the handler's `length - 1` is the edited row, so the two agree. */
  lemma EditLastRowIsCorrect(d: Dialog, input: Input, v: Field)
    requires |d.rows| > 0
    ensures Edit(d, |d.rows| - 1, input, v) == EditCorrected(d, |d.rows| - 1, input, v)
  {
  }

  /** The enabled controls' values of a row. */
  function InputsOf(row: Row): RowInputs {
    RowInputs(row.length, row.width, row.nos)
  }

  /**
    `onSave`: when every row is valid, emits the totals together with the
    form's value, which leaves out the disabled derived controls.
   */
  function Save(d: Dialog): (r: Option<Saved>)
    ensures r.Some? <==> AllValid(d.rows)
    ensures r.Some? ==> r.value.totals == d.totals && |r.value.calculations| == |d.rows|
    ensures r.Some? ==> forall j :: 0 <= j < |d.rows| ==>
              r.value.calculations[j] == RowInputs(d.rows[j].length, d.rows[j].width, d.rows[j].nos)
  {
    if AllValid(d.rows) then
      Some(Saved(d.totals, seq(|d.rows|, j requires 0 <= j < |d.rows| => InputsOf(d.rows[j]))))
    else None
  }

  /** The saved row list determines the areas again: recomputing from it gives the rows back. */
  lemma SavedInputsRecompute(d: Dialog)
    requires AllConsistent(d) && AllValid(d.rows)
    ensures var s := Save(d).value;
            forall j :: 0 <= j < |d.rows| ==>
              Derive(Row(s.calculations[j].length, s.calculations[j].width, s.calculations[j].nos,
                         0.0, 0.0, 0.0), d.productWeight) == d.rows[j]
  {
    var s := Save(d).value;
    forall j | 0 <= j < |d.rows|
      ensures Derive(Row(s.calculations[j].length, s.calculations[j].width, s.calculations[j].nos,
                         0.0, 0.0, 0.0), d.productWeight) == d.rows[j]
    {
      var row := d.rows[j];
      SameInputsSameArea(row, Row(row.length, row.width, row.nos, 0.0, 0.0, 0.0));
    }
  }

  /** The table never becomes empty: every operation keeps at least one row. */
  lemma NeverEmpty(d: Dialog, index: nat)
    requires |d.rows| >= 1
    ensures |AddRow(d).rows| >= 1 && |RemoveRow(d, index).rows| >= 1
  {
  }

  /** Removing the only row does nothing: the row and the displayed totals stay. */
  lemma RemoveOnlyRowIsNoOp(productWeight: Field, index: nat)
    ensures RemoveRow(Init(productWeight), index) == Init(productWeight)
  {
  }

  /** A first row set to 1000 mm whose derived values are still the new row's zeros. */
  lemma WideRowStale(productWeight: Field)
    ensures !Consistent(NewRow.(length := Num(1000.0), width := Num(1000.0)), productWeight)
  {
    var row := NewRow.(length := Num(1000.0), width := Num(1000.0));
    WideRowArea();
    Round2Cents(100000000);
    assert Derive(row, productWeight).sqMM == 1000000.0;
  }

  lemma WideRowArea()
    ensures RawSqMM(NewRow.(length := Num(1000.0), width := Num(1000.0))) == 1000000.0
  {
  }

  lemma EditKeepsEarlierRow(d: Dialog, index: nat, input: Input, v: Field)
    requires index < |d.rows| - 1
    ensures Edit(d, index, input, v).rows[index] == SetInput(d.rows[index], input, v)
    ensures |Edit(d, index, input, v).rows| == |d.rows|
  {
  }

  /**
    Setting length and then width of the first of two new rows (a fresh
    dialog after one `addRow`) leaves that row's derived values stale.
   */
  lemma EditLeavesEditedRowStale(d: Dialog)
    requires |d.rows| == 2 && d.rows[0] == NewRow
    ensures var r := Edit(Edit(d, 0, Length, Num(1000.0)), 0, Width, Num(1000.0));
            && r.rows[0].length == Num(1000.0) && r.rows[0].width == Num(1000.0)
            && r.rows[0].sqMM == 0.0
            && !Consistent(r.rows[0], d.productWeight)
  {
    var r1 := Edit(d, 0, Length, Num(1000.0));
    EditKeepsEarlierRow(d, 0, Length, Num(1000.0));
    EditKeepsEarlierRow(r1, 0, Width, Num(1000.0));
    WideRowStale(d.productWeight);
  }
}
