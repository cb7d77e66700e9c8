/**
  The measurement conversions of the product calculation service: feet and
  inches to running feet, running feet to square feet and weight, the
  field-wise totals of a calculation table, and mm² to ft² and back.
 */
module ProductCalculation {

  import opened Forms

  /** Millimetres in one foot. */
  const MmPerFoot: real := 304.8

  /** Square millimetres in one square foot. */
  const SqMmPerSqFoot: real := MmPerFoot * MmPerFoot

  /** Square feet covered by one running foot of the product family. */
  const SqFeetPerRunningFoot: real := 3.5

  /** One row of a feet/inch calculation table. */
  datatype Calculation = Calculation(
    feet: real, inch: real, nos: real,
    runningFeet: real, sqFeet: real, weight: real)

  /** The six column totals of a calculation table. */
  datatype Totals = Totals(
    totalFeet: real, totalInch: real, totalNos: real,
    totalRunningFeet: real, totalSqFeet: real, totalWeight: real)

  const ZeroTotals: Totals := Totals(0.0, 0.0, 0.0, 0.0, 0.0, 0.0)

  /** Field-wise sum of two totals. */
  function AddTotals(a: Totals, b: Totals): Totals {
    Totals(a.totalFeet + b.totalFeet, a.totalInch + b.totalInch, a.totalNos + b.totalNos,
           a.totalRunningFeet + b.totalRunningFeet, a.totalSqFeet + b.totalSqFeet,
           a.totalWeight + b.totalWeight)
  }

  /** The totals of a single row: each column holds that row's value. */
  function RowTotals(c: Calculation): Totals {
    Totals(c.feet, c.inch, c.nos, c.runningFeet, c.sqFeet, c.weight)
  }

  predicate NonNegativeTotals(t: Totals) {
    t.totalFeet >= 0.0 && t.totalInch >= 0.0 && t.totalNos >= 0.0 &&
    t.totalRunningFeet >= 0.0 && t.totalSqFeet >= 0.0 && t.totalWeight >= 0.0
  }

  predicate NonNegativeRow(c: Calculation) {
    NonNegativeTotals(RowTotals(c))
  }

  /** Feet plus inches, as decimal feet, times the number of pieces. */
  function RunningFeet(feet: real, inch: real, nos: real): (r: real)
    ensures r == (feet + inch / 12.0) * nos
    ensures inch == 0.0 ==> r == feet * nos
    ensures feet >= 0.0 && inch >= 0.0 && nos >= 0.0 ==> r >= 0.0
  {
    ((feet * 12.0) + inch) / 12.0 * nos
  }

  function SqFeet(runningFeet: real): (r: real)
    ensures runningFeet >= 0.0 ==> r >= 0.0
    ensures r / SqFeetPerRunningFoot == runningFeet
  {
    runningFeet * SqFeetPerRunningFoot
  }

  function Weight(runningFeet: real, productWeight: real): (r: real)
    ensures runningFeet >= 0.0 && productWeight >= 0.0 ==> r >= 0.0
    ensures productWeight == 0.0 ==> r == 0.0
  {
    runningFeet * productWeight
  }

  /** `calculations.reduce(...)`: a left fold adding each row's six values to the accumulator. */
  function CalculateTotals(calculations: seq<Calculation>): (t: Totals)
    ensures |calculations| == 0 ==> t == ZeroTotals
    ensures (forall i :: 0 <= i < |calculations| ==> NonNegativeRow(calculations[i])) ==>
              NonNegativeTotals(t)
  {
    if |calculations| == 0 then ZeroTotals
    else
      var last := |calculations| - 1;
      AddTotals(CalculateTotals(calculations[..last]), RowTotals(calculations[last]))
  }

  function ConvertMMToSqFeet(sqMM: real): (r: real)
    ensures sqMM >= 0.0 ==> r >= 0.0
    ensures sqMM == 0.0 ==> r == 0.0
    ensures r * 92903.04 == sqMM
  {
    sqMM / (MmPerFoot * MmPerFoot)
  }

  function ConvertSqFeetToMM(sqFeet: real): (r: real)
    ensures sqFeet >= 0.0 ==> r >= 0.0
    ensures r == sqFeet * 92903.04
  {
    sqFeet * (MmPerFoot * MmPerFoot)
  }

  /** The conversion factor is 304.8², that is 92903.04 mm² per ft². */
  lemma ConversionFactor()
    ensures SqMmPerSqFoot == 92903.04
  {
  }

  /** mm² → ft² → mm² is the identity. */
  lemma MMRoundTrip(sqMM: real)
    ensures ConvertSqFeetToMM(ConvertMMToSqFeet(sqMM)) == sqMM
  {
  }

  /** ft² → mm² → ft² is the identity. */
  lemma SqFeetRoundTrip(sqFeet: real)
    ensures ConvertMMToSqFeet(ConvertSqFeetToMM(sqFeet)) == sqFeet
  {
  }

  /** A larger area in mm² is a larger area in ft². */
  lemma MMToSqFeetMonotone(x: real, y: real)
    requires x <= y
    ensures ConvertMMToSqFeet(x) <= ConvertMMToSqFeet(y)
  {
  }

  /** The totals of a concatenation are the field-wise sum of the two tables' totals. */
  lemma {:induction false} TotalsAppend(a: seq<Calculation>, b: seq<Calculation>)
    ensures CalculateTotals(a + b) == AddTotals(CalculateTotals(a), CalculateTotals(b))
    decreases |b|
  {
    if |b| == 0 {
      assert a + b == a;
    } else {
      var last := |b| - 1;
      assert (a + b)[..|a + b| - 1] == a + b[..last];
      assert (a + b)[|a + b| - 1] == b[last];
      TotalsAppend(a, b[..last]);
    }
  }

  /** A one-row table totals to that row. */
  lemma TotalsSingleton(c: Calculation)
    ensures CalculateTotals([c]) == RowTotals(c)
  {
    assert [c][..0] == [];
  }

  /** Taking one row out of a table takes exactly its values out of the totals. */
  lemma {:induction false} TotalsRemoveAt(b: seq<Calculation>, j: nat)
    requires j < |b|
    ensures CalculateTotals(b) == AddTotals(CalculateTotals(RemoveAt(b, j)), RowTotals(b[j]))
  {
    assert b == b[..j] + [b[j]] + b[j + 1..];
    TotalsAppend(b[..j] + [b[j]], b[j + 1..]);
    TotalsAppend(b[..j], [b[j]]);
    TotalsAppend(b[..j], b[j + 1..]);
    TotalsSingleton(b[j]);
  }

  /** Reordering the rows does not change the totals. */
  lemma {:induction false} TotalsPermutation(a: seq<Calculation>, b: seq<Calculation>)
    requires multiset(a) == multiset(b)
    ensures CalculateTotals(a) == CalculateTotals(b)
    decreases |a|
  {
    if |a| == 0 {
      assert |b| == |multiset(b)| == 0;
    } else {
      var last := |a| - 1;
      var x := a[last];
      assert a == a[..last] + [x];
      assert x in multiset(b);
      var j :| 0 <= j < |b| && b[j] == x;
      RemoveAtMultiset(b, j);
      assert multiset(a) == multiset(a[..last]) + multiset{x};
      MultisetCancel(multiset(a[..last]), multiset(RemoveAt(b, j)), x);
      TotalsPermutation(a[..last], RemoveAt(b, j));
      TotalsRemoveAt(b, j);
    }
  }
}
