/**
  Purchase product lines: a two-way discount between a percentage and an
  amount, an unrounded final price, the document total, and add/remove on
  the line array.

  Which way the discount is computed depends on the `formcontrolname` of the
  element that has the focus when a line's value changes. The model takes
  that attribute as a parameter: `None` when no element or no attribute.
 */
module Purchase {

  import opened Forms
  import CI = CapturedIndex

  /** One product line of the purchase form. */
  datatype Line = Line(
    productId: string,
    quantity: Field, unitPrice: Field, discountPercentage: Field, discountAmount: Field,
    finalPrice: real)

  /** The line array: each line with the index its change handler captured. */
  type Lines = seq<CI.Slotted<Line>>

  /** The attribute read from the focused element, if any. */
  type Focus = Option<string>

  /** The controls whose changes trigger a recomputation of the discount. */
  datatype LineInput = Quantity | UnitPrice | DiscountPercentage | DiscountAmount

  /** The three ways the handler can compute a discount. */
  datatype Branch = FromPercentage | FromAmount | NoDiscount

  /** `createProductFormGroup`: no product, empty quantity and price, zero discounts, final price 0. */
  const NewLine: Line := Line("", Blank, Blank, Num(0.0), Num(0.0), 0.0)

  /** The line's validators. */
  predicate LineValid(line: Line) {
    line.productId != "" &&
    RequiredAtLeast(line.quantity, 1.0) &&
    RequiredAtLeast(line.unitPrice, 0.01) &&
    RequiredAtLeast(line.discountPercentage, 0.0) && AtMost(line.discountPercentage, 100.0) &&
    RequiredAtLeast(line.discountAmount, 0.0)
  }

  /** `!lastChangedField`: no focused control name, or an empty one. */
  predicate Unfocused(focus: Focus) {
    focus.None? || focus == Some("")
  }

  /** The branch `calculateProductDiscount` takes. */
  function ChooseBranch(focus: Focus, line: Line): (b: Branch)
    ensures focus == Some("discountPercentage") ==> b == FromPercentage
    ensures focus == Some("discountAmount") ==> b == FromAmount
    ensures Unfocused(focus) && IsDefined(line.discountPercentage) ==> b == FromPercentage
    ensures Unfocused(focus) && !IsDefined(line.discountPercentage) && IsDefined(line.discountAmount) ==>
              b == FromAmount
    ensures focus.Some? && focus.value !in {"", "discountPercentage", "discountAmount"} ==> b == NoDiscount
  {
    if focus == Some("discountPercentage") || (Unfocused(focus) && IsDefined(line.discountPercentage)) then
      FromPercentage
    else if focus == Some("discountAmount") || (Unfocused(focus) && IsDefined(line.discountAmount)) then
      FromAmount
    else NoDiscount
  }

  /** Quantity × unit price, missing values counting 0. */
  function TotalPrice(line: Line): real {
    OrZero(line.quantity) * OrZero(line.unitPrice)
  }

  /** The discount amount a percentage gives on a total. */
  function AmountOf(total: real, percentage: real): real {
    (total * percentage) / 100.0
  }

  /** The percentage an amount is of a total; 0 when the total is not positive. */
  function PercentageOf(total: real, amount: real): real {
    if total > 0.0 then (amount / total) * 100.0 else 0.0
  }

  /** `calculateProductDiscount` on one line; the final price is not rounded. */
  function CalculateProductDiscount(focus: Focus, line: Line): (r: Line)
    ensures r.productId == line.productId && r.quantity == line.quantity && r.unitPrice == line.unitPrice
    ensures r.discountPercentage.Num? && r.discountAmount.Num?
    ensures r.finalPrice + r.discountAmount.value == TotalPrice(line)
  {
    var total := TotalPrice(line);
    match ChooseBranch(focus, line)
    case FromPercentage =>
      var amount := AmountOf(total, OrZero(line.discountPercentage));
      line.(discountAmount := Num(amount),
            discountPercentage := Num(OrZero(line.discountPercentage)),
            finalPrice := total - amount)
    case FromAmount =>
      var amount := OrZero(line.discountAmount);
      line.(discountAmount := Num(amount),
            discountPercentage := Num(PercentageOf(total, amount)),
            finalPrice := total - amount)
    case NoDiscount =>
      line.(discountAmount := Num(0.0), discountPercentage := Num(0.0), finalPrice := total)
  }

  /** The percentage branch: the amount follows from the percentage. */
  lemma PercentageBranch(focus: Focus, line: Line)
    requires ChooseBranch(focus, line) == FromPercentage
    ensures var r := CalculateProductDiscount(focus, line);
            && r.discountAmount == Num(TotalPrice(line) * OrZero(line.discountPercentage) / 100.0)
            && r.finalPrice == TotalPrice(line) - r.discountAmount.value
  {
  }

  /** The amount branch: the percentage follows from the amount, and is 0 on a zero total. */
  lemma AmountBranch(focus: Focus, line: Line)
    requires ChooseBranch(focus, line) == FromAmount
    ensures var r := CalculateProductDiscount(focus, line);
            && r.discountAmount == Num(OrZero(line.discountAmount))
            && (TotalPrice(line) > 0.0 ==>
                  r.discountPercentage == Num(OrZero(line.discountAmount) / TotalPrice(line) * 100.0))
            && (TotalPrice(line) <= 0.0 ==> r.discountPercentage == Num(0.0))
  {
  }

  /** Focus on any other control, such as the quantity being typed, drops the discount. */
  lemma OtherFocusDropsDiscount(focus: Focus, line: Line)
    requires focus.Some? && focus.value !in {"", "discountPercentage", "discountAmount"}
    ensures var r := CalculateProductDiscount(focus, line);
            r.discountAmount == Num(0.0) && r.discountPercentage == Num(0.0) && r.finalPrice == TotalPrice(line)
  {
  }

  /** With no focus, a line whose percentage control holds any value takes the percentage branch. */
  lemma UnfocusedUsesPercentage(focus: Focus, line: Line)
    requires Unfocused(focus) && IsDefined(line.discountPercentage)
    ensures ChooseBranch(focus, line) == FromPercentage
  {
  }

  /** On a positive total, the percentage of the amount of a percentage is that percentage. */
  lemma PercentageAmountRoundTrip(total: real, percentage: real)
    requires total > 0.0
    ensures PercentageOf(total, AmountOf(total, percentage)) == percentage
  {
  }

  /** On a positive total, the amount of the percentage of an amount is that amount. */
  lemma AmountPercentageRoundTrip(total: real, amount: real)
    requires total > 0.0
    ensures AmountOf(total, PercentageOf(total, amount)) == amount
  {
  }

  /**
    Typing a percentage and then moving to the amount control: the second
    recomputation finds the percentage it started from, on a positive total.
   */
  lemma PercentageThenAmount(line: Line)
    requires TotalPrice(line) > 0.0
    ensures var r1 := CalculateProductDiscount(Some("discountPercentage"), line);
            var r2 := CalculateProductDiscount(Some("discountAmount"), r1);
            r2 == r1
  {
    var r1 := CalculateProductDiscount(Some("discountPercentage"), line);
    PercentageAmountRoundTrip(TotalPrice(line), OrZero(line.discountPercentage));
    assert TotalPrice(r1) == TotalPrice(line);
  }

  /** With a named focus the branch is fixed, and recomputing a recomputed line changes nothing. */
  lemma FocusedIdempotent(focus: Focus, line: Line)
    requires focus.Some? && focus.value != ""
    ensures CalculateProductDiscount(focus, CalculateProductDiscount(focus, line))
            == CalculateProductDiscount(focus, line)
  {
    var r := CalculateProductDiscount(focus, line);
    assert TotalPrice(r) == TotalPrice(line);
  }

  /** A line passing its validators, with the percentage branch, never gets a negative final price. */
  lemma ValidLineNonNegativePrice(focus: Focus, line: Line)
    requires LineValid(line) && ChooseBranch(focus, line) == FromPercentage
    ensures CalculateProductDiscount(focus, line).finalPrice >= 0.0
  {
    var total := TotalPrice(line);
    var pct := OrZero(line.discountPercentage);
    PositiveTotal(OrZero(line.quantity), OrZero(line.unitPrice));
    DiscountedNonNegative(total, pct);
  }

  lemma PositiveTotal(quantity: real, unitPrice: real)
    requires quantity >= 1.0 && unitPrice >= 0.01
    ensures quantity * unitPrice > 0.0
  {
  }

  lemma DiscountedNonNegative(total: real, pct: real)
    requires total >= 0.0 && 0.0 <= pct <= 100.0
    ensures total - AmountOf(total, pct) >= 0.0
  {
    assert total - AmountOf(total, pct) == total * (100.0 - pct) / 100.0;
  }

  /** A 12.345 % discount on one item at 10 leaves 8.7655: the final price keeps every digit. */
  lemma UnroundedExample(line: Line)
    requires line.quantity == Num(1.0) && line.unitPrice == Num(10.0) && line.discountPercentage == Num(12.345)
    ensures CalculateProductDiscount(Some("discountPercentage"), line).finalPrice == 8.7655
  {
  }

  /** A line's final price as the total reads it. */
  function FinalPrice(line: Line): real {
    line.finalPrice
  }

  /** A line's discount amount, missing counting 0. */
  function DiscountOf(line: Line): real {
    OrZero(line.discountAmount)
  }

  /**
    `getTotalAmount`: the sum of the lines' final prices; `calculateTotalAmount`
    computes the same. On balanced lines it is the sum of the lines' totals
    less the sum of their discounts.
   */
  function GetTotalAmount(lines: Lines): (r: real)
    ensures |lines| == 0 ==> r == 0.0
    ensures AllBalanced(lines) ==> r + CI.SumOf(lines, DiscountOf) == CI.SumOf(lines, TotalPrice)
  {
    if AllBalanced(lines) then
      CI.SumAdd(lines, FinalPrice, DiscountOf, TotalPrice);
      CI.SumOf(lines, FinalPrice)
    else CI.SumOf(lines, FinalPrice)
  }

  /** `addProduct`: pushes a new line whose handler captures the current length. */
  function AddProduct(lines: Lines): (r: Lines)
    ensures |r| == |lines| + 1 && r[..|lines|] == lines
    ensures r[|lines|] == CI.Slotted(NewLine, |lines|)
    ensures GetTotalAmount(r) == GetTotalAmount(lines)
  {
    assert (lines + [CI.Slotted(NewLine, |lines|)])[..|lines|] == lines;
    CI.Push(lines, NewLine)
  }

  /** `initForm`: a single new line. */
  function Init(): (r: Lines)
    ensures |r| == 1 && CI.Aligned(r) && r[0].value == NewLine
    ensures GetTotalAmount(r) == 0.0
  {
    AddProduct([])
  }

  /** `removeProduct`: removes the line unless it is the only one. */
  function RemoveProduct(lines: Lines, index: nat): (r: Lines)
    ensures |lines| <= 1 ==> r == lines
    ensures |lines| > 1 ==> r == RemoveAt(lines, index)
    ensures |lines| >= 1 ==> |r| >= 1
    ensures |lines| > 1 && index < |lines| ==>
              GetTotalAmount(r) == GetTotalAmount(lines) - lines[index].value.finalPrice
    ensures AllBalanced(lines) ==> AllBalanced(r)
  {
    if |lines| > 1 then
      (if index < |lines| then CI.SumRemoveAt(lines, index, FinalPrice); RemoveAt(lines, index) else lines)
    else lines
  }

  /** Writes one input of a line. */
  function SetInput(input: LineInput, v: Field): Line -> Line {
    (line: Line) =>
      match input
      case Quantity => line.(quantity := v)
      case UnitPrice => line.(unitPrice := v)
      case DiscountPercentage => line.(discountPercentage := v)
      case DiscountAmount => line.(discountAmount := v)
  }

  /** The recomputation a line's handler performs, for a given focus. */
  function Recalculate(focus: Focus): Line -> Line {
    (line: Line) => CalculateProductDiscount(focus, line)
  }

  /** The line's stored discount and final price add up to its total. */
  predicate Balanced(line: Line) {
    line.discountAmount.Num? && line.finalPrice + line.discountAmount.value == TotalPrice(line)
  }

  predicate AllBalanced(lines: Lines) {
    forall j :: 0 <= j < |lines| ==> Balanced(lines[j].value)
  }

  /** A change to line `j`: its handler recomputes the line at the index it captured. */
  function Edit(lines: Lines, j: nat, input: LineInput, v: Field, focus: Focus): (r: Result<Lines>)
    requires j < |lines|
    ensures r.Ok? <==> lines[j].slot < |lines|
    ensures r.Ok? ==> |r.value| == |lines| && Balanced(r.value[lines[j].slot].value)
    ensures r.Ok? ==>
              var s := lines[j].slot;
              r.value[s].value ==
                CalculateProductDiscount(focus, if s == j then SetInput(input, v)(lines[j].value) else lines[s].value)
    ensures r.Ok? && lines[j].slot != j ==> r.value[j].value == SetInput(input, v)(lines[j].value)
    ensures r.Ok? ==> forall k :: 0 <= k < |lines| && k != j && k != lines[j].slot ==> r.value[k] == lines[k]
  {
    var r := CI.EditAsWritten(lines, j, SetInput(input, v), Recalculate(focus));
    if r.Ok? then
      RecalculateBalances(focus, SetInput(input, v)(lines[j].value));
      RecalculateBalances(focus, lines[lines[j].slot].value);
      r
    else r
  }

  /** Every recomputation leaves the line balanced. */
  lemma RecalculateBalances(focus: Focus, line: Line)
    ensures Balanced(Recalculate(focus)(line))
  {
    var r := CalculateProductDiscount(focus, line);
    assert TotalPrice(r) == TotalPrice(line);
  }

  /** The edited line itself is recomputed. */
  function EditCorrected(lines: Lines, j: nat, input: LineInput, v: Field, focus: Focus): (r: Lines)
    requires j < |lines|
    ensures |r| == |lines|
    ensures r[j].value == CalculateProductDiscount(focus, SetInput(input, v)(lines[j].value))
    ensures forall k :: 0 <= k < |lines| && k != j ==> r[k] == lines[k]
    ensures Balanced(r[j].value)
    ensures AllBalanced(lines) ==> AllBalanced(r)
  {
    CI.EditCorrected(lines, j, SetInput(input, v), Recalculate(focus))
  }

  /** With fresh captured indices the handler recomputes the edited line. */
  lemma EditAlignedIsCorrect(lines: Lines, j: nat, input: LineInput, v: Field, focus: Focus)
    requires CI.Aligned(lines) && j < |lines|
    ensures Edit(lines, j, input, v, focus) == Ok(EditCorrected(lines, j, input, v, focus))
  {
    CI.AlignedEditIsCorrect(lines, j, SetInput(input, v), Recalculate(focus));
  }

  /** A new line is balanced: no quantity, no price, no discount, final price 0. */
  lemma NewLineBalanced()
    ensures Balanced(NewLine)
  {
  }

  /**
    Add a second line, remove the first, then change the remaining line's
    quantity: its handler captured index 1, the array has one line, and the
    recomputation throws; the corrected edit leaves the line balanced.
   */
  lemma RemoveThenEditThrows(focus: Focus)
    ensures var lines := RemoveProduct(AddProduct(Init()), 0);
            && |lines| == 1
            && Edit(lines, 0, Quantity, Num(2.0), focus).TypeError?
            && Balanced(EditCorrected(lines, 0, Quantity, Num(2.0), focus)[0].value)
  {
    var lines := RemoveProduct(AddProduct(Init()), 0);
    assert lines[0].slot == 1;
  }
}
