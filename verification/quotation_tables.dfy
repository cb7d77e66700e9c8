/**
  The quotation's product tables and its date validation. Each quotation product
  holds a table of measurement rows. Row operations address a product by
  index: `addRow` and `deleteRow` use the index remembered from the last
  product selection, the others take it as an argument. An index that names
  no product makes `FormArray.at` yield `undefined`, and the following
  `.get` throws.
 */
module QuotationTables {

  import opened Forms

  /** One measurement row of a product table. */
  datatype TableRow = TableRow(feet: Field, inch: Field, rFeet: Field, sqFt: Field, weight: Field)

  /** A row as `addRow` and `onProductSelected` push it: every control empty. */
  const EmptyRow: TableRow := TableRow(Blank, Blank, Blank, Blank, Blank)

  /** A row as `addRowToQuotationTable` pushes it: zeros, weight empty. */
  const ZeroRow: TableRow := TableRow(Num(0.0), Num(0.0), Num(0.0), Num(0.0), Blank)

  /** One entry of `quotationProducts`. */
  datatype QuotationProduct = QuotationProduct(selectedProduct: string, table: seq<TableRow>)

  /** The product array and the product index remembered from the last selection. */
  datatype Tables = Tables(products: seq<QuotationProduct>, productIndex: Option<nat>)

  /** The remembered index names a product. */
  predicate HasCurrent(t: Tables) {
    t.productIndex.Some? && t.productIndex.value < |t.products|
  }

  /** Replaces product `p`'s table, leaving everything else as it was. */
  function WithTable(t: Tables, p: nat, table: seq<TableRow>): (r: Tables)
    requires p < |t.products|
    ensures |r.products| == |t.products| && r.productIndex == t.productIndex
    ensures r.products[p] == t.products[p].(table := table)
    ensures forall q :: 0 <= q < |t.products| && q != p ==> r.products[q] == t.products[q]
  {
    t.(products := t.products[p := t.products[p].(table := table)])
  }

  /**
    Only product `p`'s table may differ: the remembered index, the number of
    products, every other product and `p`'s selection are as they were.
   */
  predicate Unchanged(t: Tables, r: Tables, p: nat)
    requires p < |t.products|
  {
    && r.productIndex == t.productIndex
    && |r.products| == |t.products|
    && r.products[p].selectedProduct == t.products[p].selectedProduct
    && forall q :: 0 <= q < |t.products| && q != p ==> r.products[q] == t.products[q]
  }

  /** `addProduct`: appends a product with no selection and an empty table. */
  function AddProduct(t: Tables): (r: Tables)
    ensures |r.products| == |t.products| + 1 && r.productIndex == t.productIndex
    ensures forall q :: 0 <= q < |t.products| ==> r.products[q] == t.products[q]
    ensures r.products[|t.products|].selectedProduct == "" && r.products[|t.products|].table == []
  {
    t.(products := t.products + [QuotationProduct("", [])])
  }

  /** `removeProduct`: removes the product; the remembered index is left as it was. */
  function RemoveProduct(t: Tables, index: nat): (r: Tables)
    ensures r.productIndex == t.productIndex
    ensures |r.products| == if index < |t.products| then |t.products| - 1 else |t.products|
    ensures forall q :: 0 <= q < |r.products| && q < index ==> r.products[q] == t.products[q]
    ensures forall q :: index <= q < |r.products| ==> r.products[q] == t.products[q + 1]
  {
    t.(products := RemoveAt(t.products, index))
  }

  /** `onProductSelected`: remembers the index and pushes an empty row into that product's table. */
  function OnProductSelected(t: Tables, p: nat): (r: Result<Tables>)
    ensures r.Ok? <==> p < |t.products|
    ensures r.Ok? ==> r.value.productIndex == Some(p) && HasCurrent(r.value)
    ensures r.Ok? ==> r.value.products[p].table == t.products[p].table + [EmptyRow]
    ensures r.Ok? ==> r.value.products[p].selectedProduct == t.products[p].selectedProduct
    ensures r.Ok? ==> |r.value.products| == |t.products| &&
                      forall q :: 0 <= q < |t.products| && q != p ==> r.value.products[q] == t.products[q]
  {
    if p < |t.products| then
      Ok(WithTable(t.(productIndex := Some(p)), p, t.products[p].table + [EmptyRow]))
    else TypeError
  }

  /** `addRow`: pushes an empty row into the remembered product's table. */
  function AddRow(t: Tables): (r: Result<Tables>)
    ensures r.Ok? <==> HasCurrent(t)
    ensures r.Ok? ==> Unchanged(t, r.value, t.productIndex.value)
    ensures r.Ok? ==> var p := t.productIndex.value;
                      && |r.value.products[p].table| == |t.products[p].table| + 1
                      && r.value.products[p].table[..|t.products[p].table|] == t.products[p].table
                      && r.value.products[p].table[|t.products[p].table|] == EmptyRow
  {
    if HasCurrent(t) then
      var p := t.productIndex.value;
      Ok(WithTable(t, p, t.products[p].table + [EmptyRow]))
    else TypeError
  }

  /** `deleteRow`: removes a row of the remembered product's table unless it is the only one. */
  function DeleteRow(t: Tables, index: nat): (r: Result<Tables>)
    ensures r.Ok? <==> HasCurrent(t)
    ensures r.Ok? ==> |t.products[t.productIndex.value].table| <= 1 ==> r.value == t
    ensures r.Ok? ==> Unchanged(t, r.value, t.productIndex.value)
    ensures r.Ok? ==> var before := t.products[t.productIndex.value].table;
                      var after := r.value.products[t.productIndex.value].table;
                      |before| > 1 && index < |before| ==>
                        && |after| == |before| - 1
                        && (forall i :: 0 <= i < index ==> after[i] == before[i])
                        && (forall i :: index <= i < |after| ==> after[i] == before[i + 1])
  {
    if HasCurrent(t) then
      var p := t.productIndex.value;
      var table := t.products[p].table;
      if |table| > 1 then Ok(WithTable(t, p, RemoveAt(table, index))) else Ok(t)
    else TypeError
  }

  /** `addRowToQuotationTable(p)`: pushes a zero row into product `p`'s table. */
  function AddRowToQuotationTable(t: Tables, p: nat): (r: Result<Tables>)
    ensures r.Ok? <==> p < |t.products|
    ensures r.Ok? ==> Unchanged(t, r.value, p)
    ensures r.Ok? ==> && |r.value.products[p].table| == |t.products[p].table| + 1
                      && r.value.products[p].table[..|t.products[p].table|] == t.products[p].table
                      && r.value.products[p].table[|t.products[p].table|] == ZeroRow
  {
    if p < |t.products| then Ok(WithTable(t, p, t.products[p].table + [ZeroRow])) else TypeError
  }

  /** `deleteTableRow(p, i)`: removes row `i` of product `p`'s table, with no minimum. */
  function DeleteTableRow(t: Tables, p: nat, rowIndex: nat): (r: Result<Tables>)
    ensures r.Ok? <==> p < |t.products|
    ensures r.Ok? ==> Unchanged(t, r.value, p)
    ensures r.Ok? ==> var before := t.products[p].table;
                      var after := r.value.products[p].table;
                      && |after| == (if rowIndex < |before| then |before| - 1 else |before|)
                      && (forall i :: 0 <= i < |after| && i < rowIndex ==> after[i] == before[i])
                      && (forall i :: rowIndex <= i < |after| ==> after[i] == before[i + 1])
  {
    if p < |t.products| then Ok(WithTable(t, p, RemoveAt(t.products[p].table, rowIndex))) else TypeError
  }

  /** `deleteRow` never empties a table that has a row. */
  lemma DeleteRowKeepsOne(t: Tables, index: nat)
    requires HasCurrent(t) && |t.products[t.productIndex.value].table| >= 1
    ensures |DeleteRow(t, index).value.products[t.productIndex.value].table| >= 1
  {
  }

  /** `deleteTableRow` can empty a table. */
  lemma DeleteTableRowEmpties(t: Tables, p: nat)
    requires p < |t.products| && |t.products[p].table| == 1
    ensures DeleteTableRow(t, p, 0).value.products[p].table == []
  {
  }

  /** Deleting the row just added by `addRowToQuotationTable` restores the tables. */
  lemma AddThenDeleteTableRow(t: Tables, p: nat)
    requires p < |t.products|
    ensures var added := AddRowToQuotationTable(t, p).value;
            DeleteTableRow(added, p, |t.products[p].table|) == Ok(t)
  {
    var added := AddRowToQuotationTable(t, p).value;
    RemoveAtPush(t.products[p].table, ZeroRow);
    assert added.products[p].table == t.products[p].table + [ZeroRow];
    assert WithTable(added, p, t.products[p].table).products == t.products;
  }

  /** Deleting the row just added by `addRow` restores the tables, once the table had a row. */
  lemma AddThenDeleteRow(t: Tables)
    requires HasCurrent(t) && |t.products[t.productIndex.value].table| >= 1
    ensures DeleteRow(AddRow(t).value, |t.products[t.productIndex.value].table|) == Ok(t)
  {
    var p := t.productIndex.value;
    var added := AddRow(t).value;
    RemoveAtPush(t.products[p].table, EmptyRow);
    assert added.products[p].table == t.products[p].table + [EmptyRow];
    assert WithTable(added, p, t.products[p].table).products == t.products;
  }

  /** Removing the product just added restores the tables. */
  lemma AddThenRemoveProduct(t: Tables)
    ensures RemoveProduct(AddProduct(t), |t.products|) == t
  {
    RemoveAtPush(t.products, QuotationProduct("", []));
  }

  /**
    Removing a product in front of the remembered one leaves the index
    pointing at the product behind it; removing the last product while it
    is remembered leaves no current product, and `addRow` then throws.
   */
  lemma RemoveProductShiftsCurrent(t: Tables, index: nat)
    requires HasCurrent(t) && index < t.productIndex.value
    ensures var r := RemoveProduct(t, index);
            t.productIndex.value < |r.products| ==> r.products[t.productIndex.value] == t.products[t.productIndex.value + 1]
  {
  }

  lemma RemoveCurrentLastProduct(t: Tables)
    requires HasCurrent(t) && t.productIndex.value == |t.products| - 1
    ensures AddRow(RemoveProduct(t, t.productIndex.value)).TypeError?
  {
  }

  /** A date control's value: empty, not a date, or a calendar day counted from some epoch. */
  datatype DateValue = Empty | Unparsable | Day(ordinal: int)

  /** The validation errors a control can carry. */
  datatype DateError = RequiredError | InvalidDate

  /** The condition `validateDates` tests: both dates present and valid-until strictly before the quote date. */
  predicate EndsBeforeStart(quoteDate: DateValue, validUntil: DateValue) {
    quoteDate.Day? && validUntil.Day? && validUntil.ordinal < quoteDate.ordinal
  }

  /**
    `validateDates`: replaces valid-until's errors by `invalidDate` when it
    ends before the quote date; otherwise the errors stay as they were.
   */
  function ValidateDates(quoteDate: DateValue, validUntil: DateValue, errors: set<DateError>): (r: set<DateError>)
    ensures InvalidDate in r <==> EndsBeforeStart(quoteDate, validUntil) || InvalidDate in errors
    ensures RequiredError in r <==> RequiredError in errors && !EndsBeforeStart(quoteDate, validUntil)
  {
    if quoteDate.Day? && validUntil.Day? && validUntil.ordinal < quoteDate.ordinal then {InvalidDate}
    else errors
  }

  /** Running the validation twice is running it once. */
  lemma ValidateDatesIdempotent(quoteDate: DateValue, validUntil: DateValue, errors: set<DateError>)
    ensures ValidateDates(quoteDate, validUntil, ValidateDates(quoteDate, validUntil, errors))
            == ValidateDates(quoteDate, validUntil, errors)
  {
  }

  /** `validateDates` itself never removes the invalid-date mark: it only ever adds it. */
  lemma ValidateDatesNeverClears(quoteDate: DateValue, validUntil: DateValue, errors: set<DateError>)
    requires InvalidDate in errors
    ensures InvalidDate in ValidateDates(quoteDate, validUntil, errors)
  {
  }

  /** Selecting a product pushes a row that deleting the last row of that table takes away again. */
  lemma SelectThenDeleteTableRow(t: Tables, p: nat)
    requires p < |t.products|
    ensures var selected := OnProductSelected(t, p).value;
            DeleteTableRow(selected, p, |t.products[p].table|) == Ok(t.(productIndex := Some(p)))
  {
    var selected := OnProductSelected(t, p).value;
    RemoveAtPush(t.products[p].table, EmptyRow);
    assert selected.products[p].table == t.products[p].table + [EmptyRow];
    assert WithTable(selected, p, t.products[p].table).products == t.products;
  }

  /** The same day, or an empty or unparsable date, is never marked. */
  lemma SameDayAccepted(day: int, errors: set<DateError>)
    ensures ValidateDates(Day(day), Day(day), errors) == errors
    ensures ValidateDates(Empty, Day(day), errors) == errors
    ensures ValidateDates(Day(day), Unparsable, errors) == errors
  {
  }
}
