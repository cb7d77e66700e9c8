/**
  Quotation line items: creation with defaults, validators, the line price
  (quantity × unit price, less a fixed 18 % discount, plus the line's tax,
  rounded to hundredths), the document total, and the add/remove/populate
  operations on the item array.

  The price ignores the line's own discount field: the recomputation always
  uses 18, and `createItemFormGroup` always sets the field to 18, even when
  it is filled from a stored quotation.
 */
module QuotationPricing {

  import opened Forms
  import opened Rounding
  import CI = CapturedIndex

  /** The discount percentage every line price uses. */
  const FixedDiscount: real := 18.0

  /** One item line of the quotation form. */
  datatype Item = Item(
    productId: string,
    quantity: Field, unitPrice: Field, taxPercentage: Field, discountPercentage: Field,
    finalPrice: real)

  /** Values an item is created from when a stored quotation is loaded. */
  datatype Seed = Seed(
    productId: string,
    quantity: Field, unitPrice: Field, taxPercentage: Field, discountPercentage: Field,
    finalPrice: Field)

  /** The item array: each line with the index its change handler captured. */
  type Items = seq<CI.Slotted<Item>>

  /** The controls whose changes trigger a recomputation of the line price. */
  datatype PriceInput = Quantity | UnitPrice | TaxPercentage | DiscountPercentage

  /** A JavaScript truthiness test on a numeric control value. */
  predicate Truthy(f: Field) {
    f.Num? && f.value != 0.0
  }

  /** `createItemFormGroup(item?)`: seed values where truthy, defaults otherwise; discount always 18. */
  function CreateItem(seed: Option<Seed>): (r: Item)
    ensures seed.None? ==> r == Item("", Num(1.0), Blank, Num(0.0), Num(FixedDiscount), 0.0)
    ensures seed.Some? ==> (
              && r.productId == seed.value.productId
              && r.quantity == (if Truthy(seed.value.quantity) then seed.value.quantity else Num(1.0))
              && r.unitPrice == (if Truthy(seed.value.unitPrice) then seed.value.unitPrice else Blank)
              && r.taxPercentage == Num(OrZero(seed.value.taxPercentage))
              && r.finalPrice == OrZero(seed.value.finalPrice))
    ensures r.discountPercentage == Num(FixedDiscount)
  {
    match seed
    case None => Item("", Num(1.0), Blank, Num(0.0), Num(FixedDiscount), 0.0)
    case Some(s) =>
      Item(s.productId,
           if Truthy(s.quantity) then s.quantity else Num(1.0),
           if Truthy(s.unitPrice) then s.unitPrice else Blank,
           Num(OrZero(s.taxPercentage)),
           Num(FixedDiscount),
           OrZero(s.finalPrice))
  }

  /** Percentages are required and lie in [0, 100]. */
  predicate Percentage(f: Field) {
    Required(f) && AtLeast(f, 0.0) && AtMost(f, 100.0)
  }

  /** The item's validators: product chosen, quantity ≥ 1, unit price ≥ 0.01, tax and discount percentages. */
  predicate ItemValid(item: Item) {
    item.productId != "" &&
    RequiredAtLeast(item.quantity, 1.0) &&
    RequiredAtLeast(item.unitPrice, 0.01) &&
    Percentage(item.taxPercentage) &&
    Percentage(item.discountPercentage)
  }

  /**
    A stored item that passes the validators is loaded as a valid item, its
    discount aside (the loaded one is always 18); a new blank item is not valid
    until a product and a unit price are chosen.
   */
  lemma CreatedItemValid(seed: Seed)
    ensures seed.productId != "" && RequiredAtLeast(seed.quantity, 1.0) &&
            RequiredAtLeast(seed.unitPrice, 0.01) && Percentage(seed.taxPercentage)
            ==> ItemValid(CreateItem(Some(seed)))
    ensures !ItemValid(CreateItem(None))
  {
  }

  /** The price before rounding: base price, less the fixed discount, plus tax on the discounted amount. */
  function Unrounded(quantity: real, unitPrice: real, taxPercentage: real): real {
    var basePrice := quantity * unitPrice;
    var discountAmount := (basePrice * FixedDiscount) / 100.0;
    var afterDiscount := basePrice - discountAmount;
    var taxAmount := (afterDiscount * taxPercentage) / 100.0;
    afterDiscount + taxAmount
  }

  /** The unrounded price is 82 % of the base price, raised by the tax. */
  lemma UnroundedClosedForm(quantity: real, unitPrice: real, taxPercentage: real)
    ensures Unrounded(quantity, unitPrice, taxPercentage)
            == 0.82 * (quantity * unitPrice) * (1.0 + taxPercentage / 100.0)
  {
  }

  lemma UnroundedNonNegative(quantity: real, unitPrice: real, taxPercentage: real)
    requires quantity >= 0.0 && unitPrice >= 0.0 && taxPercentage >= 0.0
    ensures Unrounded(quantity, unitPrice, taxPercentage) >= 0.0
  {
    UnroundedClosedForm(quantity, unitPrice, taxPercentage);
    ProductNonNegative(quantity, unitPrice);
    ProductNonNegative(0.82 * (quantity * unitPrice), 1.0 + taxPercentage / 100.0);
  }

  /** `calculateItemPrice`: missing quantity, unit price or tax count as 0; the result is rounded to hundredths. */
  function ItemPrice(item: Item): (r: real)
    ensures var exact := Unrounded(OrZero(item.quantity), OrZero(item.unitPrice), OrZero(item.taxPercentage));
            && exact - 0.005 <= r <= exact + 0.005
            && (exact >= 0.0 ==> r >= 0.0)
  {
    Round2(Unrounded(OrZero(item.quantity), OrZero(item.unitPrice), OrZero(item.taxPercentage)))
  }

  /** The recomputation a line's handler performs on that line. */
  function CalculateItemPrice(item: Item): (r: Item)
    ensures r.finalPrice == ItemPrice(item)
    ensures r.(finalPrice := item.finalPrice) == item
  {
    item.(finalPrice := ItemPrice(item))
  }

  /** The line's stored final price is the price of its current inputs. */
  predicate Priced(item: Item) {
    item.finalPrice == ItemPrice(item)
  }

  predicate AllPriced(items: Items) {
    forall j :: 0 <= j < |items| ==> Priced(items[j].value)
  }

  /** Recomputing makes the line priced, and recomputing again changes nothing. */
  lemma CalculateItemPriceIdempotent(item: Item)
    ensures Priced(CalculateItemPrice(item))
    ensures CalculateItemPrice(CalculateItemPrice(item)) == CalculateItemPrice(item)
  {
  }

  /** The line's own discount field has no effect on its price. */
  lemma DiscountFieldIgnored(item: Item, discount: Field)
    ensures ItemPrice(item.(discountPercentage := discount)) == ItemPrice(item)
  {
  }

  predicate NonNegativeInputs(item: Item) {
    OrZero(item.quantity) >= 0.0 && OrZero(item.unitPrice) >= 0.0 && OrZero(item.taxPercentage) >= 0.0
  }

  /** Non-negative inputs give a non-negative price. */
  lemma ItemPriceNonNegative(item: Item)
    requires NonNegativeInputs(item)
    ensures ItemPrice(item) >= 0.0
  {
    UnroundedNonNegative(OrZero(item.quantity), OrZero(item.unitPrice), OrZero(item.taxPercentage));
  }

  /** Without tax the price is 82 % of quantity × unit price, rounded. */
  lemma UntaxedPrice(item: Item)
    requires OrZero(item.taxPercentage) == 0.0
    ensures ItemPrice(item) == Round2(0.82 * (OrZero(item.quantity) * OrZero(item.unitPrice)))
  {
    UntaxedUnrounded(OrZero(item.quantity), OrZero(item.unitPrice), OrZero(item.taxPercentage));
  }

  lemma UntaxedUnrounded(quantity: real, unitPrice: real, taxPercentage: real)
    requires taxPercentage == 0.0
    ensures Unrounded(quantity, unitPrice, taxPercentage) == 0.82 * (quantity * unitPrice)
  {
  }

  /** Ten at 50 with 18 % tax: 500, less 90 discount, plus 73.80 tax, is 483.80. */
  lemma PriceExample(item: Item)
    requires item.quantity == Num(10.0) && item.unitPrice == Num(50.0) && item.taxPercentage == Num(18.0)
    ensures ItemPrice(item) == 483.8
  {
    ExampleUnrounded();
    Round2Cents(48380);
  }

  lemma ExampleUnrounded()
    ensures Unrounded(10.0, 50.0, 18.0) == 483.8
  {
  }

  /** A line without a unit price is priced at 0. */
  lemma NoUnitPriceIsFree(item: Item)
    requires !item.unitPrice.Num?
    ensures ItemPrice(item) == 0.0
  {
    NoUnitPriceUnrounded(OrZero(item.quantity), OrZero(item.taxPercentage));
    Round2Cents(0);
  }

  lemma NoUnitPriceUnrounded(quantity: real, taxPercentage: real)
    ensures Unrounded(quantity, 0.0, taxPercentage) == 0.0
  {
  }

  /** A newly created item is priced: its final price 0 is the price of an item without unit price. */
  lemma NewItemPriced()
    ensures Priced(CreateItem(None))
  {
    NoUnitPriceIsFree(CreateItem(None));
  }

  /** A line's final price as the total reads it (`|| 0` keeps a number as it is). */
  function FinalPrice(item: Item): real {
    item.finalPrice
  }

  /** `getTotalAmount`: the sum of the lines' final prices; `calculateTotalAmount` computes the same. */
  function GetTotalAmount(items: Items): (r: real)
    ensures |items| == 0 ==> r == 0.0
    ensures (forall j :: 0 <= j < |items| ==> items[j].value.finalPrice >= 0.0) ==> r >= 0.0
  {
    if forall j :: 0 <= j < |items| ==> items[j].value.finalPrice >= 0.0 then
      CI.SumNonNegative(items, FinalPrice);
      CI.SumOf(items, FinalPrice)
    else CI.SumOf(items, FinalPrice)
  }

  /** Priced lines with non-negative inputs give a non-negative total; no lines give 0. */
  lemma TotalNonNegative(items: Items)
    requires AllPriced(items)
    requires forall j :: 0 <= j < |items| ==> NonNegativeInputs(items[j].value)
    ensures GetTotalAmount(items) >= 0.0
    ensures |items| == 0 ==> GetTotalAmount(items) == 0.0
  {
    forall j | 0 <= j < |items|
      ensures FinalPrice(items[j].value) >= 0.0
    {
      ItemPriceNonNegative(items[j].value);
    }
    CI.SumNonNegative(items, FinalPrice);
  }

  /** `addItem`: pushes a new item whose handler captures the current length. */
  function AddItem(items: Items): (r: Items)
    ensures |r| == |items| + 1 && r[..|items|] == items
    ensures r[|items|] == CI.Slotted(CreateItem(None), |items|)
    ensures GetTotalAmount(r) == GetTotalAmount(items)
  {
    assert (items + [CI.Slotted(CreateItem(None), |items|)])[..|items|] == items;
    CI.Push(items, CreateItem(None))
  }

  /** `initForm`: a single new item. */
  function Init(): (r: Items)
    ensures |r| == 1 && CI.Aligned(r) && r[0].value == CreateItem(None)
    ensures GetTotalAmount(r) == 0.0
  {
    AddItem([])
  }

  /** `removeItem`: removes the line unless it is the only one. */
  function RemoveItem(items: Items, index: nat): (r: Items)
    ensures |items| <= 1 ==> r == items
    ensures |items| > 1 ==> r == RemoveAt(items, index)
    ensures |items| >= 1 ==> |r| >= 1
    ensures |items| > 1 && index < |items| ==>
              GetTotalAmount(r) == GetTotalAmount(items) - items[index].value.finalPrice
    ensures AllPriced(items) ==> AllPriced(r)
  {
    if |items| > 1 then
      (if index < |items| then CI.SumRemoveAt(items, index, FinalPrice); RemoveAt(items, index) else items)
    else items
  }

  /** Writes one price input of an item. */
  function SetInput(input: PriceInput, v: Field): Item -> Item {
    (item: Item) =>
      match input
      case Quantity => item.(quantity := v)
      case UnitPrice => item.(unitPrice := v)
      case TaxPercentage => item.(taxPercentage := v)
      case DiscountPercentage => item.(discountPercentage := v)
  }

  /** A change to line `j`: its handler recomputes the line at the index it captured. */
  function Edit(items: Items, j: nat, input: PriceInput, v: Field): (r: Result<Items>)
    requires j < |items|
    ensures r.Ok? <==> items[j].slot < |items|
    ensures r.Ok? ==> |r.value| == |items| && forall k :: 0 <= k < |items| ==> r.value[k].slot == items[k].slot
    ensures r.Ok? ==>
              var s := items[j].slot;
              r.value[s].value ==
                CalculateItemPrice(if s == j then SetInput(input, v)(items[j].value) else items[s].value)
    ensures r.Ok? && items[j].slot != j ==> r.value[j].value == SetInput(input, v)(items[j].value)
    ensures r.Ok? ==> forall k :: 0 <= k < |items| && k != j && k != items[j].slot ==> r.value[k] == items[k]
    ensures r.Ok? ==> (
              GetTotalAmount(r.value) ==
              GetTotalAmount(items) - items[items[j].slot].value.finalPrice
              + (if items[j].slot == j then ItemPrice(SetInput(input, v)(items[j].value))
                 else ItemPrice(items[items[j].slot].value)))
  {
    var r := CI.EditAsWritten(items, j, SetInput(input, v), CalculateItemPrice);
    if r.Ok? then EditTotal(items, j, input, v); r else r
  }

  lemma EditTotal(items: Items, j: nat, input: PriceInput, v: Field)
    requires j < |items| && items[j].slot < |items|
    ensures var r := CI.EditAsWritten(items, j, SetInput(input, v), CalculateItemPrice).value;
            GetTotalAmount(r) ==
              GetTotalAmount(items) - items[items[j].slot].value.finalPrice
              + (if items[j].slot == j then ItemPrice(SetInput(input, v)(items[j].value))
                 else ItemPrice(items[items[j].slot].value))
  {
    var s := items[j].slot;
    var w := items[j].(value := SetInput(input, v)(items[j].value));
    var written := items[j := w];
    CI.SumUpdate(items, j, w, FinalPrice);
    CI.SumUpdate(written, s, written[s].(value := CalculateItemPrice(written[s].value)), FinalPrice);
  }

  /** The edited line itself is recomputed. */
  function EditCorrected(items: Items, j: nat, input: PriceInput, v: Field): (r: Items)
    requires j < |items|
    ensures |r| == |items|
    ensures r[j].value == CalculateItemPrice(SetInput(input, v)(items[j].value))
    ensures forall k :: 0 <= k < |items| && k != j ==> r[k] == items[k]
    ensures AllPriced(items) ==> AllPriced(r)
  {
    CI.EditCorrected(items, j, SetInput(input, v), CalculateItemPrice)
  }

  /** With fresh captured indices the handler recomputes the edited line. */
  lemma EditAlignedIsCorrect(items: Items, j: nat, input: PriceInput, v: Field)
    requires CI.Aligned(items) && j < |items|
    ensures Edit(items, j, input, v) == Ok(EditCorrected(items, j, input, v))
  {
    CI.AlignedEditIsCorrect(items, j, SetInput(input, v), CalculateItemPrice);
  }

  /**
    Add a second line, remove the first, then change the remaining line's
    quantity: its handler captured index 1, the array has one line, and the
    recomputation throws; the corrected edit prices the line.
   */
  lemma RemoveThenEditThrows()
    ensures var items := RemoveItem(AddItem(Init()), 0);
            && |items| == 1
            && Edit(items, 0, Quantity, Num(2.0)).TypeError?
            && Priced(EditCorrected(items, 0, Quantity, Num(2.0))[0].value)
  {
    var items := RemoveItem(AddItem(Init()), 0);
    assert items[0].slot == 1;
  }

  /**
    When the handler throws, the control keeps the value just written and the
    line's final price keeps its old value.
   */
  lemma ThrowKeepsWrittenValue(items: Items, j: nat, input: PriceInput, v: Field)
    requires j < |items| && items[j].slot >= |items|
    ensures var after := CI.StateAfterEdit(items, j, SetInput(input, v), CalculateItemPrice);
            && after[j].value == SetInput(input, v)(items[j].value)
            && after[j].value.finalPrice == items[j].value.finalPrice
  {
  }

  /** A product of the catalogue the item selector offers. */
  datatype CatalogProduct = CatalogProduct(id: string, saleAmount: Field, taxPercentage: Field)

  /** `products.find(p => p.id === id)`: the first product with that id. */
  function FindProduct(catalog: seq<CatalogProduct>, id: string): (r: Option<CatalogProduct>)
    ensures r.None? <==> forall k :: 0 <= k < |catalog| ==> catalog[k].id != id
    ensures r.Some? ==> exists k :: 0 <= k < |catalog| && catalog[k] == r.value && r.value.id == id &&
                                    forall i :: 0 <= i < k ==> catalog[i].id != id
  {
    if |catalog| == 0 then None
    else if catalog[0].id == id then Some(catalog[0])
    else
      var r := FindProduct(catalog[1..], id);
      if r.Some? then
        var k :| 0 <= k < |catalog| - 1 && catalog[1..][k] == r.value && r.value.id == id &&
                 forall i :: 0 <= i < k ==> catalog[1..][i].id != id;
        assert catalog[k + 1] == r.value;
        r
      else r
  }

  /**
    `onProductSelect(index)`: when the line names a product of the catalogue,
    patches its unit price with the product's sale amount and its tax with the
    product's tax (`|| 0`). The patch emits: the unit-price handler runs first,
    still seeing the old tax, then the tax handler, each recomputing the line
    at its captured index. A handler that throws is reported by its
    subscription and does not stop the patch, so both values are always
    written; only a missing line makes the selection itself throw.
   */
  function OnProductSelect(items: Items, index: nat, catalog: seq<CatalogProduct>): (r: Result<Items>)
    ensures r.TypeError? <==> index >= |items|
    ensures r.Ok? ==> |r.value| == |items| && forall k :: 0 <= k < |items| ==> r.value[k].slot == items[k].slot
    ensures index < |items| && items[index].value.productId == "" ==> r == Ok(items)
    ensures index < |items| && FindProduct(catalog, items[index].value.productId).None? ==> r == Ok(items)
    ensures index < |items| && items[index].value.productId != "" &&
            FindProduct(catalog, items[index].value.productId).Some? ==>
              var p := FindProduct(catalog, items[index].value.productId).value;
              var selected := items[index].value.(unitPrice := p.saleAmount,
                                                  taxPercentage := Num(OrZero(p.taxPercentage)));
              && r.value[index].value.(finalPrice := selected.finalPrice) == selected
              && (forall k :: 0 <= k < |items| && k != index && k != items[index].slot ==> r.value[k] == items[k])
              && (items[index].slot >= |items| ==>
                    r.value[index].value == selected &&
                    forall k :: 0 <= k < |items| && k != index ==> r.value[k] == items[k])
              && (CI.Aligned(items) ==>
                    CI.Aligned(r.value) && r.value[index].value == CalculateItemPrice(selected) &&
                    forall k :: 0 <= k < |items| && k != index ==> r.value[k] == items[k])
  {
    if index >= |items| then TypeError
    else if items[index].value.productId == "" then Ok(items)
    else
      match FindProduct(catalog, items[index].value.productId)
      case None => Ok(items)
      case Some(p) =>
        var tax := Num(OrZero(p.taxPercentage));
        var priced := CI.StateAfterEdit(items, index, SetInput(UnitPrice, p.saleAmount), CalculateItemPrice);
        var r := CI.StateAfterEdit(priced, index, SetInput(TaxPercentage, tax), CalculateItemPrice);
        if CI.Aligned(items) then
          SelectAligned(items, index, p.saleAmount, tax);
          Ok(r)
        else Ok(r)
  }

  /**
    Add a second line, remove the first, name a catalogue product on the
    remaining line and select it: both handlers read past the end, the line
    shows the product's price and tax, and its final price stays 0.
   */
  lemma SelectAfterRemoveKeepsOldPrice(p: CatalogProduct)
    requires p.id != ""
    ensures var left := RemoveItem(AddItem(Init()), 0);
            var items := left[0 := left[0].(value := left[0].value.(productId := p.id))];
            var r := OnProductSelect(items, 0, [p]);
            && r.Ok?
            && r.value[0].value.unitPrice == p.saleAmount
            && r.value[0].value.taxPercentage == Num(OrZero(p.taxPercentage))
            && r.value[0].value.finalPrice == 0.0
  {
    var left := RemoveItem(AddItem(Init()), 0);
    assert left[0].slot == 1;
    var items := left[0 := left[0].(value := left[0].value.(productId := p.id))];
    assert FindProduct([p], p.id) == Some(p);
  }

  /** With current captured indices the two handlers recompute the selected line, with both new values. */
  lemma SelectAligned(items: Items, index: nat, price: Field, tax: Field)
    requires CI.Aligned(items) && index < |items|
    ensures var first := Edit(items, index, UnitPrice, price);
            && first.Ok? && CI.Aligned(first.value)
            && var r := Edit(first.value, index, TaxPercentage, tax);
               && r.Ok? && |r.value| == |items| && CI.Aligned(r.value)
               && r.value[index].value == CalculateItemPrice(items[index].value.(unitPrice := price, taxPercentage := tax))
               && forall k :: 0 <= k < |items| && k != index ==> r.value[k] == items[k]
  {
    EditAlignedIsCorrect(items, index, UnitPrice, price);
    var first := EditCorrected(items, index, UnitPrice, price);
    assert CI.Aligned(first);
    EditAlignedIsCorrect(first, index, TaxPercentage, tax);
  }

  /** `populateForm`: clears the array and pushes one created item per stored item, if there is an item list. */
  function PopulateItems(stored: Option<seq<Seed>>): (r: Items)
    ensures CI.Aligned(r)
    ensures stored.None? ==> r == []
    ensures stored.Some? ==> |r| == |stored.value|
    ensures stored.Some? ==> forall j :: 0 <= j < |r| ==> r[j].value == CreateItem(Some(stored.value[j]))
  {
    match stored
    case None => []
    case Some(seeds) => CI.PushAll(seq(|seeds|, j requires 0 <= j < |seeds| => CreateItem(Some(seeds[j]))))
  }

  /** A loaded quotation's items all show discount 18, whatever discount was stored. */
  lemma PopulateResetsDiscount(seeds: seq<Seed>, j: nat)
    requires j < |seeds|
    ensures PopulateItems(Some(seeds))[j].value.discountPercentage == Num(FixedDiscount)
  {
  }

  /** A loaded quotation keeps each stored truthy final price and total, until a line is edited. */
  lemma PopulateKeepsFinalPrices(seeds: seq<Seed>, j: nat)
    requires j < |seeds|
    ensures PopulateItems(Some(seeds))[j].value.finalPrice == OrZero(seeds[j].finalPrice)
  {
  }
}
