# Captain Steel measurement and pricing core, in Dafny

This project models the calculation core of the Captain Steel back-office
application, an Angular front end for quoting and buying steel sheet
products. It covers:

- **Product calculation service** (`ProductCalculation`): feet and inches to
  running feet, running feet to square feet (3.5 ft² per running foot) and
  weight, the six-column totals fold, and mm² ↔ ft² conversion with
  304.8² = 92903.04 mm² per ft².
- **Feet/inch calculation dialog** (`SqFeetDialog`) and **millimetre
  calculation dialog** (`MmDialog`): tables of rows with derived values rounded
  to hundredths, running totals, add/remove and a save gated on the validators.
- **Quotation line pricing** (`QuotationPricing`): item creation, the line
  price with its fixed 18 % discount and the line's tax, the document total,
  add/remove/populate.
- **Quotation product tables and date validation** (`QuotationTables`).
- **Purchase lines** (`Purchase`): the two-way discount between a percentage
  and an amount, chosen by the focused control, the unrounded final price and
  the total.
- **Searchable select widget** (`SearchableSelect`): case-insensitive
  filtering, the dropdown, single and multiple selection, and the label shown.

Shared modules:

- `Forms` models the values of form controls as `Unset | Blank | Num(x)`. It
  also holds the `|| 0` and `|| 1` coercions, the validators, and
  `FormArray.removeAt`.
- `Rounding` models `Number(x.toFixed(2))`.
- `CapturedIndex` models form-array lines whose change handler keeps the
  index the line had when it was pushed.
- `Text` models `toLowerCase`, `includes` and rendering a count in decimal.

JavaScript numbers are exact `real`s. Every change handler is an explicit
function of the state. A handler that reads `FormArray.at(i)` past the end
yields `TypeError`, because `undefined.get(...)` throws.
The handlers run inside RxJS subscriptions, which report such an error
instead of passing it to the code that changed the value; so the written
value stays (`CapturedIndex.StateAfterEdit`), and an operation that changes
several controls goes on to the next one.

Every quotation line is priced with a fixed 18 % discount and the line's own
tax, so 10 at 50 with 18 % tax is priced 483.80
(`QuotationPricing.PriceExample`).

## Model

| member | source | states |
|---|---|---|
| Forms.OrZero | src/app/components/shared/product-calculation-dialog/product-calculation-dialog.component.ts:94-99 | `x || 0`: the result is 0 exactly when the control is falsy (undefined, null, an empty string or 0), and otherwise it is the control's own number |
| Forms.OrOneOrZero | src/app/components/shared/product-calculation-dialog/product-calculation-dialog.component.ts:71-73 | `|| 1` and `|| 0` agree on every truthy value; they differ exactly when the value is falsy, where one reads 1 and the other 0 |
| Forms.OrOne | src/app/components/shared/product-calculation-dialog/product-calculation-dialog.component.ts:73 | `x || 1`: never 0; a non-zero number is kept, and everything falsy (0 included) reads as 1 |
| Forms.RemoveAt | src/app/components/shared/product-calculation-dialog/product-calculation-dialog.component.ts:65 | `removeAt(i)` drops exactly element i and shifts the rest down one; an index past the end leaves the array unchanged |
| Forms.RemoveAtPush | src/app/components/shared/product-calculation-dialog/product-calculation-dialog.component.ts:61-65 | pushing a control and then removing it at its own index gives the array back |
| Rounding.Round2 | src/app/components/shared/product-calculation-dialog/product-calculation-dialog.component.ts:82-84 | `Number(x.toFixed(2))` stays within half a cent of x and keeps its sign |
| Rounding.Round2IsCents | src/app/components/shared/product-calculation-dialog/product-calculation-dialog.component.ts:82-84 | the rounded value is a whole number of cents: the magnitude times 100 plus one half, floored, with the sign restored |
| Rounding.Round2Idempotent | src/app/components/shared/product-calculation-dialog/product-calculation-dialog.component.ts:82-84 | rounding an already rounded value changes nothing |
| Rounding.Round2Monotone | src/app/components/shared/product-calculation-dialog/product-calculation-dialog.component.ts:82-84 | rounding preserves order |
| Rounding.RoundsTo | src/app/components/shared/product-calculation-dialog/product-calculation-dialog.component.ts:82-84 | a value whose hundredfold lies within half of k rounds to k cents |
| ProductCalculation.RunningFeet | src/app/services/product-calculation.service.ts:10-13 | running feet are (feet + inch/12) × nos, feet × nos without inches, and non-negative for non-negative inputs |
| ProductCalculation.SqFeet | src/app/services/product-calculation.service.ts:15-17 | square feet divided by 3.5 give the running feet back; non-negative for non-negative running feet |
| ProductCalculation.Weight | src/app/services/product-calculation.service.ts:19-21 | weight is non-negative for non-negative inputs and 0 when the product weight is 0 |
| ProductCalculation.CalculateTotals | src/app/services/product-calculation.service.ts:23-39 | no rows total to six zeros; rows with non-negative values give non-negative totals |
| ProductCalculation.TotalsAppend | src/app/services/product-calculation.service.ts:23-31 | the totals of a concatenation are the field-wise sum of the two parts' totals |
| ProductCalculation.TotalsRemoveAt | src/app/services/product-calculation.service.ts:23-31 | removing a row takes exactly its six values out of the totals |
| ProductCalculation.TotalsPermutation | src/app/services/product-calculation.service.ts:23-31 | any reordering of the rows gives the same totals |
| ProductCalculation.ConvertMMToSqFeet | src/app/services/product-calculation.service.ts:41-43 | the result times 92903.04 is the input; 0 maps to 0 and non-negative to non-negative |
| ProductCalculation.ConvertSqFeetToMM | src/app/services/product-calculation.service.ts:45-47 | the input times 92903.04, non-negative for non-negative input |
| ProductCalculation.ConversionFactor | src/app/services/product-calculation.service.ts:8 | 304.8 squared is 92903.04 mm² per ft² |
| ProductCalculation.MMRoundTrip | src/app/services/product-calculation.service.ts:41-47 | mm² to ft² and back is the identity |
| ProductCalculation.SqFeetRoundTrip | src/app/services/product-calculation.service.ts:41-47 | ft² to mm² and back is the identity |
| ProductCalculation.MMToSqFeetMonotone | src/app/services/product-calculation.service.ts:41-43 | a larger area in mm² is a larger area in ft² |
| SqFeetDialog.Derive | src/app/components/shared/product-calculation-dialog/product-calculation-dialog.component.ts:69-85 | a recomputed row keeps its inputs, and its running feet, square feet and weight each lie within half a cent of the service's unrounded running feet, ×3.5 and × product weight |
| SqFeetDialog.DeriveNonNegative | src/app/components/shared/product-calculation-dialog/product-calculation-dialog.component.ts:69-85 | valid inputs and a non-negative product weight give non-negative running feet, square feet and weight |
| SqFeetDialog.DeriveIdempotent | src/app/components/shared/product-calculation-dialog/product-calculation-dialog.component.ts:69-85 | a recomputed row is consistent: recomputing it again changes nothing |
| SqFeetDialog.DeriveClosedForm | src/app/components/shared/product-calculation-dialog/product-calculation-dialog.component.ts:71-84 | for valid inputs, running feet = round2((feet + inch/12) × nos), square feet = round2(3.5 × that unrounded value), weight = round2(unrounded value × product weight) |
| SqFeetDialog.NosDefaultsToOne | src/app/components/shared/product-calculation-dialog/product-calculation-dialog.component.ts:73-96 | a missing or zero nos derives exactly like nos 1, but adds 0 to the nos total |
| SqFeetDialog.TotalsOf | src/app/components/shared/product-calculation-dialog/product-calculation-dialog.component.ts:90-109 | no rows total zero in every column, and rows whose summed values are all non-negative give non-negative totals |
| SqFeetDialog.TotalsOfMatchesService | src/app/components/shared/product-calculation-dialog/product-calculation-dialog.component.ts:90-109 | the dialog's own totals reducer is the service's field-wise fold over the rows read with `|| 0` |
| SqFeetDialog.TotalsOrderFree | src/app/components/shared/product-calculation-dialog/product-calculation-dialog.component.ts:90-109 | the totals do not depend on the order of the rows |
| SqFeetDialog.Init | src/app/components/shared/product-calculation-dialog/product-calculation-dialog.component.ts:39-44 | a fresh dialog holds exactly one row, the new row (feet 0, inch 0, nos 1, valid), and zero totals |
| SqFeetDialog.AddRow | src/app/components/shared/product-calculation-dialog/product-calculation-dialog.component.ts:50-62 | appends the new row after the existing ones, which are kept, and leaves the totals as they were |
| SqFeetDialog.FreshTotalsLag | src/app/components/shared/product-calculation-dialog/product-calculation-dialog.component.ts:39-62 | a fresh dialog displays nos total 0 although its rows total 1 |
| SqFeetDialog.AddRowTotalsLag | src/app/components/shared/product-calculation-dialog/product-calculation-dialog.component.ts:50-62 | after adding a row the rows' totals exceed the displayed totals by exactly one piece |
| SqFeetDialog.RemoveRow | src/app/components/shared/product-calculation-dialog/product-calculation-dialog.component.ts:64-67 | the rows become the old rows without the one at the index, with no minimum (an index past the end removes nothing); the new totals are those of the remaining rows, and plus the removed row's contribution they give the old totals |
| SqFeetDialog.RemovedRowTotals | src/app/components/shared/product-calculation-dialog/product-calculation-dialog.component.ts:90-109 | removing a row takes exactly its contribution out of the totals |
| SqFeetDialog.AddThenRemove | src/app/components/shared/product-calculation-dialog/product-calculation-dialog.component.ts:50-67 | removing the row just added gives the rows back |
| SqFeetDialog.RemoveLastRowSavesZero | src/app/components/shared/product-calculation-dialog/product-calculation-dialog.component.ts:64-115 | removing the only row leaves an empty table, which saves with all-zero totals |
| SqFeetDialog.CalculateRow | src/app/components/shared/product-calculation-dialog/product-calculation-dialog.component.ts:69-88 | the row at the index becomes its recomputation from its own inputs, every other row is kept, and the totals become those of the new rows |
| SqFeetDialog.CalculateRowOnConsistent | src/app/components/shared/product-calculation-dialog/product-calculation-dialog.component.ts:69-88 | on a dialog whose rows and totals are up to date, recomputing a row changes nothing |
| SqFeetDialog.CalculateRowIdempotent | src/app/components/shared/product-calculation-dialog/product-calculation-dialog.component.ts:69-88 | recomputing the same row twice is recomputing it once |
| SqFeetDialog.Edit | src/app/components/shared/product-calculation-dialog/product-calculation-dialog.component.ts:60-88 | a change to any row writes that row's input and recomputes the LAST row from its (possibly just written) inputs; an earlier edited row keeps its stale running feet; every other row and the totals' freshness are kept |
| SqFeetDialog.EditCorrected | src/app/components/shared/product-calculation-dialog/product-calculation-dialog.component.ts:60-88 | a change recomputes the edited row itself, whose running feet become the rounded value of its new inputs; other rows are kept and a table whose rows were all consistent stays so |
| SqFeetDialog.EditLastRowIsCorrect | src/app/components/shared/product-calculation-dialog/product-calculation-dialog.component.ts:60-88 | a change to the last row is handled as intended: the handler and the corrected edit agree |
| SqFeetDialog.EditLeavesEditedRowStale | src/app/components/shared/product-calculation-dialog/product-calculation-dialog.component.ts:60-88 | in a two-row dialog whose first row is new (a fresh dialog after one `addRow`), setting the first row's feet to 10 leaves its running feet 0, inconsistent with its inputs, whatever the product weight |
| SqFeetDialog.Save | src/app/components/shared/product-calculation-dialog/product-calculation-dialog.component.ts:111-115 | hands back the displayed totals exactly when every row passes its validators (feet, inch ≥ 0, nos ≥ 1, all required) |
| SqFeetDialog.AddRowKeepsConsistent | src/app/components/shared/product-calculation-dialog/product-calculation-dialog.component.ts:50-62 | adding a row keeps every row's derived values in step with its inputs |
| MmDialog.Area | src/app/components/shared/product-mm-calculation-dialog/product-mm-calculation-dialog.component.ts:74 | the area is non-negative for non-negative inputs and 0 when length or width is 0 |
| MmDialog.AreaWeight | src/app/components/shared/product-mm-calculation-dialog/product-mm-calculation-dialog.component.ts:76 | the weight is non-negative for non-negative inputs and 0 for product weight 0 |
| MmDialog.Derive | src/app/components/shared/product-mm-calculation-dialog/product-mm-calculation-dialog.component.ts:68-85 | a recomputed row keeps its inputs, and its mm², ft² and weight each lie within half a cent of the unrounded area, its exact ft² conversion, and that times the product weight (`|| 0`) |
| MmDialog.DeriveClosedForm | src/app/components/shared/product-mm-calculation-dialog/product-mm-calculation-dialog.component.ts:70-82 | for valid inputs sqMM = round2(length × width × nos), sqFeet = round2(that area / 92903.04) and weight = round2(that ft² value × product weight) |
| MmDialog.DeriveNonNegative | src/app/components/shared/product-mm-calculation-dialog/product-mm-calculation-dialog.component.ts:68-85 | valid inputs and a non-negative product weight give non-negative derived values |
| MmDialog.DeriveIdempotent | src/app/components/shared/product-mm-calculation-dialog/product-mm-calculation-dialog.component.ts:68-85 | a recomputed row is consistent: recomputing it again changes nothing |
| MmDialog.MissingWeightIsZero | src/app/components/shared/product-mm-calculation-dialog/product-mm-calculation-dialog.component.ts:76 | a product whose weight is missing or 0 gives every row weight 0, whatever its area |
| MmDialog.NosDefaultsToOne | src/app/components/shared/product-mm-calculation-dialog/product-mm-calculation-dialog.component.ts:72-97 | a missing or zero nos derives exactly like nos 1, but adds 0 to the nos total |
| MmDialog.SqFeetNearConversion | src/app/components/shared/product-mm-calculation-dialog/product-mm-calculation-dialog.component.ts:75-80 | the shown ft² value is within half a cent of the exact conversion of the unrounded area |
| MmDialog.SheetExample | src/app/components/shared/product-mm-calculation-dialog/product-mm-calculation-dialog.component.ts:70-80 | a 1000 by 500 mm sheet, two pieces, shows 1000000 mm² and 10.76 ft² |
| MmDialog.TotalsOf | src/app/components/shared/product-mm-calculation-dialog/product-mm-calculation-dialog.component.ts:87-110 | no rows total zero in every column, and rows whose summed values are all non-negative give non-negative totals |
| MmDialog.TotalsAppend | src/app/components/shared/product-mm-calculation-dialog/product-mm-calculation-dialog.component.ts:87-110 | the totals of a concatenation are the field-wise sum of the parts' totals |
| MmDialog.TotalsRemoveAt | src/app/components/shared/product-mm-calculation-dialog/product-mm-calculation-dialog.component.ts:87-110 | removing a row takes exactly its contribution out of the totals |
| MmDialog.Init | src/app/components/shared/product-mm-calculation-dialog/product-mm-calculation-dialog.component.ts:36-55 | a fresh dialog holds one valid row with length 0, width 0, nos 1 and derived zeros, and zero totals |
| MmDialog.AddRow | src/app/components/shared/product-mm-calculation-dialog/product-mm-calculation-dialog.component.ts:47-59 | appends the new row, keeps the others, and leaves the totals as they were |
| MmDialog.AddRowKeepsConsistent | src/app/components/shared/product-mm-calculation-dialog/product-mm-calculation-dialog.component.ts:47-59 | adding a row keeps every row's derived values in step with its inputs |
| MmDialog.RemoveRow | src/app/components/shared/product-mm-calculation-dialog/product-mm-calculation-dialog.component.ts:61-66 | with more than one row removes the row and refreshes the totals, which drop by exactly its contribution; with one row changes nothing |
| MmDialog.NeverEmpty | src/app/components/shared/product-mm-calculation-dialog/product-mm-calculation-dialog.component.ts:47-66 | adding and removing never leave a table that had a row without one |
| MmDialog.RemoveOnlyRowIsNoOp | src/app/components/shared/product-mm-calculation-dialog/product-mm-calculation-dialog.component.ts:61-66 | removing the only row of a fresh dialog leaves it as it was, totals included |
| MmDialog.CalculateRow | src/app/components/shared/product-mm-calculation-dialog/product-mm-calculation-dialog.component.ts:68-85 | the row at the index becomes its recomputation from its own inputs, every other row is kept, and the totals become those of the new rows |
| MmDialog.CalculateRowOnConsistent | src/app/components/shared/product-mm-calculation-dialog/product-mm-calculation-dialog.component.ts:68-85 | on a dialog whose rows and totals are up to date, recomputing a row changes nothing |
| MmDialog.CalculateRowIdempotent | src/app/components/shared/product-mm-calculation-dialog/product-mm-calculation-dialog.component.ts:68-85 | recomputing the same row twice is recomputing it once |
| MmDialog.Edit | src/app/components/shared/product-mm-calculation-dialog/product-mm-calculation-dialog.component.ts:57-85 | a change to any row writes that row's input and recomputes the LAST row from its (possibly just written) inputs; an earlier edited row keeps its stale area; every other row and the totals' freshness are kept |
| MmDialog.EditCorrected | src/app/components/shared/product-mm-calculation-dialog/product-mm-calculation-dialog.component.ts:57-85 | a change recomputes the edited row itself, whose area becomes the rounded area of its new inputs; other rows are kept and consistency of the whole table is preserved |
| MmDialog.EditLastRowIsCorrect | src/app/components/shared/product-mm-calculation-dialog/product-mm-calculation-dialog.component.ts:57-85 | a change to the last row is handled as intended: the handler and the corrected edit agree |
| MmDialog.EditLeavesEditedRowStale | src/app/components/shared/product-mm-calculation-dialog/product-mm-calculation-dialog.component.ts:57-85 | in a two-row dialog whose first row is new (a fresh dialog after one `addRow`), setting the first row's length and then width to 1000 leaves its area 0, inconsistent with its inputs |
| MmDialog.Save | src/app/components/shared/product-mm-calculation-dialog/product-mm-calculation-dialog.component.ts:112-119 | emits exactly when every row is valid: the displayed totals and, per row, only length, width and nos, since the derived controls are disabled |
| MmDialog.SavedInputsRecompute | src/app/components/shared/product-mm-calculation-dialog/product-mm-calculation-dialog.component.ts:112-119 | recomputing from the emitted row inputs gives back the rows of a consistent table |
| CapturedIndex.Push | src/app/components/all-quotation/add-quotation/add-quotation.component.ts:199-203 | the line is appended with its handler's index set to the old length; a fully current array stays current |
| CapturedIndex.PushAll | src/app/components/all-quotation/add-quotation/add-quotation.component.ts:554-566 | pushing lines one by one gives those lines, every handler holding its line's position |
| CapturedIndex.Recompute | src/app/components/all-quotation/add-quotation/add-quotation.component.ts:280-281 | `at(index)` throws exactly when the index is past the end; otherwise only that line is recomputed |
| CapturedIndex.EditAsWritten | src/app/components/all-quotation/add-quotation/add-quotation.component.ts:268-281 | a change throws exactly when the edited line's captured index is past the end; otherwise the line at the captured index is recomputed (from the written value when that is the edited line), the edited line otherwise keeps the written value unrecomputed, every captured index is kept, and every other line is unchanged |
| CapturedIndex.StateAfterEdit | src/app/components/all-quotation/add-quotation/add-quotation.component.ts:268-281 | after a change the form holds the handler's result; when the handler throws, the edited line holds the written value and every other line is as it was |
| CapturedIndex.EditCorrected | src/app/components/all-quotation/add-quotation/add-quotation.component.ts:268-278 | the edited line is written and recomputed, every other line is kept |
| CapturedIndex.AlignedEditIsCorrect | src/app/components/all-quotation/add-quotation/add-quotation.component.ts:268-278 | while every captured index equals its line's position, the handler recomputes the edited line |
| CapturedIndex.RemoveLastKeepsAligned | src/app/components/all-quotation/add-quotation/add-quotation.component.ts:261-266 | removing the last line keeps every captured index current |
| CapturedIndex.RemoveShiftsSlots | src/app/components/all-quotation/add-quotation/add-quotation.component.ts:261-266 | removing any other line leaves every line behind it with a captured index one past its position |
| CapturedIndex.EditAfterRemoveThrows | src/app/components/all-quotation/add-quotation/add-quotation.component.ts:261-281 | after such a removal, a change to the new last line throws |
| CapturedIndex.EditAfterRemoveHitsNeighbour | src/app/components/all-quotation/add-quotation/add-quotation.component.ts:261-281 | after such a removal, a change to an earlier line behind the gap recomputes the line after it and leaves the edited line as written, not recomputed |
| CapturedIndex.SumAppend | src/app/components/all-quotation/add-quotation/add-quotation.component.ts:311-314 | the total of a concatenation is the sum of the parts' totals |
| CapturedIndex.SumRemoveAt | src/app/components/all-quotation/add-quotation/add-quotation.component.ts:311-314 | removing a line takes exactly its price out of the total |
| CapturedIndex.SumUpdate | src/app/components/all-quotation/add-quotation/add-quotation.component.ts:311-314 | replacing a line changes the total by the difference of the two prices |
| CapturedIndex.SumAdd | src/app/components/all-quotation/add-quotation/add-quotation.component.ts:311-314 | when one price is the sum of two others on every line, its total is the sum of their totals |
| CapturedIndex.SumNonNegative | src/app/components/all-quotation/add-quotation/add-quotation.component.ts:311-314 | lines with non-negative prices have a non-negative total |
| QuotationPricing.CreateItem | src/app/components/all-quotation/add-quotation/add-quotation.component.ts:168-177 | a new item has quantity 1, a blank unit price, tax 0, discount 18 and final price 0; a stored item keeps its product id and its truthy quantity, unit price, tax and final price, falsy ones taking those defaults; the discount is 18 either way (partners: `CreatedItemValid`, `PopulateResetsDiscount`) |
| QuotationPricing.CreatedItemValid | src/app/components/all-quotation/add-quotation/add-quotation.component.ts:168-177 | a loaded item whose stored product, quantity, unit price and tax pass the validators is valid (its discount is 18); a new blank item is invalid until a product and a unit price are chosen |
| QuotationPricing.UnroundedClosedForm | src/app/components/all-quotation/add-quotation/add-quotation.component.ts:282-300 | before rounding the price is 0.82 × quantity × unit price × (1 + tax/100) |
| QuotationPricing.ItemPrice | src/app/components/all-quotation/add-quotation/add-quotation.component.ts:280-304 | the line price lies within half a cent of 0.82 × quantity × unit price × (1 + tax/100), with missing values as 0, and is non-negative when that is |
| QuotationPricing.CalculateItemPrice | src/app/components/all-quotation/add-quotation/add-quotation.component.ts:280-305 | the recomputation changes only the line's final price, which becomes `ItemPrice` of the line (partner: `CalculateItemPriceIdempotent`) |
| QuotationPricing.CalculateItemPriceIdempotent | src/app/components/all-quotation/add-quotation/add-quotation.component.ts:280-305 | a recomputed line is priced, and recomputing again changes nothing |
| QuotationPricing.DiscountFieldIgnored | src/app/components/all-quotation/add-quotation/add-quotation.component.ts:285 | the line's own discount field has no effect on its price |
| QuotationPricing.ItemPriceNonNegative | src/app/components/all-quotation/add-quotation/add-quotation.component.ts:282-304 | non-negative quantity, unit price and tax give a non-negative price |
| QuotationPricing.UntaxedPrice | src/app/components/all-quotation/add-quotation/add-quotation.component.ts:282-304 | without tax the price is round2(0.82 × quantity × unit price) |
| QuotationPricing.PriceExample | src/app/components/all-quotation/add-quotation/add-quotation.component.ts:282-304 | 10 at 50 with 18 % tax is priced 483.80 |
| QuotationPricing.NoUnitPriceIsFree | src/app/components/all-quotation/add-quotation/add-quotation.component.ts:284-290 | a line without a unit price is priced 0 |
| QuotationPricing.NewItemPriced | src/app/components/all-quotation/add-quotation/add-quotation.component.ts:280-305 | a new item's final price 0 is the price of its inputs |
| QuotationPricing.TotalNonNegative | src/app/components/all-quotation/add-quotation/add-quotation.component.ts:311-314 | priced lines with non-negative inputs total at least 0; no lines total 0 |
| QuotationPricing.GetTotalAmount | src/app/components/all-quotation/add-quotation/add-quotation.component.ts:311-314 | no lines total 0, and lines with non-negative final prices total at least 0 |
| QuotationPricing.AddItem | src/app/components/all-quotation/add-quotation/add-quotation.component.ts:199-203 | appends a new item with the current length as captured index; the total is unchanged |
| QuotationPricing.Init | src/app/components/all-quotation/add-quotation/add-quotation.component.ts:147-166 | the form starts with one new item, its index current, total 0 |
| QuotationPricing.RemoveItem | src/app/components/all-quotation/add-quotation/add-quotation.component.ts:261-266 | never removes the only line; otherwise removes the line and the total drops by exactly its final price; every line stays priced |
| QuotationPricing.Edit | src/app/components/all-quotation/add-quotation/add-quotation.component.ts:268-309 | a change throws exactly when the captured index is past the end; otherwise the line at the captured index is recomputed (from the written value when it is the edited line), an edited line elsewhere keeps the written value unpriced, every other line and every captured index is kept, and the total changes by exactly the recomputed line's new price less its old one |
| QuotationPricing.EditCorrected | src/app/components/all-quotation/add-quotation/add-quotation.component.ts:268-309 | the edited line is recomputed and every line stays priced |
| QuotationPricing.EditAlignedIsCorrect | src/app/components/all-quotation/add-quotation/add-quotation.component.ts:268-278 | while no line was removed ahead of others the handler and the corrected edit agree |
| QuotationPricing.RemoveThenEditThrows | src/app/components/all-quotation/add-quotation/add-quotation.component.ts:261-281 | add a line, remove the first, change the remaining one: the handler throws, the corrected edit prices it |
| QuotationPricing.ThrowKeepsWrittenValue | src/app/components/all-quotation/add-quotation/add-quotation.component.ts:268-281 | when the handler throws, the line keeps the value just written and its old final price |
| QuotationPricing.FindProduct | src/app/components/all-quotation/add-quotation/add-quotation.component.ts:457 | the first catalogue product with the id, or none exactly when no product has it |
| QuotationPricing.OnProductSelect | src/app/components/all-quotation/add-quotation/add-quotation.component.ts:454-465 | selecting throws only for a missing line, and leaves the items as they are when the line has no product id or the id is not in the catalogue; on a found product the line always ends up with the sale amount as unit price and the product tax (`|| 0`) as tax, because a throwing change handler does not stop the patch; with a stale captured index the line keeps its old final price and every other line is kept; with current indices the line is priced from both new values and every other line is kept |
| QuotationPricing.SelectAfterRemoveKeepsOldPrice | src/app/components/all-quotation/add-quotation/add-quotation.component.ts:199-203 | after adding a line and removing the first, selecting a product on the survivor writes its price and tax but leaves the final price at 0 |
| QuotationPricing.SelectAligned | src/app/components/all-quotation/add-quotation/add-quotation.component.ts:454-465 | with current captured indices, the unit-price handler and then the tax handler leave the selected line priced from both new values and every other line unchanged |
| QuotationPricing.PopulateItems | src/app/components/all-quotation/add-quotation/add-quotation.component.ts:535-568 | loading stored items gives one created item per stored item, in order, with current indices; no item list gives none |
| QuotationPricing.PopulateResetsDiscount | src/app/components/all-quotation/add-quotation/add-quotation.component.ts:168-177 | every loaded item shows discount 18, whatever was stored |
| QuotationPricing.PopulateKeepsFinalPrices | src/app/components/all-quotation/add-quotation/add-quotation.component.ts:168-177 | every loaded item keeps its stored final price, or 0 when none was stored |
| QuotationTables.WithTable | src/app/components/all-quotation/add-quotation/add-quotation.component.ts:113-115 | only the named product's table changes |
| QuotationTables.AddProduct | src/app/components/all-quotation/add-quotation/add-quotation.component.ts:205-212 | one more product, the existing ones kept in place, the new one with no selection and an empty table; the remembered index is kept |
| QuotationTables.RemoveProduct | src/app/components/all-quotation/add-quotation/add-quotation.component.ts:257-259 | one product fewer when the index names one: products ahead of it kept, those behind it moved forward one place; the remembered index is left as it was |
| QuotationTables.OnProductSelected | src/app/components/all-quotation/add-quotation/add-quotation.component.ts:216-233 | remembers the index and appends an empty row to that product's table; that product's selection, the number of products and every other product are kept; throws for an index that names no product |
| QuotationTables.AddRow | src/app/components/all-quotation/add-quotation/add-quotation.component.ts:105-116 | appends an empty row to the remembered product's table, its earlier rows kept; every other product, that product's selection and the remembered index are kept; throws when it names no product |
| QuotationTables.DeleteRow | src/app/components/all-quotation/add-quotation/add-quotation.component.ts:124-130 | with more than one row, removes the row at the index from the remembered product's table, shifting later rows forward; with one row changes nothing; everything else is kept; throws when it names no product |
| QuotationTables.AddRowToQuotationTable | src/app/components/all-quotation/add-quotation/add-quotation.component.ts:235-247 | appends a zero row (weight empty) to the named product's table, its earlier rows kept; everything else is kept; throws for an index that names no product |
| QuotationTables.DeleteTableRow | src/app/components/all-quotation/add-quotation/add-quotation.component.ts:249-255 | removes the row at the index, with no minimum, shifting later rows forward; everything else is kept; throws for an index that names no product |
| QuotationTables.DeleteRowKeepsOne | src/app/components/all-quotation/add-quotation/add-quotation.component.ts:124-130 | `deleteRow` never empties a table that had a row |
| QuotationTables.DeleteTableRowEmpties | src/app/components/all-quotation/add-quotation/add-quotation.component.ts:249-255 | `deleteTableRow` does empty a one-row table |
| QuotationTables.AddThenDeleteTableRow | src/app/components/all-quotation/add-quotation/add-quotation.component.ts:235-255 | deleting the row just added gives the tables back |
| QuotationTables.SelectThenDeleteTableRow | src/app/components/all-quotation/add-quotation/add-quotation.component.ts:216-255 | deleting the row a product selection just appended gives the tables back, with that product remembered |
| QuotationTables.AddThenDeleteRow | src/app/components/all-quotation/add-quotation/add-quotation.component.ts:105-130 | deleting the row just added gives the tables back once the table had a row |
| QuotationTables.AddThenRemoveProduct | src/app/components/all-quotation/add-quotation/add-quotation.component.ts:205-259 | removing the product just added gives the tables back |
| QuotationTables.RemoveProductShiftsCurrent | src/app/components/all-quotation/add-quotation/add-quotation.component.ts:214-259 | removing a product ahead of the remembered one makes the index name the product behind it |
| QuotationTables.RemoveCurrentLastProduct | src/app/components/all-quotation/add-quotation/add-quotation.component.ts:105-116 | removing the remembered product when it is the last makes `addRow` throw |
| QuotationTables.ValidateDates | src/app/components/all-quotation/add-quotation/add-quotation.component.ts:467-474 | valid-until is marked invalid afterwards exactly when both dates are set and it is strictly earlier, or it was marked already; its required error survives exactly when it was present and the dates are not out of order |
| QuotationTables.ValidateDatesIdempotent | src/app/components/all-quotation/add-quotation/add-quotation.component.ts:467-474 | running the validation twice is running it once |
| QuotationTables.ValidateDatesNeverClears | src/app/components/all-quotation/add-quotation/add-quotation.component.ts:467-474 | `validateDates` itself never removes the invalid-date mark; it only ever adds it |
| QuotationTables.SameDayAccepted | src/app/components/all-quotation/add-quotation/add-quotation.component.ts:471 | the same day, or a missing date, is never marked |
| Purchase.ChooseBranch | src/app/components/add-purchase/add-purchase.component.ts:131-147 | focus on the percentage or amount control picks that branch; no focus picks percentage when it is defined, else amount; any other focus drops the discount |
| Purchase.CalculateProductDiscount | src/app/components/add-purchase/add-purchase.component.ts:118-153 | inputs are kept, both discount fields become numbers, and final price plus discount amount is quantity × unit price |
| Purchase.PercentageBranch | src/app/components/add-purchase/add-purchase.component.ts:133-136 | the amount is total × percentage / 100 and the final price is total minus it |
| Purchase.AmountBranch | src/app/components/add-purchase/add-purchase.component.ts:138-141 | the amount is kept; the percentage is amount / total × 100 on a positive total, 0 otherwise |
| Purchase.OtherFocusDropsDiscount | src/app/components/add-purchase/add-purchase.component.ts:143-147 | focus on any other control zeroes both discount fields and the final price is the total |
| Purchase.UnfocusedUsesPercentage | src/app/components/add-purchase/add-purchase.component.ts:131-133 | with no focused control and a defined percentage the percentage branch runs |
| Purchase.PercentageAmountRoundTrip | src/app/components/add-purchase/add-purchase.component.ts:135-140 | on a positive total, percentage to amount to percentage gives the percentage back |
| Purchase.AmountPercentageRoundTrip | src/app/components/add-purchase/add-purchase.component.ts:135-140 | on a positive total, amount to percentage to amount gives the amount back |
| Purchase.PercentageThenAmount | src/app/components/add-purchase/add-purchase.component.ts:133-141 | recomputing a line from its percentage and then from its amount changes nothing the second time, on a positive total |
| Purchase.FocusedIdempotent | src/app/components/add-purchase/add-purchase.component.ts:118-153 | with a named focus, recomputing a recomputed line changes nothing |
| Purchase.UnroundedExample | src/app/components/add-purchase/add-purchase.component.ts:133-152 | one item at 10 with 12.345 % off has final price 8.7655: nothing is rounded |
| Purchase.ValidLineNonNegativePrice | src/app/components/add-purchase/add-purchase.component.ts:82-91 | a line passing its validators, recomputed from its percentage, never gets a negative final price |
| Purchase.GetTotalAmount | src/app/components/add-purchase/add-purchase.component.ts:158-161 | no lines total 0; on lines whose final price and discount add up to their total, the total plus the summed discounts is the summed quantity × unit price |
| Purchase.AddProduct | src/app/components/add-purchase/add-purchase.component.ts:93-97 | appends a new line with the current length as captured index; the total is unchanged |
| Purchase.Init | src/app/components/add-purchase/add-purchase.component.ts:70-91 | the form starts with one new line, index current, total 0 |
| Purchase.RemoveProduct | src/app/components/add-purchase/add-purchase.component.ts:99-104 | never removes the only line; otherwise removes it and the total drops by exactly its final price; every line stays balanced |
| Purchase.Edit | src/app/components/add-purchase/add-purchase.component.ts:106-153 | a change throws exactly when the captured index is past the end; otherwise the line at the captured index is recomputed (from the written value when it is the edited line) and balanced, an edited line elsewhere keeps the written value unrecomputed, and every other line is kept |
| Purchase.RecalculateBalances | src/app/components/add-purchase/add-purchase.component.ts:128-153 | every recomputation leaves the line's final price and discount adding up to quantity × unit price |
| Purchase.EditCorrected | src/app/components/add-purchase/add-purchase.component.ts:106-153 | the edited line is recomputed, its final price and discount add up to its total, other lines are kept |
| Purchase.EditAlignedIsCorrect | src/app/components/add-purchase/add-purchase.component.ts:93-119 | while no line was removed ahead of others the handler and the corrected edit agree |
| Purchase.NewLineBalanced | src/app/components/add-purchase/add-purchase.component.ts:82-91 | a new line's final price and discount add up to its total |
| Purchase.RemoveThenEditThrows | src/app/components/add-purchase/add-purchase.component.ts:93-119 | add a line, remove the first, change the remaining one: the handler throws, the corrected edit balances it |
| Text.Lower | src/app/shared/components/searchable-select/searchable-select.component.ts:75 | `toLowerCase` keeps the length and lower-cases each ASCII capital |
| Text.LowerIdempotent | src/app/shared/components/searchable-select/searchable-select.component.ts:75 | lower-casing twice is lower-casing once and leaves no capitals |
| Text.ContainsIff | src/app/shared/components/searchable-select/searchable-select.component.ts:75 | `includes` holds exactly when the text occurs at some position |
| Text.NatToString | src/app/shared/components/searchable-select/searchable-select.component.ts:109 | a count renders as at least one decimal digit, without a leading zero |
| Text.ParseNatToString | src/app/shared/components/searchable-select/searchable-select.component.ts:109 | reading the rendered count back gives the count |
| Text.NatToStringInjective | src/app/shared/components/searchable-select/searchable-select.component.ts:109 | different counts render differently |
| SearchableSelect.Init | src/app/shared/components/searchable-select/searchable-select.component.ts:23-42 | a new widget is closed, with empty search, empty selection, and every option shown |
| SearchableSelect.Filter | src/app/shared/components/searchable-select/searchable-select.component.ts:73-77 | an option is kept exactly when it is an option and its lower-cased label includes the lower-cased search text |
| SearchableSelect.FilterAppend | src/app/shared/components/searchable-select/searchable-select.component.ts:73-77 | filtering keeps the options' order: filtering a concatenation filters each part |
| SearchableSelect.FilterEmptySearch | src/app/shared/components/searchable-select/searchable-select.component.ts:73-77 | the empty search keeps every option, in order |
| SearchableSelect.FilterOptions | src/app/shared/components/searchable-select/searchable-select.component.ts:73-77 | only the shown options change: to exactly the options whose lower-cased label includes the lower-cased search text |
| SearchableSelect.OnSearch | src/app/shared/components/searchable-select/searchable-select.component.ts:68-77 | stores the text and shows the options matching it, in order; nothing else changes |
| SearchableSelect.ToggleDropdown | src/app/shared/components/searchable-select/searchable-select.component.ts:60-66 | flips the dropdown; opening it clears the search and shows every option; the selection and the options are kept |
| SearchableSelect.WriteValue | src/app/shared/components/searchable-select/searchable-select.component.ts:44-50 | in multiple mode a falsy value becomes the empty list and a list is taken as it is; otherwise the single value is stored |
| SearchableSelect.WriteValueSelects | src/app/shared/components/searchable-select/searchable-select.component.ts:44-50 | after writing, an option is selected exactly when it holds the written value (single mode) or a value of the written list (multiple mode); a falsy value selects nothing |
| SearchableSelect.RemoveAll | src/app/shared/components/searchable-select/searchable-select.component.ts:87 | drops every occurrence of the value and keeps every other value with its multiplicity |
| SearchableSelect.RemoveAllAppend | src/app/shared/components/searchable-select/searchable-select.component.ts:87 | the kept values stay in order: removing from a concatenation removes from each part |
| SearchableSelect.Toggle | src/app/shared/components/searchable-select/searchable-select.component.ts:81-88 | an absent value is appended at the end (one more occurrence), a present one loses every occurrence with the rest kept in order; other values keep their membership; no duplicates are introduced |
| SearchableSelect.SelectOption | src/app/shared/components/searchable-select/searchable-select.component.ts:79-97 | multiple mode flips the option value's membership, keeps every other value's, and changes nothing else; single mode selects the value, closes the dropdown, and changes nothing else |
| SearchableSelect.SelectOptionFlips | src/app/shared/components/searchable-select/searchable-select.component.ts:79-104 | afterwards the option is selected in single mode, and its selection is flipped in multiple mode |
| SearchableSelect.SelectOptionLeavesOthers | src/app/shared/components/searchable-select/searchable-select.component.ts:79-104 | in multiple mode options with another value keep their state |
| SearchableSelect.SelectTwiceRestores | src/app/shared/components/searchable-select/searchable-select.component.ts:81-88 | selecting an unselected option twice gives the selection back |
| SearchableSelect.SelectTwiceDeduplicates | src/app/shared/components/searchable-select/searchable-select.component.ts:81-88 | selecting a selected option twice leaves it once, at the end, with its duplicates gone |
| SearchableSelect.GetSelectedLabel | src/app/shared/components/searchable-select/searchable-select.component.ts:106-118 | multiple mode shows "N selected" or the placeholder; single mode with no value shows the default option's label |
| SearchableSelect.Find | src/app/shared/components/searchable-select/searchable-select.component.ts:116 | finds the first option holding the value, or none exactly when no option holds it |
| SearchableSelect.SingleLabel | src/app/shared/components/searchable-select/searchable-select.component.ts:115-117 | in single mode the label is that of the first option holding the selected value |
| SearchableSelect.SingleLabelPlaceholder | src/app/shared/components/searchable-select/searchable-select.component.ts:115-117 | in single mode with no option holding the value, the placeholder |
| SearchableSelect.MultiLabelCount | src/app/shared/components/searchable-select/searchable-select.component.ts:108-110 | the multiple-mode label's digits read back as the number of selected values |

## Left out

- HTTP services, routing, dialogs opening and closing, snackbars, the `localStorage` edit handoff, and `resetForm`/`onSubmit`: I/O and framework plumbing with no computation.
- RxJS subscriptions and `emitEvent: false`: each handler is an explicit function (`Edit`, `CalculateRow`, `Recalculate`), called once per value change.
- `document.activeElement` in the purchase form: it is the `focus` parameter (the focused element's `formcontrolname`).
- IEEE-754 doubles and the exact `toFixed` behaviour at binary ties: `Rounding.Round2` rounds exact reals half away from zero, so no claim is made about bit-exact results at ties, NaN or infinities.
- `Text.Lower`: only ASCII letters are lower-cased; JavaScript's full Unicode case mapping is not modelled.
- `SearchableSelect`: options are read through `labelKey`/`valueKey` once, as an option's label and value; the `onChange`/`onTouch` callbacks are not modelled; `===` on values is structural, so two equal arrays compare equal where JavaScript compares references; a boolean `false` value is not a separate case.
- `SearchableSelect.WriteValue`: requires, in multiple mode, a list or a falsy value, which is what the forms API binds there; the source would store any other truthy value as it is.
- `SqFeetDialog`: the product weight is a number; the source multiplies by `product.weight` without a default, so a product without a weight gives NaN, which is not modelled.
- Negative indexes to `removeAt` (which count from the end in Angular): callers pass row positions, so indexes are `nat`.
- `QuotationTables.ValidateDates`: the dates are calendar days; JavaScript `Date` parsing and time zones are not modelled, and Angular clearing the mark when the valid-until control itself is re-validated is outside the model.
- `QuotationPricing.PopulateItems`: the early return when no quotation data is given, which leaves the items as they were, is not modelled; the header fields that `populateForm` patches are not modelled.
- `QuotationPricing.GetTotalAmount`, `Purchase.GetTotalAmount`: `calculateTotalAmount` patches a `totalAmount` control that neither form declares, so the patch has no effect; the total is modelled as the value `getTotalAmount` computes.
- The quotation's customer-name sync and product loading: they copy a name and fill the catalogue (`QuotationPricing.OnProductSelect` takes the catalogue as a parameter).
- The measurement dialogs' saved totals: the quotation component declares no handler that receives them, so they never reach a line price.
- `QuotationTables.OnProductSelected`: when the index names no product the source has already remembered it before throwing; the model returns only the throw. The `selectedProduct` and `isDialogOpen` fields it sets only drive the dialog.

## Findings

| source | as written | input that shows it | evidently intended | confidence | as-written member | corrected member |
|---|---|---|---|---|---|---|
| src/app/components/all-quotation/add-quotation/add-quotation.component.ts:199-203 | each item's change handler recomputes the line at the array length captured when the item was pushed | add a second item, remove the first, change the remaining item's quantity: `at(1)` is undefined and the handler throws | the handler recomputes the line that changed | not executed | QuotationPricing.RemoveThenEditThrows | QuotationPricing.EditCorrected |
| src/app/components/add-purchase/add-purchase.component.ts:93-97 | each line's change handler recomputes the line at the array length captured when the line was pushed | add a second line, remove the first, change the remaining line's quantity: `at(1)` is undefined and the handler throws | the handler recomputes the line that changed | not executed | Purchase.RemoveThenEditThrows | Purchase.EditCorrected |
| src/app/components/shared/product-calculation-dialog/product-calculation-dialog.component.ts:60 | a change in any row recomputes the row at `length - 1`, the last row | two rows, set the first row's feet to 10: its running feet stay 0 | the edited row is recomputed | not executed | SqFeetDialog.EditLeavesEditedRowStale | SqFeetDialog.EditCorrected |
| src/app/components/shared/product-mm-calculation-dialog/product-mm-calculation-dialog.component.ts:57 | a change in any row recomputes the row at `length - 1`, the last row | two rows, set the first row's length and width to 1000: its area stays 0 | the edited row is recomputed | not executed | MmDialog.EditLeavesEditedRowStale | MmDialog.EditCorrected |
