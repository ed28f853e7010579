# facil billing core in Dafny

This project models the business logic of *facil*, a Django application for
invoicing (`facturas`), commercial offers (`ofertas`) and monthly sales
plans (`planes`) of the sales areas (`AreaVenta`) of a company. The
database is replaced by sequences of records that are passed in and out.
Money is integer cents, and compliance percentages are reals.

The model covers:

- **The compliance reports** (`Compliance`, `Dashboard`).
  - Per sales area, the dashboard gives:
    - the plan and the actual invoicing of the month;
    - the plan up to the month;
    - the plan and actual of the year;
    - the guarded percentages between them.
  - It then adds a TOTAL row computed from the summed columns.
  - The month table behind the month selector does the same for a selected month.
  - The dashboard also computes the collection cycle:
    - signed receivables over the year's sales, times the days elapsed;
    - truncated to an integer.
- **Document numbering** (`Numbering`, `Text`).
  - Invoice numbers are `YYYY-NNNN`. Each continues the textually greatest number among the invoices dated in the year.
  - Offer numbers are `YYYY` followed by a five-digit counter.
- **Item rows** (`Lines`, `InvoiceModel`, `OfferModel`).
  - `save()` of an invoice or offer item recomputes its amount as quantity times price.
  - An invoice total is the sum of its item amounts.
- **Invoice creation and item editing** (`InvoiceEditing`).
  - Item editing covers add, remove and change quantity, with the error paths of the request parameters.
- **The offer being put together in the session** (`OfferDraft`).
  - One entry per activity; remove by position; a total.
  - "terminar" numbers and stores the offer and its items.
- **Item editing of stored offers** (`OfferEditing`).
- **Turning an offer into an invoice** (`Promotion`).
- **The `.obl` export** (`OblExport`).
  - It writes the 17-line `key=value` file for one invoice.
  - It is proved to read back: the lines split back out, and the number, date and amounts parse back.
- **Plans** (`Plans`, `PlanRegistry`).
  - The one-plan-per-slot check `clean()`.
  - Creation and amount-only editing.
  - The listing filters and the list of available years.

Request parameters are modelled by `IntParam`:

- absent;
- empty;
- present but not an integer;
- an integer.

Each view checks Python truthiness and calls `int()` in its own way, and the model reproduces each of them. The outcomes of a request are:

- Django's 404 and a request that aborts (an uncaught exception) are `Failure`, `Aborted` or `Abort`;
- a message flashed back to the user is `Refused` or `Fail`.

An item request of `editar_factura` with a required parameter missing or empty skips its branch and reaches the final render, where `form` was never bound. That raises, so the model returns `Failure(NoForm)` there.

Where the reports diverge from their own labels, the model keeps the code's behaviour:

- The dashboard's cumulative percentage divides the whole year's actual by the plan up to the month.
- The month table's "annual actual" only runs through the selected month, which makes it equal to its cumulative actual.
  - `Dashboard.AnnualActualsDiffer` exhibits the difference from the dashboard.
  - `Dashboard.DecemberTableMatchesDashboard` shows the two agree for December.
- The month table's monthly plan is the first plan of the slot rather than a sum.
  - `Dashboard.TablePlanMatchesDashboard` shows the two agree when slots are unique.
- The `.obl` file follows Python's f-string output:
  - an absent cost centre, client code or account is written as `None`;
  - an invoice without a date makes the export fail;
  - the total of an invoice without items is written as `0`, not `0.00`.

## Model

| member | source | states |
|---|---|---|
| Common.MonthName | planes/models.py:29-42 | every month choice 1..12 has a non-empty Spanish name |
| Common.FindActivity | ofertas/views.py:80 | the activity returned is in the catalog with the requested id; None only when no catalog activity has that id |
| Common.FindStatus | ofertas/views.py:373 | the state returned is in the list with the requested id; None only when no state has that id |
| Text.NatToStringRoundTrip | facturas/views.py:350 | `int()` of the decimal text of n gives back n |
| Text.NatToStringInjective | facturas/views.py:355 | different counters never print the same text |
| Text.FourDigitYear | ofertas/views.py:205 | a year from 1000 to 9999 prints as exactly four characters, so `numero[4:]` starts after it |
| Text.PaddedRoundTrip | facturas/views.py:355 | a zero-padded counter is all digits and parses back to the counter |
| Text.PaddedLength | facturas/views.py:355 | a counter below 10^width pads to exactly width characters |
| Text.LexOrderIsNumericOrder | facturas/views.py:348 | for equal-length digit strings, text order is numeric order (both directions) |
| Text.LexTransitive | facturas/views.py:348 | the text order used by `order_by('-numero_factura')` is transitive |
| Text.LexTotal | facturas/views.py:348 | any two different texts are ordered one way or the other |
| Text.LexMax | facturas/views.py:348 | `.first()` after sorting descending: None exactly for no numbers, otherwise a member no other member exceeds |
| Text.SplitJoinRoundTrip | facturas/views.py:569 | joining separator-free parts and splitting again gives the parts back |
| Text.JoinSplitRoundTrip | facturas/views.py:350 | splitting at a separator and joining again gives the text back |
| Text.LowerStringOfLowerCase | facturas/views.py:74 | a string without capitals is its own case-folded form |
| Text.LowerStringIdempotent | facturas/views.py:74 | folding case twice is folding once, and every string matches its folded form ignoring case |
| Compliance.RecognizedIgnoresCase | facturas/views.py:73-75 | an invoice is excluded exactly when its state folds to "no firmada"; "NO FIRMADA" and "No Firmada" are excluded too |
| Compliance.SignedIsRecognized | facturas/views.py:185-187 | a state matching "firmada" in any case is never the excluded "no firmada" |
| Lines.Saved | facturas/models.py:49-51 | the saved row has amount = quantity × price and every other field unchanged |
| Lines.SaveIdempotent | facturas/models.py:49-51 | saving a saved row again changes nothing |
| Lines.SaveFixesOnlyPriced | facturas/models.py:49-51 | `save()` leaves a row unchanged exactly when its amount already equals quantity × price |
| Lines.TotalIsListPrice | facturas/views.py:426 | when every row was saved, the invoice total is the sum of quantity × price |
| Lines.TotalConcat | facturas/views.py:546 | the total of two item lists put together is the sum of their totals |
| Lines.TotalNonNegative | facturas/models.py:42-46 | items with non-negative amounts add up to a non-negative total |
| Lines.IndexOfId | facturas/views.py:397 | the position found holds the first item with that id; None exactly when no item has it |
| Lines.RemoveAt | ofertas/views.py:299 | deleting the element at a position (`del items_list[k]`, or an item row) keeps every other element, in order |
| Lines.TotalRemoveAt | facturas/views.py:397-398 | deleting an item lowers the total by exactly its amount |
| Lines.TotalReplaceAt | facturas/views.py:407-409 | re-saving an item changes the total by the difference of the old and new amounts |
| InvoiceModel.InvoiceItem.constructor | facturas/models.py:36-46 | an unsaved item instance holds the row it was given |
| InvoiceModel.InvoiceItem.Save | facturas/models.py:49-51 | after `save()` the instance's row is the saved row of the old one, so its amount is quantity × price |
| OfferModel.OfferItem.constructor | ofertas/models.py:32-42 | an unsaved offer item instance holds the row it was given |
| OfferModel.OfferItem.Save | ofertas/models.py:45-47 | after `save()` the offer item's amount is quantity × price and nothing else changed |
| Numbering.NumbersDatedIn | facturas/views.py:348 | exactly the numbers of the invoices dated in the year (both directions) |
| Numbering.NextInvoiceSequence | facturas/views.py:348-352 | 1 when no invoice is dated in the year; otherwise, for the textually greatest number of the year, it fails exactly when that number's counter does not parse, and is one past that counter when it does |
| Numbering.NextInvoiceNumber | facturas/views.py:348-355 | exists exactly when the counter does; it splits at its dash into the year, and its counter reads back as the next counter |
| Numbering.InvoiceNumberRoundTrip | facturas/views.py:350-355 | `{year}-{n:04d}` splits at its dash into the year and the padded counter, and parsing gives back n |
| Numbering.InvoiceNumberWellNumbered | facturas/views.py:355 | a counter below 10000 gives a number of the year's shape |
| Numbering.NextInvoiceNumberIsFresh | facturas/views.py:346-355 | when every stored invoice is dated and numbered for its date's year, the next counter exceeds every counter of the year, and the new number differs from every stored number. When the year has an invoice, the next counter is one past the counter of one of them. |
| Numbering.NumbersWithPrefix | ofertas/views.py:202 | exactly the offer numbers starting with the prefix (both directions) |
| Numbering.NextOfferSequence | ofertas/views.py:202-209 | at least 1; 1 when no offer number starts with the year; otherwise, for the textually greatest such number, 1 when its suffix is not a number and one past that number when it is |
| Numbering.NextOfferNumber | ofertas/views.py:201-210 | for a four-digit year the number starts with the year, and everything after the year reads back as the next counter |
| Numbering.OfferNumberRoundTrip | ofertas/views.py:205-210 | `{year}{n:05}` starts with the year, and `numero[4:]` is the padded counter that parses back to n |
| Numbering.NextOfferNumberIsFresh | ofertas/views.py:201-210 | when every stored offer number has the `YYYYNNNNN` shape, the next counter exceeds every counter of the year and the new number is not already stored. When the year has an offer, the next counter is one past the counter of one of them. |
| InvoiceEditing.CreateInvoice | facturas/views.py:338-356 | fails exactly on an unparsable last number, a number already taken or a missing default state; otherwise appends one undated invoice with the scanned number and state 1 |
| InvoiceEditing.CreateInvoiceRepeatsNumber | facturas/views.py:346-356 | from an empty store, the second creation of a year computes `YYYY-0001` again and is refused as a duplicate |
| InvoiceEditing.CreateInvoiceDated | facturas/views.py:346-356 | like creation, but the new invoice is dated today, the day whose year was scanned |
| InvoiceEditing.CreateInvoiceDatedKeepsNumbering | facturas/views.py:346-356 | dated creation always succeeds on a well-numbered store with room in the year, and keeps the store well-numbered with unique numbers |
| InvoiceEditing.SuccessiveDatedCreationsDiffer | facturas/views.py:346-356 | two dated creations in a row both succeed and give different numbers |
| InvoiceEditing.ResolveActivity | facturas/views.py:379-381 | a non-integer id fails, an unknown id is a 404, and a found activity has the requested id |
| InvoiceEditing.ResolveItem | facturas/views.py:394-397 | a non-integer id fails, an id not among the invoice's items is a 404, and a found position holds that id |
| InvoiceEditing.ParseQuantity | facturas/views.py:386 | succeeds exactly for a non-negative integer, with that value; a negative one violates the positive-integer field |
| InvoiceEditing.AddInvoiceItem | facturas/views.py:375-390 | a missing or empty parameter falls through to the unbound `form` and raises; otherwise it fails exactly when the activity or the quantity does not resolve, and on success exactly one item priced at the activity's current price is appended and earlier items and header are kept |
| InvoiceEditing.RemoveInvoiceItem | facturas/views.py:393-400 | a missing or empty id falls through to the unbound `form` and raises; otherwise it fails exactly when the item is not found, or removes exactly that item |
| InvoiceEditing.UpdateInvoiceItemQuantity | facturas/views.py:402-411 | a missing or empty parameter falls through to the unbound `form` and raises; otherwise it fails exactly when the item or the quantity does not resolve, the item being looked up first; on success only that item's quantity changes and it is re-saved |
| InvoiceEditing.ApplyItemEdit | facturas/views.py:373-411 | an item request changes nothing of the invoice but its items |
| InvoiceEditing.FindInvoice | facturas/views.py:371 | the position found holds the invoice with that id; None exactly when no invoice has it |
| InvoiceEditing.EditInvoice | facturas/views.py:367-411 | an unknown invoice is a 404; otherwise it succeeds exactly when the item request on that invoice does, fails with that request's error, and on success replaces that invoice, and no other, by the request's result |
| InvoiceEditing.EditInvoiceKeepsNumbering | facturas/views.py:367-411 | item edits keep the store well-numbered and its numbers unique |
| OfferDraft.DraftFor | ofertas/views.py:258-265 | the entry records the activity, the quantity, the activity's current price and price × quantity |
| OfferDraft.DraftTotalConcat | ofertas/views.py:273 | the draft total of two lists put together is the sum of their totals |
| OfferDraft.DraftTotalRemoveAt | ofertas/views.py:297-300 | deleting an entry lowers the draft total by exactly its amount |
| OfferDraft.RemoveAtKeepsDraft | ofertas/views.py:297-300 | deleting an entry keeps one entry per activity and every amount = price × quantity |
| OfferDraft.FindDraftActivity | ofertas/views.py:249-253 | the search loop answers true exactly when some entry has the activity |
| OfferDraft.CreateOfferItems | ofertas/views.py:222-228 | one stored item per entry with the same activity, quantity and price and amount = quantity × price; it stops at the first negative quantity |
| OfferDraft.OfferSession.constructor | ofertas/views.py:188-195 | a fresh session has no header and no item list |
| OfferDraft.OfferSession.Start | ofertas/views.py:38-46 | `crear_oferta` stores the header and leaves any existing item list as it was |
| OfferDraft.OfferSession.AddItem | ofertas/views.py:187-270 | no header: refused. It passes exactly when a parameter is absent, or the activity is found, not yet listed and the quantity is an integer. An unknown activity, a listed one or a non-integer quantity is refused with the list unchanged. On a pass with both parameters, exactly one entry, priced at the current price, is appended. |
| OfferDraft.OfferSession.RemoveItem | ofertas/views.py:284-304 | an empty or non-integer position aborts (the `int()` is not guarded); a position in range, 0 when none is posted, deletes exactly that entry; one out of range is reported; every non-pass leaves the list unchanged |
| OfferDraft.OfferSession.Finalize | ofertas/views.py:198-238 | numbers the offer for today's year, stores it with one item per entry, and clears both session keys; every failure leaves the session as it was |
| OfferEditing.LookupActivity | ofertas/views.py:80 | an unknown or malformed activity id is caught; a found activity has the requested id |
| OfferEditing.LookupItem | ofertas/views.py:104 | an id not among the offer's items is caught; a found position holds that id |
| OfferEditing.StoreQuantity | ofertas/views.py:120-121 | stored exactly for a non-negative integer; text that is not an integer is refused; a missing or negative value aborts |
| OfferEditing.AddOfferItem | ofertas/views.py:75-97 | refused for an unknown activity or one already on the offer; stored exactly when the activity is found and new and the quantity stores; aborted exactly when the quantity is missing or negative; on success exactly one priced item is appended, keeping one item per activity |
| OfferEditing.RemoveOfferItem | ofertas/views.py:100-110 | an unknown item is refused, a non-integer id aborts, otherwise exactly that item is deleted |
| OfferEditing.UpdateOfferItemQuantity | ofertas/views.py:113-126 | stored exactly when the item is found and the quantity stores, aborted exactly when the item is found and the quantity is missing or negative, and refused otherwise; otherwise only its quantity changes and it is re-saved |
| OfferEditing.UpdateKeepsActivitiesDistinct | ofertas/views.py:113-126 | a quantity change keeps one item per activity |
| OfferEditing.RemoveKeepsActivitiesDistinct | ofertas/views.py:100-110 | deleting an item keeps one item per activity |
| OfferEditing.ApplyItemEdit | ofertas/views.py:73-126 | an item request changes nothing of the offer but its items |
| OfferEditing.FindOffer | ofertas/views.py:69 | the position found holds the offer with that id; None exactly when no offer has it |
| OfferEditing.EditOffer | ofertas/views.py:59-126 | an unknown offer is a 404; otherwise it is stored, refused or aborted exactly as the item request on that offer is, and on success replaces that offer, and no other, by the request's result |
| OfferEditing.EditOfferKeepsNumbersAndDates | ofertas/models.py:10-12 | item edits keep every offer's number and creation date, so numbers stay unique |
| Promotion.CopyItems | ofertas/views.py:378-385 | one invoice item per offer item, with the same activity, quantity and price; the amount passed in is replaced by quantity × price |
| Promotion.CopiedListPrice | ofertas/views.py:378-385 | the copied items are priced and add up to the offer items' list price |
| Promotion.CopiedTotal | ofertas/views.py:378-385 | when the offer's items were saved, the new invoice's total equals the offer's total |
| Promotion.PromoteOffer | ofertas/views.py:348-388 | an unknown offer is a 404. It fails exactly on an unparsable last number, a missing state 1 or a number already taken. Otherwise one invoice is appended with the offer's area, client and notes, state 1, today's date and the scanned number. It carries copies of the offer's items, and its total equals the offer's when the offer's items were saved. Numbers stay unique. |
| Promotion.PromotionKeepsNumbering | facturas/views.py:346-355 | the promoted invoice's number is not taken, and the store stays well-numbered with unique numbers |
| OblExport.MoneyText | facturas/views.py:559 | a two-decimal amount prints with a point before exactly two fraction digits and no line break |
| OblExport.MoneyTextRoundTrip | facturas/views.py:559 | the printed amount parses back to the same number of cents, negative amounts included |
| OblExport.DateTextReadsBack | facturas/views.py:556 | `%d/%m/%Y` of a valid date is 10 characters, splits at `/` into the padded day, month and year, and each parses back |
| OblExport.OptText | facturas/views.py:553-554 | an absent text field is written as `None`, a present one as itself |
| OblExport.OptIntText | facturas/views.py:560 | an absent account is written as `None` |
| OblExport.TotalText | facturas/views.py:546 | an invoice without items writes `0`; otherwise the text parses back to the invoice total |
| OblExport.OblLines | facturas/views.py:549-566 | the file has exactly 17 lines |
| OblExport.ExportObl | facturas/views.py:536-576 | an unknown invoice is a 404 and an undated one fails; otherwise the content is the 17 lines joined by newlines and the file name is the number plus `.obl` |
| OblExport.ValueOf | facturas/views.py:549-566 | a value read from a line is exactly what follows `key=` |
| OblExport.ValueOfWritten | facturas/views.py:549-566 | the value of a written `key=value` line reads back |
| OblExport.OblLinesSingleLine | facturas/views.py:569 | with single-line fields no line of the file contains a line break |
| OblExport.OblLinesFields | facturas/views.py:550-566 | each of the 17 lines is its fixed text or its key followed by the field, in the written order |
| OblExport.ExportReadsBack | facturas/views.py:549-574 | splitting the content gives the 17 lines back; the number, the date and both amounts parse back from their lines |
| OblExport.ExampleExport | facturas/views.py:549-566 | a sample invoice without cost centre exports `Unidad=None`, `Fechaemi=05/03/2025` and `ImporteMC=1500.00` |
| OblExport.ExampleTotal | facturas/views.py:546 | three units at 500.00 print as `1500.00` |
| Compliance.FirstPlanAmount | facturas/views.py:604-609 | 0 when no plan is for the slot; a non-zero value is the amount of a plan for the slot |
| Compliance.Pct | facturas/views.py:77-80 | 0 unless the plan is positive; otherwise pct × plan = real × 100, 100 exactly when real = plan, at most 100 exactly when real ≤ plan, non-negative for non-negative real |
| Compliance.TruncQuotient | facturas/views.py:214 | `int()` of a quotient: the integer between 0 and the exact quotient that is nearest to it |
| Compliance.ActualBounds | facturas/views.py:69-75 | an area's actual figure is 0 when no invoice counts (the `or 0` of an empty aggregate), and non-negative when invoice totals are |
| Compliance.CompanyActualBounds | facturas/views.py:206-210 | the year's sales are 0 when no invoice counts, and non-negative when invoice totals are |
| Compliance.SignedTotalBounds | facturas/views.py:185-187 | the receivables are 0 without a signed invoice, and non-negative when invoice totals are |
| Compliance.PlannedBounds | facturas/views.py:62-66 | a plan figure is 0 when no plan is for the area and window, and non-negative when plan amounts are |
| Compliance.DashboardCycle | facturas/views.py:196-214 | the dashboard's cycle is 0 without sales or elapsed days; with non-negative totals it is never negative, and never more than the days elapsed while receivables do not exceed sales |
| Compliance.CollectionCycle | facturas/views.py:196-214 | 0 unless sales and days are positive. Otherwise, for non-negative receivables, it is the largest whole number not exceeding receivables × days / sales, and never more than the days elapsed while receivables do not exceed sales. |
| Compliance.ActualSnoc | facturas/views.py:69-75 | an invoice adds its item total to the area's actual figure exactly when it is of the area, dated in the window and not "no firmada" in any case |
| Compliance.CompanyActualSnoc | facturas/views.py:206-210 | the year's sales grow by an invoice's total exactly when it is dated in the year and not "no firmada" |
| Compliance.ActualThroughSplit | facturas/views.py:633-639 | actual up to month m is actual up to m−1 plus actual of m |
| Compliance.PlannedThroughSplit | facturas/views.py:83-87 | plan up to month m is plan up to m−1 plus plan of m |
| Compliance.PlannedBeforeJanuary | facturas/views.py:83-87 | with valid plan months, the plan up to any month before January is 0 |
| Compliance.CumulativePlanIsMonthlySum | facturas/views.py:82-87 | with valid plan months, the cumulative plan is the sum of the monthly plans of months 1..m |
| Compliance.PlannedThroughDecember | facturas/views.py:89-93 | the plan up to December is the annual plan |
| Compliance.ActualThroughDecember | facturas/views.py:95-101 | the actual up to December is the whole year's actual |
| Compliance.FirstPlanIsMonthlyPlan | facturas/views.py:604-609 | with unique slots, the first plan of the slot is the sum of the slot's plans |
| Compliance.AreasFirstPlanIsMonthlyPlan | facturas/views.py:682 | with unique slots, the table's total monthly plan is the dashboard's |
| Compliance.AreasActualSnoc | facturas/views.py:126-130 | an invoice adds its area's share to the summed actual of all areas |
| Compliance.ShareOfListedArea | facturas/views.py:126-130 | an invoice of a listed area contributes its total exactly once when it counts, and an invoice of an unlisted area contributes nothing |
| Compliance.AreasAddUpToCompany | facturas/views.py:205-210 | when areas are distinct and cover every invoice, the sum over areas is the company-wide figure |
| Compliance.AreasActualEmpty | facturas/views.py:53-58 | with no invoices every summed actual is 0 |
| Dashboard.Dashboard | facturas/views.py:53-156 | one row per area (the area's figures and guarded percentages), then a TOTAL row whose five figures are the column sums and whose three percentages are computed from those sums |
| Dashboard.SelectMonth | facturas/views.py:583-589 | the month used is always 1..12: the requested one exactly when it is an integer in range, otherwise the current month |
| Dashboard.MonthTable | facturas/views.py:582-694 | the selected month, one row per area, then the TOTAL row of column sums with percentages from the sums; every row's cumulative and annual actuals are equal |
| Dashboard.TablePlanMatchesDashboard | facturas/views.py:604-609 | with unique slots the table's monthly plan equals the dashboard's, for every area and in the total |
| Dashboard.DecemberTableMatchesDashboard | facturas/views.py:650-657 | for December the table's annual actual is the dashboard's |
| Dashboard.AnnualActualsDiffer | facturas/views.py:96-101 | a December invoice counts 500 in the dashboard's annual actual but 0 in November's table |
| Dashboard.DashboardTotalIsYearSales | facturas/views.py:205-210 | when areas are distinct and cover every invoice, the TOTAL annual actual is the year's sales used by the collection cycle |
| Plans.ConflictExists | planes/models.py:60-64 | true exactly when another plan (not the plan itself) has the same area, year and month |
| Plans.Clean | planes/models.py:57-68 | refuses exactly when the slot is taken; the message names the slot, and a month outside the choices raises instead |
| Plans.CleanAcceptsSavedPlan | planes/models.py:64 | re-validating a saved plan of a store with unique slots and ids succeeds |
| Plans.CleanGuardsUniqueness | planes/models.py:57-68 | a new plan passes exactly when its slot is free, and adding it keeps slots unique |
| Plans.DuplicateMessageNamesSlot | planes/models.py:65-67 | the rejection message contains the area's name, the month's name and the year |
| Plans.FilterPlans | planes/views.py:12-25 | a non-integer filter raises; otherwise exactly the plans matching every supplied filter are kept |
| Plans.KeepMatching | planes/views.py:19-25 | a plan is kept exactly when it matches every supplied filter; never more plans than the store holds |
| Plans.NoFilterKeepsAll | planes/views.py:17-25 | with no filter every plan is listed, in the store's order |
| Plans.FiltersCompose | planes/views.py:20-23 | filtering by area and then by year is filtering by both |
| Plans.InsertYear | planes/views.py:28 | inserting a year into a newest-first list of distinct years keeps it so and adds exactly that year |
| Plans.AvailableYears | planes/views.py:28 | each year that has a plan, once, newest first, and no other |
| PlanRegistry.FindPlan | planes/views.py:76 | the position found holds the plan with that key; None exactly when no plan has it |
| PlanRegistry.CheckFields | planes/models.py:14-44 | passes exactly for a month among the choices and an amount from 0 to the field's maximum; otherwise names the failing field |
| PlanRegistry.PlanStore.constructor | planes/models.py:46-48 | an empty store satisfies the store invariant |
| PlanRegistry.PlanStore.Create | planes/views.py:51-66 | saves exactly when the fields are valid and the slot is free. The new plan is appended with a fresh key. Any failure leaves the store unchanged. Slots stay unique. |
| PlanRegistry.PlanStore.Edit | planes/views.py:75-83 | an unknown key is a 404; a valid amount replaces only that plan's amount, keeping area, year, month and uniqueness |

## Left out

- The Django ORM, HTTP requests and responses, redirects, flash message texts, permission decorators, templates, forms, admin and URL modules. Stores are sequences of records, and a request's outcome is a value.
- PDF generation for offers and invoices: a foreign library.
- The clock. The current year, month, date and days elapsed are parameters.
- Float conversions in the month table and in the draft prices. Amounts are exact integer cents and percentages exact reals, so float rounding is not modelled.
- Pct: the percentages are exact reals. The dashboard divides `Decimal` values at 28 significant digits (facturas/views.py:80, 106, 111, 135-143), so its rounding is not modelled.
- FilterPlans: keeps the plans in the store's order. The source lists `Plan.objects` in its default ordering (year descending, month descending, area), and that sort is not modelled.
- NoFilterKeepsAll: states the store's order, not the default ordering by year, month and area, for the reason given for FilterPlans.
- Saved: computes the amount exactly. The amount column holds 10 digits with 2 decimals, so a product of 10^8 units or more fails on save in the source; the model does not bound it.
- AddInvoiceItem: does not fail on an amount beyond the amount column's 10 digits, for the reason given for Saved.
- UpdateInvoiceItemQuantity: does not fail on an amount beyond the amount column's 10 digits, for the reason given for Saved.
- AddOfferItem: does not abort on an amount beyond the amount column's 10 digits, for the reason given for Saved.
- UpdateOfferItemQuantity: does not abort on an amount beyond the amount column's 10 digits, for the reason given for Saved.
- Compliance.CollectionCycle: computes receivables × days / sales exactly and truncates once. The source divides `Decimal` values at 28 significant digits before multiplying, so the model does not capture that rounding.
- The dashboard's chart series (invoices and amounts per month) and its plain counters (active clients, invoices of the year and of the month). These are display-only counts of the ORM.
- The order of the report rows. The source sorts areas by name; the model's rows follow the order of the given area list.
- The read-then-write race of number issuance under concurrent requests. Issuance is serialized.
- The session as a storage mechanism. It is a class holding the header and the item list.
- `int()` on request text: the model takes the parse result (`IntParam`) as input. Surrounding whitespace, signs and underscores accepted by Python's `int()` are not modelled.
- `str(Decimal)` of amounts beyond two decimals, and `strftime` of years below 1000 or above 9999.
- Database collation. Numbers are ordered by code point.
- Client PDF upload (file I/O) and the one-off maintenance and seed scripts.

## Findings

| source | as written | input that shows it | evidently intended | confidence | as-written member | corrected member |
|---|---|---|---|---|---|---|
| facturas/views.py:346-356 | `crear_factura` numbers an invoice by scanning the invoices dated in the year. It saves the new invoice without a date, because the creation form has no date field (facturas/forms.py:13-17). | Two invoices created in a year that has no dated invoice: both get `YYYY-0001`, and the second violates the unique constraint. | The new invoice is dated today, so that the next scan sees its number. | not executed | InvoiceEditing.CreateInvoiceRepeatsNumber | InvoiceEditing.CreateInvoiceDatedKeepsNumbering |
