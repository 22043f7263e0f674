# Order screen of the medical assignment app, in Dafny

The Android app lets an insured user pick, each month, the drugs of their
health plan's catalog up to a monthly budget, and place that pick as an
order ("pedido"). The screen `AssignmentDetailScreen` holds all of the
logic: a budget-capped selection set, the order lifecycle (no order, order
in progress, order completed, month already completed), the action bar that
follows from it, and tolerant readers for the loosely typed JSON the
backend returns. This project models that logic and proves what it
promises. Every remote answer is an input value.

Modules:

- `Wrappers`: `Option`.
- `Text`: the Kotlin string functions the screen relies on: `trim`,
  `split(",")`, `isBlank`, `toIntOrNull`, and decimal rendering. It proves
  split/join and print/parse round trips.
- `Json`: decoded JSON values, `body[key]`, the `as? Number` / `as? String`
  casts and `Double.toInt()`.
- `Pedido`: order bodies and the order helpers:
  - the key aliases (`id`/`pk`, `status`/`estado`, `medicinas`/`meds`/`items`);
  - the medicine-id list in its three accepted shapes;
  - the "ordered this month" date test;
  - the in-progress lookup filter;
  - the "Error (code): text" message.
- `Catalog`: drugs, grouping of the `drugs` list into category sections,
  the plan budget, and catalog price sums.
- `Selection`: the budget-capped selection set.
  - A value type `Selection` with the function `Toggle` and the rehydration
    functions `ApplyPrevious` and `CatalogArrived`.
  - A class `SelectionState` whose fields the methods update in place. Each
    method is proved to follow the corresponding function.
- `Lifecycle`: the class `OrderScreen`:
  - the order flags `pedidoId`, `pedidoEnProgreso`, `pedidoFinalizado`,
    `mesCompletado` and `isLoading`;
  - the entry check;
  - the Save, Update and Finalizar actions;
  - the action-bar choice.

Money is `real`, so sums are exact. The current year and month are
parameters. The user id from the session is an `Option<int>` parameter.

A history call that throws lands in the `catch` of the entry check
(AssignmentDetailActivity.kt:616-620). That `catch` clears `pedidoId` and
both order flags and skips the in-progress lookup. Only a history answer
that is unsuccessful or has no body goes on to the lookup.
`Lifecycle.OrderScreen.Init` models this.

After a successful create whose re-lookup yields nothing, the id of the new
order stays unknown while the order counts as in progress. The bar then
shows Update and Finalizar, and both return at once for lack of an id.
`Lifecycle.CreateWithoutRefetchScenario` exhibits this.

## Model

| member | source | states |
|---|---|---|
| Text.Trim | app/src/main/java/com/example/medical_app/AssignmentDetailActivity.kt:486 | the result is a contiguous slice of the input, only whitespace is cut from either end, and neither end of a non-empty result is whitespace |
| Text.TrimStart | app/src/main/java/com/example/medical_app/AssignmentDetailActivity.kt:486 | the result is a suffix of the input, what was cut is whitespace, and it does not start with whitespace |
| Text.TrimEnd | app/src/main/java/com/example/medical_app/AssignmentDetailActivity.kt:486 | the result is a prefix of the input, what was cut is whitespace, and it does not end with whitespace |
| Text.TrimUnpadded | app/src/main/java/com/example/medical_app/AssignmentDetailActivity.kt:486 | trimming a string with no whitespace at either end gives it back |
| Text.Split | app/src/main/java/com/example/medical_app/AssignmentDetailActivity.kt:486 | `split(",")` always yields at least one piece |
| Text.SplitJoin | app/src/main/java/com/example/medical_app/AssignmentDetailActivity.kt:486 | no piece of a split holds the separator, and joining the pieces with it gives the input back |
| Text.JoinSplit | app/src/main/java/com/example/medical_app/AssignmentDetailActivity.kt:486 | splitting the join of separator-free pieces gives exactly those pieces back, in order |
| Text.ParseInt | app/src/main/java/com/example/medical_app/AssignmentDetailActivity.kt:412-413 | `toIntOrNull` succeeds only on an optional sign followed by at least one digit, and only for values that fit in 32 bits |
| Text.DigitsValueOfDigits | app/src/main/java/com/example/medical_app/AssignmentDetailActivity.kt:412-413 | the decimal digits of n read back as n |
| Text.ParseDecimalText | app/src/main/java/com/example/medical_app/AssignmentDetailActivity.kt:482 | every 32-bit integer printed in decimal parses back to itself |
| Text.DecimalTextUnpadded | app/src/main/java/com/example/medical_app/AssignmentDetailActivity.kt:486 | a printed integer is unchanged by trimming |
| Json.Get | app/src/main/java/com/example/medical_app/AssignmentDetailActivity.kt:474 | a present key reads as its value; an absent key reads as null |
| Json.FirstPresent | app/src/main/java/com/example/medical_app/AssignmentDetailActivity.kt:399-403 | the `?:` chain yields the value of the first key that is present and not null, and null only when every key is absent or null |
| Json.FirstPresentIs | app/src/main/java/com/example/medical_app/AssignmentDetailActivity.kt:399-403 | when the keys before key i all read as null and key i does not, the `?:` chain yields the value of key i |
| Json.ToInt32 | app/src/main/java/com/example/medical_app/AssignmentDetailActivity.kt:474 | `Double.toInt()` gives a 32-bit value; a non-negative x in range gives the largest integer not above x, a non-positive x the smallest not below it; values past either bound give that bound; the sign is kept |
| Json.ToInt32OfInt | app/src/main/java/com/example/medical_app/AssignmentDetailActivity.kt:474 | a whole number in range survives the trip through a double |
| Json.AsInt | app/src/main/java/com/example/medical_app/AssignmentDetailActivity.kt:474 | `(v as? Number)?.toInt()` is present exactly for numbers, and is their truncation |
| Json.AsString | app/src/main/java/com/example/medical_app/AssignmentDetailActivity.kt:475 | `v as? String` is present exactly for strings |
| Pedido.GetStatus | app/src/main/java/com/example/medical_app/AssignmentDetailActivity.kt:422-424 | a string `status` wins; otherwise `estado` is used, and only when it is a string |
| Pedido.IdOf | app/src/main/java/com/example/medical_app/AssignmentDetailActivity.kt:474 | a numeric `id` wins; otherwise `pk` is used, and only when it is a number |
| Pedido.FilterMap | app/src/main/java/com/example/medical_app/AssignmentDetailActivity.kt:478-485 | `mapNotNull` keeps exactly the present results and is never longer than its input |
| Pedido.FilterMapAppend | app/src/main/java/com/example/medical_app/AssignmentDetailActivity.kt:478-486 | `mapNotNull` of a concatenation is the concatenation of the two results, so order and repeats are kept |
| Pedido.FilterMapOne | app/src/main/java/com/example/medical_app/AssignmentDetailActivity.kt:478-486 | `mapNotNull` of one element is its value when it has one, and empty otherwise |
| Pedido.FilterMapAllPresent | app/src/main/java/com/example/medical_app/AssignmentDetailActivity.kt:478-485 | when every element maps to a value, `mapNotNull` returns all the values, in order |
| Pedido.ElementId | app/src/main/java/com/example/medical_app/AssignmentDetailActivity.kt:479-484 | a number element gives its `toInt()`; a string gives `toIntOrNull`; a map gives its numeric `id`, else its numeric `pk`; anything else gives nothing |
| Pedido.MedIds | app/src/main/java/com/example/medical_app/AssignmentDetailActivity.kt:477-489 | from a list, an id is returned exactly when some element is a number, a numeric string or a map with `id`/`pk` naming it; from a string, exactly when some comma-separated piece parses to it after trimming; any other shape gives no ids |
| Pedido.MedIdsListAppend | app/src/main/java/com/example/medical_app/AssignmentDetailActivity.kt:478-485 | the ids of a list are the ids of its first part followed by those of the rest, in order, with repeats |
| Pedido.MedIdsListOne | app/src/main/java/com/example/medical_app/AssignmentDetailActivity.kt:478-485 | a one-element list gives that element's id, or nothing when it has none |
| Pedido.MedIdsOfJoined | app/src/main/java/com/example/medical_app/AssignmentDetailActivity.kt:486 | a comma-joined string is read piece by piece, in order, each trimmed piece giving its number or nothing |
| Pedido.MedsRaw | app/src/main/java/com/example/medical_app/AssignmentDetailActivity.kt:476 | the medicines value is the first non-null of `medicinas`, `meds`, `items` |
| Pedido.ParsePedidoBody | app/src/main/java/com/example/medical_app/AssignmentDetailActivity.kt:473-490 | the id is read from `id` before `pk`; the status from a string `status` before a string `estado`; the medicines from the first non-null of `medicinas`, `meds`, `items` |
| Pedido.NumberListIds | app/src/main/java/com/example/medical_app/AssignmentDetailActivity.kt:478-481 | a list of 32-bit ids sent as JSON numbers is read back exactly |
| Pedido.StringListIds | app/src/main/java/com/example/medical_app/AssignmentDetailActivity.kt:478-482 | a list of ids sent as decimal strings is read back exactly |
| Pedido.NestedListIds | app/src/main/java/com/example/medical_app/AssignmentDetailActivity.kt:478-484 | a list of maps each holding a numeric `id` is read back as exactly those ids, in order |
| Pedido.NoCommaInDecimal | app/src/main/java/com/example/medical_app/AssignmentDetailActivity.kt:486 | a printed integer never contains a comma |
| Pedido.CsvIds | app/src/main/java/com/example/medical_app/AssignmentDetailActivity.kt:486 | ids sent as one comma-separated string are read back exactly, in order |
| Pedido.Take10 | app/src/main/java/com/example/medical_app/AssignmentDetailActivity.kt:407 | `take(10)` is the prefix of length min(10, length) |
| Pedido.ZeroPadded | app/src/main/java/com/example/medical_app/AssignmentDetailActivity.kt:407-413 | a zero-padded field of width w is w digits |
| Pedido.ZeroPaddedValue | app/src/main/java/com/example/medical_app/AssignmentDetailActivity.kt:412-413 | a zero-padded field reads back as the number it was written from |
| Pedido.IsPedidoDelMesActual | app/src/main/java/com/example/medical_app/AssignmentDetailActivity.kt:398-420 | an order is of this month exactly when the first non-null of `create_date`, `fecha_pedido`, `created_at` is a text of at least ten characters whose first ten have '-' at positions 4 and 7, a year field reading as the current year and a month field reading as the current month |
| Pedido.DateOfMonth | app/src/main/java/com/example/medical_app/AssignmentDetailActivity.kt:398-420 | an order whose `create_date` is a `YYYY-MM-DD` date, with anything after it, counts as "this month" exactly when its year and month are the current ones; the day and the rest are not examined |
| Pedido.CompletedThisMonth | app/src/main/java/com/example/medical_app/AssignmentDetailActivity.kt:566-569 | a one-entry history closes the month exactly when its entry is a "C" order of this month |
| Pedido.CompletedThisMonthAppend | app/src/main/java/com/example/medical_app/AssignmentDetailActivity.kt:566-569 | one more history entry closes the month exactly when the earlier entries did, or it is itself a "C" order of this month |
| Pedido.ScanStopsAt | app/src/main/java/com/example/medical_app/AssignmentDetailActivity.kt:566-568 | once `any` has got past every entry before entry i, entry i decides: a null entry throws, a "C" order of this month ends the scan with success, and any other entry lets it go on with the rest |
| Pedido.ScanRunsThrough | app/src/main/java/com/example/medical_app/AssignmentDetailActivity.kt:566-568 | a scan that gets past every entry finds nothing and does not throw |
| Pedido.ScanCases | app/src/main/java/com/example/medical_app/AssignmentDetailActivity.kt:566-568 | every scan either gets past every entry or reaches a null entry or a "C" order of this month, so the two lemmas above settle every history |
| Pedido.ScanWithoutNulls | app/src/main/java/com/example/medical_app/AssignmentDetailActivity.kt:566-568 | on a history without null entries the scan never throws, and finds a completed order exactly when `CompletedThisMonth` holds |
| Pedido.LookupInProgress | app/src/main/java/com/example/medical_app/AssignmentDetailActivity.kt:528-541 | the in-progress lookup yields an order exactly for a successful answer with a body whose code is neither 204 nor 404, and then yields the parsed body; a call that threw yields nothing |
| Pedido.ErrorMessage | app/src/main/java/com/example/medical_app/AssignmentDetailActivity.kt:464-471 | the message always starts with "Error (", the decimal code and ")"; it is exactly that when the error text is absent or blank, and otherwise that followed by ": " and the text, with nothing else |
| Catalog.ParseDrug | app/src/main/java/com/example/medical_app/AssignmentDetailActivity.kt:351-359 | a drug is built exactly when `id` and `costototal` are numbers; its id is `toInt()` of `id` and its price is `costototal` |
| Catalog.CategoryKey | app/src/main/java/com/example/medical_app/AssignmentDetailActivity.kt:348 | the grouping key is never null: the category's `nombre` when the category is a map with a non-null `nombre`, "Uncategorized" otherwise |
| Catalog.Entries | app/src/main/java/com/example/medical_app/AssignmentDetailActivity.kt:345-362 | the list is accepted only when every element is a map holding a valid drug, and then each drug is paired with its category key, position by position |
| Catalog.Insert | app/src/main/java/com/example/medical_app/AssignmentDetailActivity.kt:347-348 | filing one drug keeps every existing section in place; it opens a section exactly when no section has its key, and that section is the new last one holding just the drug |
| Catalog.GroupBy | app/src/main/java/com/example/medical_app/AssignmentDetailActivity.kt:347-348 | there are never more sections than drugs, and none exactly when there are no drugs |
| Catalog.GroupByAppend | app/src/main/java/com/example/medical_app/AssignmentDetailActivity.kt:347-348 | sections come in order of first appearance: one more drug keeps the existing sections in place, and a new key adds one last section holding just that drug |
| Catalog.GroupBySpec | app/src/main/java/com/example/medical_app/AssignmentDetailActivity.kt:347-349 | grouping gives distinct categories, exactly the keys met, and for every key exactly the drugs filed under it, in input order |
| Catalog.InsertSpec | app/src/main/java/com/example/medical_app/AssignmentDetailActivity.kt:347-349 | filing one drug keeps categories distinct, adds its key, and appends the drug to its key's section only |
| Catalog.ItemsOfDistinct | app/src/main/java/com/example/medical_app/AssignmentDetailActivity.kt:347-349 | with distinct categories, looking up a section's category finds that section's drugs |
| Catalog.SectionsHoldTheirMembers | app/src/main/java/com/example/medical_app/AssignmentDetailActivity.kt:347-362 | every section built holds exactly the drugs filed under its category and is never empty |
| Catalog.MembersNonEmpty | app/src/main/java/com/example/medical_app/AssignmentDetailActivity.kt:347-349 | every key that occurs has at least one drug |
| Catalog.BuildSections | app/src/main/java/com/example/medical_app/AssignmentDetailActivity.kt:345-362 | sections are built exactly when every drug element is valid, and are then the grouping of the drugs |
| Catalog.SectionsFromBody | app/src/main/java/com/example/medical_app/AssignmentDetailActivity.kt:334-372 | a new catalog replaces the old only when `drugs` is a non-empty list, and then it is the grouping of that list; otherwise the sections stay as they were |
| Catalog.PlanBudget | app/src/main/java/com/example/medical_app/AssignmentDetailActivity.kt:310-321 | a budget is read exactly when `plan_salud` is a map whose `presupuesto_mensual` is a number, and it is that number |
| Catalog.Find | app/src/main/java/com/example/medical_app/AssignmentDetailActivity.kt:452 | `firstOrNull { it.id == id }` finds a drug exactly when the id is in the catalog, and returns the first drug with that id |
| Catalog.SumIgnoresAbsent | app/src/main/java/com/example/medical_app/AssignmentDetailActivity.kt:391-394 | adding or removing an id absent from the catalog leaves the catalog sum unchanged |
| Catalog.SumAdd | app/src/main/java/com/example/medical_app/AssignmentDetailActivity.kt:391-394 | ticking one more catalog id raises the sum by that drug's price |
| Catalog.KeySumIsCatalogSum | app/src/main/java/com/example/medical_app/AssignmentDetailActivity.kt:391-394 | the sum over ticked ids, looking each up with `first`, equals the sum over catalog drugs whose id is ticked |
| Catalog.ZeroSum | app/src/main/java/com/example/medical_app/AssignmentDetailActivity.kt:391-394 | nothing ticked sums to zero |
| Selection.TotalIsSumOverTicked | app/src/main/java/com/example/medical_app/AssignmentDetailActivity.kt:391-394 | the total is the summed price of each ticked id, looked up in the catalog |
| Selection.Toggle | app/src/main/java/com/example/medical_app/AssignmentDetailActivity.kt:433-443 | a flip is accepted exactly when the new total stays within the budget. Accepted: only entry `id` changes, the ticked set gains or loses `id`, remaining = budget − new total, and with the catalog price the total is the new total, which is within budget. Refused: nothing changes. Catalog, budget and pending ids are never touched |
| Selection.FlipTotal | app/src/main/java/com/example/medical_app/AssignmentDetailActivity.kt:391-394 | flipping one catalog id moves the total by exactly its price |
| Selection.ToggleWithinBudget | app/src/main/java/com/example/medical_app/AssignmentDetailActivity.kt:433-443 | starting within budget, any toggle with the catalog price ends within budget, so no sequence of toggles exceeds it |
| Selection.ToggleTwice | app/src/main/java/com/example/medical_app/AssignmentDetailActivity.kt:433-443 | ticking and unticking the same drug restores the ticked set, and the remaining budget when it was budget − total |
| Selection.RehydratedStep | app/src/main/java/com/example/medical_app/AssignmentDetailActivity.kt:450-459 | one more listed id is ticked and paid when the catalog has it, and ignored otherwise |
| Selection.Max0 | app/src/main/java/com/example/medical_app/AssignmentDetailActivity.kt:460 | `coerceAtLeast(0.0)` is the larger of x and 0 |
| Selection.ApplyPrevious | app/src/main/java/com/example/medical_app/AssignmentDetailActivity.kt:445-462 | with no catalog, only the ids are parked; otherwise the ticked set is exactly the requested ids found in the catalog, unknown ids are dropped, remaining = max(0, budget − matched prices) and nothing stays parked; budget and catalog are kept, and remaining is never made negative |
| Selection.RehydratedRemaining | app/src/main/java/com/example/medical_app/AssignmentDetailActivity.kt:450-460 | for ids without repeats, the remaining budget after rehydration is max(0, budget − total of what was ticked) |
| Selection.MatchedSumIsCatalogSum | app/src/main/java/com/example/medical_app/AssignmentDetailActivity.kt:450-459 | for ids without repeats, the summed matched prices are the catalog sum of the ids found |
| Selection.RepeatedIdCountsTwice | app/src/main/java/com/example/medical_app/AssignmentDetailActivity.kt:450-459 | an id listed twice is charged twice against the budget but ticked once |
| Selection.CatalogArrived | app/src/main/java/com/example/medical_app/AssignmentDetailActivity.kt:504-508 | when a non-empty catalog arrives with ids parked, the result is `ApplyPrevious` of those ids on the new catalog, and nothing stays parked; without parked ids, or with an empty catalog, only the catalog changes; the budget is kept |
| Selection.DeferredRehydration | app/src/main/java/com/example/medical_app/AssignmentDetailActivity.kt:445-449 | parking ids and then receiving the catalog ends in the same state as receiving the catalog first and then applying the ids |
| Selection.ClearedForCompletedMonth | app/src/main/java/com/example/medical_app/AssignmentDetailActivity.kt:576-579 | a closed month has nothing ticked, no catalog and nothing parked; budget and remaining are kept |
| Selection.UserInfoBudget | app/src/main/java/com/example/medical_app/AssignmentDetailActivity.kt:185-188 | the user-information answer sets the budget to the plan's monthly budget when it has one and keeps it otherwise, resets the remaining budget to it, and leaves the selection, catalog and parked ids alone |
| Selection.UserInfoBudgetIgnoresTicked | app/src/main/java/com/example/medical_app/AssignmentDetailActivity.kt:185-188 | that reset does not subtract the ticked drugs: afterwards remaining = budget − total exactly when the total is zero |
| Selection.SelectionState.constructor | app/src/main/java/com/example/medical_app/AssignmentDetailActivity.kt:105-125 | the screen starts with nothing ticked, a zero budget, no catalog and nothing parked |
| Selection.SelectionState.CalcularTotal | app/src/main/java/com/example/medical_app/AssignmentDetailActivity.kt:391-394 | the total is the sum over ticked ids of each one's catalog price |
| Selection.SelectionState.OnToggle | app/src/main/java/com/example/medical_app/AssignmentDetailActivity.kt:433-443 | the fields after the call, and whether the flip was taken, are those given by `Toggle` |
| Selection.SelectionState.ApplyPreviousSelection | app/src/main/java/com/example/medical_app/AssignmentDetailActivity.kt:445-462 | the loop that clears and refills the ticked map and adds up matched prices ends in the state given by `ApplyPrevious` |
| Selection.SelectionState.SetSections | app/src/main/java/com/example/medical_app/AssignmentDetailActivity.kt:504-508 | assigning the catalog and running the effect gives the state `CatalogArrived` states |
| Selection.SelectionState.SetBudget | app/src/main/java/com/example/medical_app/AssignmentDetailActivity.kt:318-321 | a read budget sets both the budget and the remaining budget, and nothing else |
| Selection.SelectionState.ApplyUserBudget | app/src/main/java/com/example/medical_app/AssignmentDetailActivity.kt:185-188 | the fields after the user-information answer are those `UserInfoBudget` gives |
| Selection.SelectionState.ClearForCompletedMonth | app/src/main/java/com/example/medical_app/AssignmentDetailActivity.kt:576-579 | the state becomes `ClearedForCompletedMonth` of the old one |
| Selection.ThreeToggleScenario | app/src/main/java/com/example/medical_app/AssignmentDetailActivity.kt:433-443 | budget 100 with drugs at 40, 30 and 40: the first two ticks are accepted, leaving 60 and then 30; the third is refused, leaving 30 and two drugs ticked |
| Lifecycle.BarFor | app/src/main/java/com/example/medical_app/AssignmentDetailActivity.kt:979-1058 | the month notice exactly when the month is completed; otherwise the spinner exactly while loading; then the completed text exactly when finalized; then Update and Finalizar exactly when an order id is known or an order is in progress; Save in every remaining case |
| Lifecycle.FailureNotice | app/src/main/java/com/example/medical_app/AssignmentDetailActivity.kt:737-766 | a request that threw reports a network error; a rejected answer reports the "Error (code)" message |
| Lifecycle.AfterLookup | app/src/main/java/com/example/medical_app/AssignmentDetailActivity.kt:606 | an order with no medicines leaves the selection as it is; otherwise the ids are parked when there is no catalog, and with a catalog the ticked set becomes exactly the listed ids found in it; budget and catalog are kept, and a consistent selection stays consistent |
| Lifecycle.OrderScreen.constructor | app/src/main/java/com/example/medical_app/AssignmentDetailActivity.kt:93-125 | a new screen is loading with no order known and shows the spinner |
| Lifecycle.OrderScreen.ApplyInfo | app/src/main/java/com/example/medical_app/AssignmentDetailActivity.kt:600-606 | an order body sets the id, marks in progress exactly for status "P" and completed exactly for "C", and rehydrates its medicines when there are any |
| Lifecycle.OrderScreen.ForgetOrder | app/src/main/java/com/example/medical_app/AssignmentDetailActivity.kt:610-612 | no id, neither in progress nor completed |
| Lifecycle.OrderScreen.Init | app/src/main/java/com/example/medical_app/AssignmentDetailActivity.kt:544-625 | See the note after the table. |
| Lifecycle.OrderScreen.Save | app/src/main/java/com/example/medical_app/AssignmentDetailActivity.kt:632-774 | See the note after the table. |
| Lifecycle.OrderScreen.Update | app/src/main/java/com/example/medical_app/AssignmentDetailActivity.kt:775-855 | without a known order id nothing happens; without a user id the user is asked to sign in again; otherwise it sends the ticked ids, their total and status "P"; on success the re-lookup's order, if any, is taken over; on failure nothing changes and the failure is reported |
| Lifecycle.OrderScreen.Finalize | app/src/main/java/com/example/medical_app/AssignmentDetailActivity.kt:858-889 | without a known order id nothing happens; otherwise it sends status "C"; on success the order is completed and no longer in progress, with no re-lookup, and the bar shows the completed text; on failure the flags stay and the failure is reported |
| Lifecycle.NoOrderScenario | app/src/main/java/com/example/medical_app/AssignmentDetailActivity.kt:544-625 | an empty history and an in-progress lookup answering 404 leave no order and the Save button |
| Lifecycle.NullHistoryEntryScenario | app/src/main/java/com/example/medical_app/AssignmentDetailActivity.kt:562-620 | a history holding a "C" order of this month closes the month; the same history with a null entry in front of that order ends in the `catch`, leaving the month open, no order known, the in-progress order unread and the Save button |
| Lifecycle.CreateWithoutRefetchScenario | app/src/main/java/com/example/medical_app/AssignmentDetailActivity.kt:680-740 | a create answering id 7 with a failed re-lookup sends the "P" fix-up to order 7 and reports the creation; the order is in progress with no id, and the bar shows Update and Finalizar |

`Lifecycle.OrderScreen.Init`, row by row of its contract:

- Without a user id, it only stops loading.
- When the call threw, or the history holds a null entry before any "C"
  order of this month (`getStatus` then throws inside `any`), it forgets
  any order and skips the lookup. The month flag and the selection are kept.
- When a history order with status "C" falls in the current month:
  - the month is marked completed and the order completed, not in progress and without an id;
  - the selection and catalog are cleared;
  - the bar shows the month notice;
  - the lookup is skipped.
- Otherwise the in-progress lookup decides. Its order is taken over, or, when it yields nothing, any order is forgotten and the bar shows Save.

`Lifecycle.OrderScreen.Save`, row by row of its contract:

- Without a user id, it asks for a new sign-in and nothing changes.
- Otherwise it sends the user, the ticked ids and their total.
- The "P" fix-up is requested exactly when a successful create answered a numeric `id`, and it targets that id.
- A failed create changes nothing and reports the failure.
- After a successful create, the re-lookup's order is taken over. When the re-lookup yields nothing, the order becomes in progress, its id is unchanged, and the bar shows Update and Finalizar.
- Loading ends in every case.

## Left out

- The Compose UI, navigation, snackbars, toasts and logging. The action
  bar is kept as the `ActionBar` choice. The messages are kept as `Notice`.
- Retrofit calls, coroutines and dispatchers. Each action is one
  sequential step, and every call's outcome is an input `Response`. The
  outcome of the "P" fix-up request is ignored by the source and is not
  an input.
- `Lifecycle.OrderScreen.Save` and `Lifecycle.OrderScreen.Update` do not
  model rounding: `totalRedondeado` rounds the total to two decimals with
  `String.format` and maps a non-finite total to 0. The model sends the
  exact total.
- `Lifecycle.OrderScreen.Save` and `Lifecycle.OrderScreen.Update`: the ids
  sent are the ticked set. The order in which the map yields its keys is
  not modelled.
- Doubles are exact reals throughout. Float rounding in sums and
  comparisons is not modelled.
- `Calendar.getInstance()`: the current year and month are parameters.
- `SessionManager` is not part of this model. The user id is a parameter.
- `Text.ParseInt`, `Text.Trim` and `Pedido.ErrorMessage`: digits are ASCII
  only and whitespace is the ASCII and C0 separator set. Kotlin also
  accepts other Unicode digits in `toIntOrNull` and other Unicode spaces
  in `trim` and `isBlank`. `Text.ParseInt` states only the shape it
  accepts and its range; its converse is `Text.ParseDecimalText`.
- `Pedido.IsPedidoDelMesActual`: a date value that is not a string never
  matches. Kotlin would test its `toString()`. A list's or map's text
  starts with '[' or '{', so its year field fails `toIntOrNull`. A
  boolean's text is shorter than ten characters. A number's text has a
  '-' only at its start or right after the exponent mark, never at both
  positions 4 and 7 of a ten-character prefix.
- A history element that is neither a map nor null makes the decoding of
  the whole answer fail. The model takes that as a call that threw.
- Catalog display fields and category names keep the raw JSON value. Their
  `toString()` rendering is not modelled.
- `Selection.SelectionState.OnToggle` requires the id to be in the
  catalog. The screen only offers catalog drugs.
- `Selection.SelectionState.SetSections` requires catalog ids to be unique
  and every ticked id to stay in the catalog. With a repeated catalog id,
  `first` in `calcularTotal` takes the first drug with that id and does
  not throw. The total then uses that drug's price, while `onToggle` was
  given the price of the drug clicked. A ticked id missing from the
  catalog makes `calcularTotal` throw, at its next call. The model
  excludes both cases.
- The display state set by the two loading requests. From
  `getUserInformation` (AssignmentDetailActivity.kt:131-206) only the budget
  write is modelled, as `Selection.UserInfoBudget`; `insuranceName` and
  the user information shown above the catalog are left out. From
  `getAsignacionMensual` (AssignmentDetailActivity.kt:287-384) the budget
  and the catalog are modelled, as `Catalog.PlanBudget` and
  `Catalog.SectionsFromBody`; its error text is left out. Also left out:
  `msgMesCompletado` and `expandedCategory`.
- The commented-out lookup variant and `ON_RESUME` reload.
