# Cashier app model

This project is a Dafny model of the logic in a browser point-of-sale app for club events. The app has two cashier screens, a create page, an edit page and a statistics page. They share three pieces of logic:

- **Money arithmetic** (`public/shared/js/models.js`): cart total, change, tip, event totals and per-item sales.
- **A copy-on-write store** (`public/shared/js/storage.js`): events, their items and transactions, and the active event.
- **Helpers**: URL building (`public/shared/js/paths.js`) and HTML escaping (`ui.js`).

The modules follow the source files:

| module | source | models |
|---|---|---|
| `Models` | models.js | records, lenient parse, `calculateTotal`, `calculateChange`, `calculateTip`, `buildItemsMap`, `calculateEventTotals`, `calculateItemsSold` |
| `Text` | | JavaScript's `String.prototype.trim` |
| `Store` | storage.js | every state transition, and the invariant "ids are unique, and the active id is null or names an open event" |
| `Cart` | both `app.js` files | the cart object, the tile debounce and the line-item loop |
| `CashierRoot` | `app.js` | the register as a class: cart, received input, tip input with manual override |
| `CashierPublic` | `public/js/app.js` | the register as a class: no tip, signed display change |
| `ItemList` | | `findIndex`, `filter`, `map` and the splice-based move shared by the item editors |
| `ItemForm` | | the "add item" guards and the edit row's save |
| `Transfer` | | export data, export file name, and import mapping |
| `CreatePage` | `public/create/js/create-app.js` | a class over the pending item list |
| `EditPage` | `public/edit/js/edit-app.js` | a class over the loaded store and the event id |
| `Paths` | `paths.js` | `normalizeBaseUrl`, `getBaseUrl`, `resolve`, `page` |
| `Escape` | `ui.js` | `escapeHtml`, `escapeAttr`, and a one-pass encoder they both equal |
| `Stats` | `public/stats/js/stats-app.js` | hour bucketing, chart series and scale, items-table sort |

**Representation choices**
- Money is integer cents. `Math.round(x * 100) / 100` is the identity on whole cents, so it has no counterpart.
- A JavaScript object used as a dictionary with an observable key order is a sequence of entries in insertion order. This covers the cart, the hour map and the query object.
- A text input is a `Field`: `Blank`, or `Filled` with the result of `parseFloat`.
- Ids, clocks and the `<base>` element are parameters.

**Behaviour of the code worth knowing**
- `calculateChange` returns 0 at once for a negative received amount (`public/shared/js/models.js:73`), even when the total is negative and the difference would be positive.
- `createItem` and `createEvent` accept empty names (`public/shared/js/models.js:20-39`). Only the page handlers check the name; the import path does not check it at all.
- The code does not enforce unique event ids. In this model they are part of the store invariant `Store.Valid`. Adding an event preserves that invariant only when the new id is fresh.

## Model

| member | source | states |
|---|---|---|
| Models.CreateEvent | public/shared/js/models.js:20-29 | a new event has the given id and time, the trimmed name, no items, no transactions, and is open |
| Models.CreateItem | public/shared/js/models.js:31-39 | the item has trimmed name and color, and the price goes through the lenient parse |
| Models.CreateTransaction | public/shared/js/models.js:41-50 | the transaction records exactly the given timestamp, lines, total, received, change and tip |
| Models.SafeParseFloat | public/shared/js/models.js:53-56 | unparsable input gives 0; a parsed value, negative or not, passes unchanged |
| Models.CalculateChange | public/shared/js/models.js:71-76 | change is never negative; it is 0 for a negative or insufficient payment, otherwise received minus total |
| Models.CalculateTip | public/shared/js/models.js:78-83 | tip is never negative; it is 0 for a negative payment; otherwise received − total − change, clamped at 0 |
| Models.AutoTipIsZero | public/shared/js/models.js:71-83 | tip computed from the change calculateChange returns is always 0, and total + change + tip = received when the payment covers the total |
| Models.ItemsById | public/shared/js/models.js:85-91 | keys are exactly the item ids, and every entry is an item of the list carrying its key |
| Models.ItemsByIdLastWins | public/shared/js/models.js:85-91 | the last item with a given id is the one found under it |
| Models.BuildItemsMap | public/shared/js/models.js:85-91 | the loop builds `ItemsById(items)` |
| Models.CalculateTotal | public/shared/js/models.js:58-69 | the loop computes `CartTotal`: price × quantity over the known ids with positive quantity |
| Models.CartTotalConcat | public/shared/js/models.js:58-69 | the total of a cart split in two is the sum of the parts' totals |
| Models.CartTotalOrderFree | public/shared/js/models.js:58-69 | the total does not depend on the order of the entries: any two carts holding the same entries (as multisets) have the same total |
| Models.CartTotalOfUncounted | public/shared/js/models.js:58-69 | an empty cart, or one whose entries are unknown or non-positive, totals 0 |
| Models.DepositLowersTotal | public/shared/js/models.js:63-64 | a line for a negative-price item strictly lowers the total |
| Models.CalculateEventTotals | public/shared/js/models.js:93-105 | revenue is the sum of totals, tip the sum of tips (missing counts 0), count the number of transactions |
| Models.CartTotal | public/shared/js/models.js:58-69 | the sum of price × quantity over the lines whose id is known and whose quantity is positive; it is never negative unless some line has a negative amount (a deposit return) |
| Models.TipsAsWritten | public/shared/js/models.js:96-99 | whenever the tip sum as written is a number, it is the corrected tip sum |
| Models.RevenueConcat | public/shared/js/models.js:96-99 | revenue and tip sums are additive over a split history |
| Models.MissingTipPoisonsTipSum | public/shared/js/models.js:96-99 | as written, one transaction without a tip makes the tip sum NaN |
| Models.TipsAgreeWhenAllPresent | public/shared/js/models.js:96-99 | when every transaction has a tip, the corrected tip sum equals the sum as written |
| Models.SoldOfSpec | public/shared/js/models.js:107-124 | there is a row exactly for the known items some line mentions (stale ids dropped); it holds the item's name, the summed quantity, and that quantity at the current price |
| Models.AccumulateSold | public/shared/js/models.js:111-121 | the inner loop folds one transaction's lines into the rows |
| Models.CalculateItemsSold | public/shared/js/models.js:107-124 | the nested loops compute `SoldOf` over all lines of all transactions |
| Text.TrimSpec | public/shared/js/models.js:23 | trim keeps the middle part between an all-space prefix and an all-space suffix; the result has no space at either end, and is empty exactly when the input is all space |
| Text.TrimKeepsUnpadded | public/shared/js/paths.js:7 | a string without surrounding space is left as it is |
| Text.TrimIdempotent | public/shared/js/models.js:35 | trimming twice changes nothing more |
| Text.TrimEmpty | public/create/js/create-app.js:62 | the trimmed name is empty exactly when the input is all space |
| ItemList.ItemIndex | public/create/js/create-app.js:42-43 | the first position holding the id, or -1 when no item has it |
| ItemList.WithoutItem | public/shared/js/storage.js:80 | filtering never makes the list longer |
| ItemList.WithoutItemCounts | public/shared/js/storage.js:80 | filtering drops every copy of items with that id and keeps every other item as often as it occurred |
| ItemList.WithoutItemMembers | public/create/js/create-app.js:80 | the remaining items are exactly those with another id |
| ItemList.WithoutItemAbsent | public/shared/js/storage.js:80 | filtering by an id no item has changes nothing |
| ItemList.WithoutItemConcat | public/shared/js/storage.js:80 | filtering keeps relative order: it works piece by piece |
| ItemList.ReplaceItem | public/shared/js/storage.js:88-90 | same length; items with the id become the update, all others stay; an unknown id changes nothing |
| ItemList.Move | public/create/js/create-app.js:45-46 | the moved item lands at the target position; same length and same items; removing it from both lists gives the same list, so the others keep their order |
| Store.DefaultState | public/shared/js/storage.js:9-14 | no events, no active id |
| Store.LoadState | public/shared/js/storage.js:17-28 | a missing, unparsable or ill-shaped stored value gives the default state; a saved state comes back as it is |
| Store.SaveState | public/shared/js/storage.js:30-36 | loading what was saved gives back the saved state |
| Store.EventIndex | public/shared/js/storage.js:69 | the first event with the id, or -1 when none has it |
| Store.GetActiveEvent | public/shared/js/storage.js:53-56 | none for a null or empty active id, or one no event has; otherwise the first event with that id |
| Store.AddEvent | public/shared/js/storage.js:39-45 | the event is appended and becomes the active one |
| Store.SetActiveEvent | public/shared/js/storage.js:47-51 | only the active id changes |
| Store.UpdateEvent | public/shared/js/storage.js:58-65 | length, order and active id are kept; exactly the events with the updated id are replaced |
| Store.UpdateEventFinds | public/shared/js/storage.js:58-65 | after an update, looking up the id finds the replacement at the same position |
| Store.AddItemToEvent | public/shared/js/storage.js:68-74 | an unknown event id changes nothing; otherwise the target event gains the item at the end and nothing else changes |
| Store.RemoveItemFromEvent | public/shared/js/storage.js:76-82 | an unknown event id changes nothing; otherwise the target event's items are filtered by item id |
| Store.UpdateItemInEvent | public/shared/js/storage.js:84-92 | an unknown event id changes nothing; otherwise items with the updated id are replaced |
| Store.ReorderItemsInEvent | public/shared/js/storage.js:94-99 | an unknown event id changes nothing; otherwise the target event takes the given list |
| Store.AddTransaction | public/shared/js/storage.js:102-108 | an unknown event id changes nothing; otherwise the target event gains the transaction at the end, and items and other events stay |
| Store.AddTransactionRevenue | public/shared/js/storage.js:102-108 | recording adds the total to the event's revenue and the tip to its tips, and adds one to its count |
| Store.CloseEvent | public/shared/js/storage.js:111-121 | an unknown id changes nothing; otherwise the event is closed, and the active id is cleared exactly when it was that id |
| Store.WithoutEvent | public/shared/js/storage.js:126 | the remaining events are exactly those with another id |
| Store.DeleteEvent | public/shared/js/storage.js:124-132 | the events with the id are removed, and the active id is cleared exactly when it was that id |
| Store.WithoutEventConcat | public/shared/js/storage.js:126 | filtering events keeps relative order: it works piece by piece |
| Store.WithoutEventCounts | public/shared/js/storage.js:126 | filtering drops every copy of the events with the id and keeps every other event as often as it occurred |
| Store.DefaultStateValid | public/shared/js/storage.js:9-14 | the default state satisfies the store invariant |
| Store.ActiveEventIsOpen | public/shared/js/storage.js:53-56 | under the invariant, a non-empty active id always finds an open event with that id |
| Store.AddEventPreservesValid | public/shared/js/storage.js:39-45 | adding an open event with a fresh id keeps the invariant |
| Store.AddEventActivates | public/shared/js/storage.js:39-56 | after adding an event with a fresh non-empty id, it is the active event |
| Store.SetActiveEventValid | public/shared/js/storage.js:47-51 | activating keeps the invariant exactly when an open event has the id |
| Store.UpdateEventPreservesValid | public/shared/js/storage.js:58-65 | replacing an event by one with the same closed flag keeps the invariant |
| Store.ItemEditsPreserveValid | public/shared/js/storage.js:68-99 | the four item operations keep the invariant |
| Store.AddTransactionPreservesValid | public/shared/js/storage.js:102-108 | recording a transaction keeps the invariant |
| Store.CloseEventPreservesValid | public/shared/js/storage.js:111-121 | closing keeps the invariant: a closed event cannot stay active |
| Store.WithoutEventUnique | public/shared/js/storage.js:126 | filtering events keeps ids unique |
| Store.DeleteEventPreservesValid | public/shared/js/storage.js:124-132 | deleting keeps the invariant |
| Cart.Incremented | app.js:58 | the tapped id's quantity grows by one, every other quantity stays, and keys stay distinct with positive quantities; an existing entry keeps its place and every other line stays where it was, a new one is appended |
| Cart.BounceAfterAccept | app.js:48-50 | after a click accepted at a non-zero time t, a click on that tile is ignored exactly when it comes less than the window after t; other tiles are unaffected |
| Cart.DecrementedOrRemoved | app.js:51-57 | a quantity above 1 drops by one; otherwise the key is gone; other quantities stay, and no quantity ever reaches 0 |
| Cart.PositiveLines | app.js:124-129 | the entries with a positive quantity, and only those |
| Cart.ValidCartLines | app.js:104-129 | for a cart the screen keeps, the lines are the cart itself, and it has items exactly when it is not empty |
| Cart.CollectLineItems | app.js:124-129 | the loop computes `PositiveLines` |
| Cart.Max0 | app.js:117-118 | the result is non-negative, at least the input, and equal to the input or 0 |
| Cart.SafeReceived | app.js:111-112 | a negative received amount becomes 0; any other passes |
| CashierRoot.BarFor | app.js:25-36 | the bar shows the cart total, the clamped payment, a change that balances the payment when it suffices (0 otherwise), and tip 0 |
| CashierRoot.TypedTipChange | app.js:92-94 | the change shown while a tip is typed is never negative, and when it is positive, total, tip and change add up to the payment |
| CashierRoot.Settle | app.js:114-122 | change and tip are never negative, an empty tip input records no tip, and a positive change means total, change and tip add up to the payment |
| CashierRoot.SettleSpec | app.js:114-122 | change and tip are non-negative; an empty tip input means tip 0, a typed one max(0, tip); change = max(0, received − total − tip); the money balances exactly when the payment covers total and tip |
| CashierRoot.NoTipIsAutomatic | app.js:114-122 | a typed tip of 0 or less records what an empty tip input would |
| CashierRoot.ShownChangeIsRecorded | app.js:83-97 | the change shown while typing a tip is the change then recorded |
| CashierRoot.SaleFor | app.js:107-131 | the sale carries the cart, its total, the clamped payment and the settled change and tip |
| CashierRoot.RecordSale | app.js:107-131 | the handler's computation gives `SaleFor` |
| CashierRoot.Register.constructor | app.js:5-11 | empty cart, no clicks recorded, empty inputs, the loaded state |
| CashierRoot.Register.TransactionBar | app.js:25-36 | nothing without an active event, otherwise `BarFor` the active event |
| CashierRoot.Register.TileClick | app.js:44-63 | a click within 300 ms of the last accepted one changes nothing; otherwise it is recorded and the cart incremented, or decremented-or-removed from the badge; the cart invariant is kept |
| CashierRoot.Register.Cancel | app.js:66-75 | cart and both inputs are emptied; the store is untouched |
| CashierRoot.Register.EnterReceived | app.js:78-80 | the input changes, and the bar is recomputed |
| CashierRoot.Register.EnterTip | app.js:83-97 | the tip input changes, and the shown change is what remains after total and typed tip |
| CashierRoot.Register.NextTransaction | app.js:100-140 | without an active event or with an empty cart nothing changes; otherwise one sale is appended to the active event, and cart and inputs are emptied |
| CashierRoot.Register.Record | app.js:131-136 | the sale is appended to the event and the cart and inputs are emptied |
| CashierPublic.DisplayChange | public/js/app.js:33-34 | the shown change is negative exactly when something but not enough is received; nothing received shows 0; a non-zero change is the payment less the total |
| CashierPublic.DisplayChangeSpec | public/js/app.js:32-34 | the shown change is negative exactly when something but not enough is paid; it is 0 when nothing is paid, and equals the recorded change for a sufficient payment |
| CashierPublic.BarFor | public/js/app.js:25-36 | the bar shows the cart total, the clamped payment and the signed display change |
| CashierPublic.SaleFor | public/js/app.js:88-103 | the sale carries the cart, its total, the clamped payment, a never-negative change that balances a sufficient payment, and no tip |
| CashierPublic.SaleSpoilsTipSum | public/js/app.js:103-104 | once this screen records a sale, the event's tip sum as written is NaN |
| CashierPublic.RecordSale | public/js/app.js:88-103 | the handler's computation gives `SaleFor` |
| CashierPublic.Register.constructor | public/js/app.js:5-11 | empty cart, no clicks recorded, empty input, the loaded state |
| CashierPublic.Register.TransactionBar | public/js/app.js:25-36 | nothing without an active event, otherwise `BarFor` the active event |
| CashierPublic.Register.TileClick | public/js/app.js:44-63 | a click within 150 ms of the last accepted one changes nothing; otherwise it is recorded and applied to the cart; the cart invariant is kept |
| CashierPublic.Register.Cancel | public/js/app.js:66-73 | cart and input are emptied; the store is untouched |
| CashierPublic.Register.EnterReceived | public/js/app.js:76-78 | the input changes, and the bar is recomputed |
| CashierPublic.Register.NextTransaction | public/js/app.js:81-111 | without an active event or with an empty cart nothing changes; otherwise one sale without tip is appended to the active event, and cart and input are emptied |
| CashierPublic.Register.Record | public/js/app.js:103-107 | the sale is appended to the event and the cart and input are emptied |
| ItemForm.CheckAddForm | public/create/js/create-app.js:59-63 | an all-space name is refused first, then an empty price; the form is accepted exactly when the name is not blank and the price is filled |
| ItemForm.FormItem | public/create/js/create-app.js:59-64 | an accepted form gives an item with a non-empty trimmed name, the trimmed color and the parsed price |
| ItemForm.EditedItem | public/create/js/create-app.js:95-103 | the id is kept; the name is trimmed, the price parsed, and the color taken as typed |
| Transfer.ExportData | public/edit/js/edit-app.js:94-99 | the file holds the event name and, position by position, each item's name, price and color without its id |
| Transfer.Sanitize | public/edit/js/edit-app.js:104 | same length; each character outside `[a-z0-9äöüß]` (either case) becomes '_', others stay |
| Transfer.ExportFileName | public/edit/js/edit-app.js:104 | the download name is as long as the event name plus five characters and ends in ".json" |
| Transfer.ExportFileNameSpec | public/edit/js/edit-app.js:104 | the name is the sanitized event name plus ".json"; letters and digits are kept, and sanitizing again changes nothing |
| Transfer.ImportItem | public/create/js/create-app.js:251-253 | each entry becomes an item with the trimmed name, the parsed price (0 when missing) and the trimmed color (#cccccc when missing or empty) |
| Transfer.DefaultColorKept | public/create/js/create-app.js:252 | the default color survives trimming |
| Transfer.ImportItems | public/create/js/create-app.js:251-253 | a null entry rejects the list; otherwise each entry maps position by position |
| Transfer.ImportFile | public/create/js/create-app.js:245-253 | the file is accepted exactly when its name is a string, its items an array and no entry is null; the name and mapped items are taken |
| Transfer.ImportExportedItem | public/create/js/create-app.js:252 | an exported item with unpadded name and non-empty unpadded color imports back to itself under the new id |
| Transfer.ExportImportRoundTrip | public/edit/js/edit-app.js:94-99 | when every item name and color has no surrounding white space and no color is empty, importing an exported event gives its name and its items under new ids; without that condition there is no round trip (an empty color comes back as #cccccc, padding is trimmed away) |
| CreatePage.CreatePage.constructor | public/create/js/create-app.js:5-6 | no pending items, nothing in edit mode, an empty name |
| CreatePage.CreatePage.OnDropReorder | public/create/js/create-app.js:40-48 | no-op for a missing or empty source, a drop on itself, or an unknown id; otherwise `Move` from source to target; the items are always the same multiset |
| CreatePage.CreatePage.AddItem | public/create/js/create-app.js:55-72 | a refused form changes nothing; otherwise the form item is appended and edit mode ends |
| CreatePage.CreatePage.RemoveItem | public/create/js/create-app.js:78-84 | the items with the id are filtered out and edit mode ends |
| CreatePage.CreatePage.SaveEdit | public/create/js/create-app.js:86-108 | a blank name changes nothing; otherwise the first item with the id, if any, takes the edited values in place, and edit mode ends |
| CreatePage.CreatePage.CancelEdit | public/create/js/create-app.js:110-115 | edit mode ends; nothing else changes |
| CreatePage.CreatePage.BeginEdit | public/create/js/create-app.js:117-122 | the clicked row is in edit mode; nothing else changes |
| CreatePage.CreatePage.LoadExample | public/create/js/create-app.js:218-228 | a blank name input gets the example name; the list becomes the fourteen example items, in order |
| CreatePage.CreatePage.Import | public/create/js/create-app.js:242-261 | a file failing the format check changes nothing; past it the name input takes the file's name even when a `null` item entry then rejects the file, leaving list and edit mode as they were; an accepted file also replaces the list and ends edit mode |
| CreatePage.CreatePage.StartEvent | public/create/js/create-app.js:267-277 | a blank name or no items is refused with its reason; otherwise a new open event with the trimmed name and the pending items is added and made active |
| CreatePage.StartedEventIsActive | public/create/js/create-app.js:272-275 | the started event is then the active event, and the store invariant is kept |
| EditPage.EditPage.constructor | public/edit/js/edit-app.js:13-16 | the loaded state and the query id, nothing in edit mode |
| EditPage.EditPage.CurrentEvent | public/edit/js/edit-app.js:35-37 | an event exactly when the id is present and stored; it carries that id and is in the store |
| EditPage.EditPage.OnDropReorder | public/edit/js/edit-app.js:47-58 | no-op without a current event, with a missing, empty or self-drop source, or an unknown id; otherwise the stored event gets the moved list, with the same items |
| EditPage.EditPage.AddItem | public/edit/js/edit-app.js:71-88 | a refused form changes nothing; otherwise the current event gains the item at the end and edit mode ends |
| EditPage.EditPage.Export | public/edit/js/edit-app.js:91-107 | nothing without a current event; otherwise its export data under its sanitized name |
| EditPage.EditPage.RemoveItem | public/edit/js/edit-app.js:112-122 | the current event's items with the id are removed, and edit mode ends |
| EditPage.EditPage.SaveEdit | public/edit/js/edit-app.js:124-147 | saved exactly with a current event and a non-blank name; items with the id become the first one edited, keeping its id, and edit mode ends |
| EditPage.EditPage.CancelEdit | public/edit/js/edit-app.js:149-154 | with a current event edit mode ends; the store is untouched |
| EditPage.EditPage.BeginEdit | public/edit/js/edit-app.js:156-161 | with a current event the clicked row is in edit mode; the store is untouched |
| Paths.Collapse | public/shared/js/paths.js:11 | never longer; first and last characters kept |
| Paths.CollapseSpec | public/shared/js/paths.js:11 | no double slash remains, and every other character is kept in order |
| Paths.CollapseKeeps | public/shared/js/paths.js:11 | a string without double slashes is unchanged |
| Paths.TrimmedBase | public/shared/js/paths.js:7-8 | the trimmed base is never empty |
| Paths.SlashFrame | public/shared/js/paths.js:9-10 | the framed base starts and ends with '/' |
| Paths.SlashFrameText | public/shared/js/paths.js:9-10 | framing adds nothing but slashes |
| Paths.NormalizeBaseUrl | public/shared/js/paths.js:6-12 | the result starts and ends with '/' |
| Paths.NormalizeBaseUrlSpec | public/shared/js/paths.js:6-12 | the result has no double slash and keeps the trimmed input's other characters in order |
| Paths.NormalizeBlank | public/shared/js/paths.js:7-8 | null, undefined, empty or blank input gives "/" |
| Paths.NormalizeIdempotent | public/shared/js/paths.js:6-12 | normalizing a normalized base changes nothing |
| Paths.GetBaseUrl | public/shared/js/paths.js:14-19 | "/" without a `<base>`, otherwise its normalized href; always slash-framed without double slash |
| Paths.DropLeadingSlashes | public/shared/js/paths.js:22 | a suffix without a leading '/'; only slashes are dropped |
| Paths.DropTrailingSlashes | public/shared/js/paths.js:28 | a prefix without a trailing '/'; only slashes are dropped |
| Paths.Resolve | public/shared/js/paths.js:21-25 | the base URL followed by the path without its leading slashes (a missing path counts as empty) |
| Paths.ResolveNoDoubleSlash | public/shared/js/paths.js:21-25 | resolving a path without double slashes against any base URL gives a URL without them |
| Paths.CleanPage | public/shared/js/paths.js:28 | the cleaned page path neither starts nor ends with '/' |
| Paths.KeptParamsSpec | public/shared/js/paths.js:33-37 | a pair is kept exactly when the query has that key with that (non-null) value |
| Paths.QueryString | public/shared/js/paths.js:38-39 | the query string is empty exactly when no parameter is kept |
| Paths.CollectParams | public/shared/js/paths.js:32-37 | the loop collects `KeptParams` |
| Paths.Page | public/shared/js/paths.js:27-43 | the method computes `PageUrl` |
| Paths.PageUrl | public/shared/js/paths.js:27-43 | every page URL starts with the base URL |
| Paths.PagePathSpec | public/shared/js/paths.js:28-29 | the path part is the base, then the cleaned page path with exactly one trailing '/', or nothing |
| Paths.PageQuerySpec | public/shared/js/paths.js:31-40 | no parameters are kept exactly when the query is absent or every value is null |
| Paths.PageUrlSpec | public/shared/js/paths.js:27-43 | the URL is the base and path, with '?' and the query string exactly when a parameter is kept |
| Escape.ReplaceChar | ui.js:187 | a replacement not containing the character removes every occurrence, and the text never shrinks (for a non-empty replacement) |
| Escape.ReplaceCharNoNew | ui.js:187 | a replacement brings in no character that was neither in the text nor in the replacement |
| Escape.EscapeHtml | ui.js:185-192 | the output is never shorter than the input and holds none of `<`, `>`, `"`, `'` |
| Escape.EscapeAttr | ui.js:194-201 | the output is never shorter than the input and holds none of `<`, `>`, `"`, `'` |
| Escape.ReplaceCharAppend | ui.js:186-191 | replacement works piece by piece |
| Escape.EscapeAppend | ui.js:185-201 | both escape chains work piece by piece |
| Escape.ReplaceAbsent | ui.js:185-201 | replacing an absent character changes nothing |
| Escape.EscapeHtmlOne | ui.js:185-192 | escapeHtml on one character gives its entity |
| Escape.EscapeAttrOne | ui.js:194-201 | escapeAttr on one character gives its entity |
| Escape.EscapeIsEncode | ui.js:185-201 | escapeHtml and escapeAttr both equal the one-pass encoding, so they agree on every input |
| Escape.Encode | ui.js:185-201 | the output is never shorter than the input |
| Escape.EncodeNoMarkup | ui.js:185-192 | the output contains none of `<`, `>`, `"`, `'` |
| Escape.EncodeEntities | ui.js:185-201 | every '&' in the output begins one of the five entities |
| Escape.EncodePlain | ui.js:185-201 | text without any of the five characters is unchanged |
| Escape.UnescapeEncode | ui.js:185-192 | unescaping the escaped text gives the input back |
| Stats.InsertString | public/stats/js/stats-app.js:119 | inserting into a sorted list keeps it sorted and adds exactly the element |
| Stats.SortStrings | public/stats/js/stats-app.js:119 | the keys are sorted ascending and are a permutation of the input |
| Stats.HourKey | public/stats/js/stats-app.js:111 | the key is the first 13 characters of the timestamp, and the whole timestamp when it is shorter |
| Stats.HourLabel | public/stats/js/stats-app.js:113 | the label is the key from position 11 on, followed by ":00" (just ":00" for a shorter key) |
| Stats.LabelOfTimestamp | public/stats/js/stats-app.js:111-113 | a full timestamp's label is its two hour digits followed by ":00" |
| Stats.BucketByHour | public/stats/js/stats-app.js:108-117 | the bucketing loop builds `HourMapOf` |
| Stats.HourMapBuckets | public/stats/js/stats-app.js:108-117 | an hour has a bucket exactly when some transaction falls in it; the bucket holds the hour's label, count and summed total |
| Stats.HourMapSums | public/stats/js/stats-app.js:108-117 | bucket counts sum to the number of transactions, and bucket amounts to the revenue |
| Stats.HourMapDistinct | public/stats/js/stats-app.js:108-117 | each hour has one bucket |
| Stats.Charts | public/stats/js/stats-app.js:102-125 | no series exactly when there are no transactions |
| Stats.ChartHours | public/stats/js/stats-app.js:119 | the chart keys are exactly the hours with transactions, each once, strictly ascending |
| Stats.ChartPoints | public/stats/js/stats-app.js:119-125 | both series have one point per key with the hour's label; counts and amounts (in euros) are those of the hour |
| Stats.LargestFrom | public/stats/js/stats-app.js:140 | the fold's result is at least the start and every value, and is one of them |
| Stats.MaxVal | public/stats/js/stats-app.js:140 | the scale top is at least 1 and every value, and is 1 or one of the values |
| Stats.XStep | public/stats/js/stats-app.js:138-141 | with two or more points the steps span the inner width exactly; otherwise the step is 0 |
| Stats.InsertByQuantity | public/stats/js/stats-app.js:67 | inserting into a quantity-descending list keeps it so and adds exactly the entry |
| Stats.SortByQuantity | public/stats/js/stats-app.js:67 | the items table is sorted by quantity, descending, and is a permutation of the rows |

## Findings

| source | as written | input that shows it | evidently intended | confidence | as-written member | corrected member |
|---|---|---|---|---|---|---|
| public/js/app.js:103 with public/shared/js/models.js:98 | the public cashier records transactions without a tip (`tip` undefined); `calculateEventTotals` then adds `undefined` to the tip sum, which becomes NaN for the whole event | one sale recorded on the public cashier screen, then event totals computed | a missing tip counts as 0 | not executed | Models.MissingTipPoisonsTipSum | Models.TipsAgreeWhenAllPresent |

`Models.TipsAsWritten` is the tip sum as written, with `None` for NaN. `CashierPublic.SaleSpoilsTipSum` shows that every sale from that screen triggers it. `Models.Tips` is the corrected sum, in which a missing tip counts as 0. `Models.CalculateEventTotals` and the store lemmas use `Models.Tips`. `Models.TipsAgreeWhenAllPresent` proves that the corrected sum agrees with the sum as written wherever every tip is present.

## Left out

**Arithmetic and number parsing**
- Floating point: amounts are whole cents. The source's binary-float drift and the rounding that undoes it are not modelled.
- `parseFloat` itself is not modelled: a text input is its parse result (`Field`). So is a JSON price.
- Stats.Charts: amounts are exact cents divided by 100 as reals. The source's per-step `Math.round` is the identity on cents.

**Pages, clocks and the DOM**
- DOM rendering, alerts, focus, navigation, `renderItemGrid` and the settings pages are not modelled.
- SVG chart drawing is not modelled beyond `maxVal` and `xStep`.
- The items table's empty hint is display only.
- `generateId` and `new Date()` are not modelled. Ids and timestamps are parameters.
- Stats.HourKey: the stored timestamp is taken as the ISO string `toISOString` would give. Date parsing, time zones and invalid dates are not modelled.
- Local storage is not modelled: `saveState` is a value and `loadState` takes what storage holds, already classified.
- CreatePage.CreatePage.StartEvent: it returns the new store state instead of writing it and navigating.
- The edit row's DOM lookup (`if (!row) return`) is not modelled: the row is assumed present. The same holds for the name, price and color inputs, which are taken as present.
- EditPage.EditPage: the source binds its handlers only when the event exists at start-up. The model checks the current event in each handler instead. For the add-item and export handlers this gives the same result, since both then do nothing.
- Drag-and-drop and touch gesture plumbing are not modelled. Only `onDropReorder` is.

**Enumeration order**
- The cart and the hour map enumerate keys in insertion order. JavaScript lists integer-like keys first; item ids are random UUIDs and hour keys are not integers, so this does not arise.
- Stats.SortByQuantity takes `Object.values(sold)` as a sequence parameter, because the map model of `calculateItemsSold` does not record insertion order. Only sortedness and permutation are stated; stability of ties is not.

**Strings and text formats**
- Stats.SortStrings compares by character code point. JavaScript compares UTF-16 code units, which is the same order for the ASCII keys used here.
- Transfer.Sanitize works on characters, not UTF-16 code units. For characters outside the Basic Multilingual Plane the source writes two '_'; the model writes one.
- Transfer.ImportFile: the JSON text and `JSON.parse` errors are folded into `None`. A non-string entry name or color (for example a number) is not modelled.
- Escape.EscapeHtml, Escape.EscapeAttr: the `String(str)` coercion at ui.js:186 and ui.js:195 is not modelled; both take a string, so a non-string argument (a number, `null`, an object) is out of scope.
- Paths.QueryString: `URLSearchParams` percent-encoding is not modelled. The string is a plain `key=value` join.
