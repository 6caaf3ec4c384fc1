# Meal reservation core of the in-flight ordering app

This project models, in Dafny, the part of the in-flight meal ordering app
that decides who holds which meal. Each cabin class (economy and business)
has one shared inventory document on an edge server. The document has six
meal categories. Each category is an ordered list of meals. Each meal has a
`startingInventory` and a `seatsOrdered` map from seat id to a marker. A
seat holds a meal when its marker is truthy in the JavaScript sense.

The model covers:

- **The economy reservation** (`updateEconomyInventory`):
  - the stock check `findOutOfStockItems`;
  - the document transform `applyOrdersToInventory`: strip the seat from all six categories, then add it to each requested meal;
  - the optimistic-concurrency loop. It fetches the document, checks stock and writes with the fetched revision. On a 409 it goes round again. On any other failure it rejects. On success it re-fetches.
- **The change-feed merge** `updatePartialInventory`, with the cart evictions it dispatches.
- **The business reservation** (`updateBusinessInventory`):
  - it strips the seat only from the categories the request names;
  - it has no stock check and no retry;
  - it fails when a requested category is not in the document.
- **The Redux slices' reducers:**
  - the two inventory slices (`status`, `data`, `error`, `outOfStockItems`);
  - the two cart slices (`addMeal`, `removeMeal`, `resetOrder`, `setItems` and the fetch-status reducers), with the invariant "at most one meal per category".
- **The availability each meal page component shows and the click guard.** src/components/MealPage.tsx and src/components/businessMealPage.tsx each serve either cabin class, choosing the economy or business slices by the route's `seatClass`. They count reservations differently, and both ways are modelled. App.tsx mounts only businessMealPage.tsx, so its count is the one every seat sees; MealPage.tsx is not mounted, and the "cbmd:seatId" key it reads is cleared at load (src/main.tsx:9-13).
- **The closed category list** and `toSentenceCase`.

Module layout follows the source files:

| Dafny module | source |
|---|---|
| `Common` | shared helpers: Option, fetch status, ASCII case mapping, `findIndex`/`splice` |
| `Constants` | src/constants.ts |
| `FormatText` | src/utils/formatText.ts |
| `Inventory` | the document types (src/types/index.d.ts) and the per-meal strip/add steps shared by both slices |
| `InventoryStore` | the server: a revisioned document with GET and a conditional PUT, plus the ways an async thunk settles |
| `Cart`, `EconomyMeal`, `BusinessMeal` | src/store/economyMealSlice.ts, src/store/businessMealSlice.ts |
| `EconomyInventory` | src/store/economyInventorySlice.ts |
| `BusinessInventory` | src/store/inventorySlice.ts |
| `MealPage`, `BusinessMealPage` | src/components/MealPage.tsx, src/components/businessMealPage.tsx |

**Modelling choices:**

- **Reducers and loops are imperative.** Reducers that assign state are methods of classes whose fields are the slice state. Loops that push or reassign are methods with loop invariants. Each is proved against a specification function, and the properties the source promises are lemmas about that function.
- **The server is a `Store` object.** It holds the current document, a log of every request with its response, and a finite *script* of network events. Each event says what happens to the next request:
  - the request is delivered;
  - the request fails before the server acts on it. The failure is either an HTTP error, whose message is the response text (or `HTTP error! status: N` when the text is empty), or a network error, whose message is the `TypeError` text of the rejected `fetch`. Each failure also records what `JSON.parse` makes of its message;
  - the server acts on the request, and for a PUT may commit it, but the answer is lost and the client sees a failure (`Lost`);
  - another seat commits a document just before the request, which bumps the revision.

  The answer to a PUT with a stale revision is fixed when the store is built (`staleRevision`). With a message that parses to `{"status":409}`, the rejection the unit tests mock for `api.fetch` (src/services/api.test.ts:79), the economy thunk retries. With any other body, for example an empty one, it rejects (`EconomyInventory.UnparsedConflictEndsCall`).

  Both thunks are specified by a predicate over the requests they add to the log. The economy loop terminates because every pass consumes an event, and once the script runs out every request is served.
- **Redux Toolkit behaviour is modelled explicitly.** When a thunk returns `rejectWithValue(v)`, the rejected action carries `v` as its payload and `"Rejected"` as `error.message` (`InventoryStore.ActionErrorMessage`).

Two facts about the code that shape the model:

- **`findOutOfStockItems` counts every key of `seatsOrdered`, the requesting seat's own included** (src/store/economyInventorySlice.ts:192). A seat asking again for a meal it holds, once the meal's keys have reached its starting inventory, is therefore rejected as out of stock (`EconomyInventory.OwnLastUnitReported`).
- **The change-feed hook only dispatches full re-fetches** (src/hooks/useInventoryChanges.ts:54-60). Nothing in the source calls `updatePartialInventory`; it is modelled on its own, as the thunk is written.

## Model

| member | source | states |
|---|---|---|
| Constants.IsValidCategory | src/constants.ts:13-15 | the definition of `isValidCategory`, membership in the category list; its meaning is stated by the three lemmas below |
| Constants.MealCategoriesExact | src/constants.ts:1-8 | the category list is exactly breakfast, lunch, dinner, dessert, beverage, alcohol, in that order, with no repeats |
| Constants.ValidCategoryIff | src/constants.ts:13-15 | a string is a valid category iff it equals one of the six names |
| Constants.CapitalisedCategoryInvalid | src/constants.ts:13-15 | the check is case-sensitive: a name starting with a capital letter is never valid |
| Constants.ValidCategoryIsLowerCase | src/constants.ts:1-15 | lower-casing a valid name leaves it unchanged, so the lower-casing done before each check never rejects a valid name |
| Common.LowerChar | src/store/economyInventorySlice.ts:156 | `toLowerCase` on one character: the result is not a capital, letters stay letters, and only A-Z move, each by 32 |
| Common.UpperChar | src/utils/formatText.ts:8 | `toUpperCase` on one character: the result is not a lower-case letter, and only a-z move, each by 32 |
| Common.ToLower | src/store/economyInventorySlice.ts:156 | `toLowerCase` keeps the length, leaves no capital, and keeps every character that is not a capital |
| Common.FindIndex | src/store/economyMealSlice.ts:65-67 | `findIndex`: the first position whose element satisfies the predicate, and none exactly when no element does |
| Common.RemoveAt | src/store/economyMealSlice.ts:69 | `splice(i, 1)`: the length drops by one, elements before `i` stay and those after shift down by one |
| FormatText.ToSentenceCase | src/utils/formatText.ts:6-9 | the length is kept, the empty string maps to itself, the first character is upper-cased and every later one lower-cased |
| FormatText.SentenceCaseResult | src/utils/formatText.ts:6-9 | every result is in sentence case |
| FormatText.SentenceCaseFixedPoint | src/utils/formatText.ts:6-9 | a string already in sentence case is returned unchanged |
| FormatText.SentenceCaseIdempotent | src/utils/formatText.ts:6-9 | converting twice equals converting once |
| FormatText.NonLettersUnchanged | src/utils/formatText.ts:8 | characters that are not letters (spaces, `-`, `_`) pass through unchanged |
| FormatText.SentenceCaseLowerExample | src/utils/formatText.test.ts:4-6 | "hello world" becomes "Hello world" |
| FormatText.SentenceCaseUpperExample | src/utils/formatText.test.ts:8-10 | "HELLO WORLD" becomes "Hello world" |
| FormatText.SentenceCaseMixedExample | src/utils/formatText.test.ts:12-14 | "hElLo WoRlD" becomes "Hello world" |
| FormatText.SentenceCasePunctuationExample | src/utils/formatText.test.ts:29-32 | "hello-world" and "hello_world" keep their separator |
| FormatText.SentenceCaseUnchangedExamples | src/utils/formatText.test.ts:16-36 | the empty string, "a"/"A", the space-padded string and "Hello world" give the expected results |
| Inventory.FindMeal | src/store/economyInventorySlice.ts:159-161 | `find` by meal id: the first meal with that id, and none exactly when no meal has it |
| Inventory.Target | src/store/economyInventorySlice.ts:155-162 | the meal an order line designates is in its lower-cased category and has its id; there is none exactly when that category is missing or has no such meal |
| Inventory.DesignatedIff | src/store/economyInventorySlice.ts:155-170 | a meal is designated by the request iff some order line targets it |
| Inventory.StripSeat | src/store/economyInventorySlice.ts:137-150 | the definition of the per-meal strip step; what it keeps and deletes is stated by `Inventory.StripSeatSpec` |
| Inventory.AddSeat | src/store/economyInventorySlice.ts:163-167 | the definition of the per-meal add step; its effect is stated by `Inventory.AddSeatSpec` |
| Inventory.StripSeatSpec | src/store/economyInventorySlice.ts:137-150 | the strip step deletes the seat's key only when its marker is truthy; the id, the starting inventory and every other seat are kept, and the key count never grows |
| Inventory.AddSeatSpec | src/store/economyInventorySlice.ts:163-167 | the add step creates a missing map, sets the seat's marker to 1 and keeps every other seat; the key count grows by one exactly when the seat had no key |
| InventoryStore.Store.Fetch | src/store/economyInventorySlice.ts:39-41 | GET returns the current document, after any interfering commit, unless the request fails; the request is logged |
| InventoryStore.Store.WriteConditional | src/store/economyInventorySlice.ts:43-48 | PUT `?rev=` succeeds only when the revision still matches, stores the body with a new revision and returns it; a stale revision gets the store's configured 409 answer; the request is logged |
| Cart.FirstWith | src/store/economyMealSlice.ts:65-67 | the first cart item whose compared field (category here, the name at economyMealSlice.ts:74-76, the meal id at economyInventorySlice.ts:100) equals the value, or none exactly when no item has it |
| Cart.AddedMeal | src/store/economyMealSlice.ts:63-72 | the definition of the `addMeal` reducer body on the cart; its properties are the four `AddedMeal…` lemmas |
| Cart.RemovedMeal | src/store/economyMealSlice.ts:73-80 | the definition of the `removeMeal` reducer body on the cart; its properties are the `RemovedMeal…` lemmas |
| Cart.AddedMealLast | src/store/economyMealSlice.ts:71 | after `addMeal(p)`, `p` is the last item |
| Cart.AddedMealLength | src/store/economyMealSlice.ts:65-71 | `addMeal` keeps the length when the category was present and adds one otherwise |
| Cart.AddedMealKeepsOthers | src/store/economyMealSlice.ts:65-71 | items of every other category keep their relative order |
| Cart.AddedMealReplaces | src/store/businessMealSlice.ts:45-58 | on a cart with at most one item per category, `addMeal` replaces that category's item by the meal at the end, and the invariant still holds |
| Cart.RemovedMealFirstOnly | src/store/economyMealSlice.ts:73-80 | `removeMeal(name)` deletes exactly the first item with that name and keeps the order of the rest; with no such item it changes nothing |
| Cart.RemovedMealKeepsUnique | src/store/businessMealSlice.ts:60-68 | `removeMeal` keeps at most one item per category |
| Cart.RemovedMealsKeepUnique | src/store/economyInventorySlice.ts:97-103 | any sequence of removals keeps at most one item per category |
| EconomyMeal.EconomyMealSlice.constructor | src/store/economyMealSlice.ts:21-26 | the initial state: no data, idle, no error, empty cart |
| EconomyMeal.EconomyMealSlice.AddMeal | src/store/economyMealSlice.ts:63-72 | the cart becomes the `addMeal` result; on a valid cart the meal replaces its category's item; the other fields are unchanged |
| EconomyMeal.EconomyMealSlice.RemoveMeal | src/store/economyMealSlice.ts:73-80 | the cart loses its first item with the name; the invariant and the other fields are kept |
| EconomyMeal.EconomyMealSlice.ResetOrder | src/store/economyMealSlice.ts:81-83 | the cart becomes empty |
| EconomyMeal.EconomyMealSlice.FetchPending | src/store/economyMealSlice.ts:87-90 | loading with the error cleared; data and cart untouched |
| EconomyMeal.EconomyMealSlice.FetchFulfilled | src/store/economyMealSlice.ts:91-95 | succeeded with the payload stored and the error cleared; cart untouched |
| EconomyMeal.EconomyMealSlice.FetchRejected | src/store/economyMealSlice.ts:96-99 | failed with the action's message or "Something went wrong"; data and cart untouched |
| BusinessMeal.BusinessMealSlice.constructor | src/store/businessMealSlice.ts:4-9 | the initial state: no data, idle, no error, empty cart |
| BusinessMeal.BusinessMealSlice.AddMeal | src/store/businessMealSlice.ts:45-58 | the cart becomes the `addMeal` result; on a valid cart the meal replaces its category's item; the other fields are unchanged |
| BusinessMeal.BusinessMealSlice.RemoveMeal | src/store/businessMealSlice.ts:60-68 | the cart loses its first item with the name; the invariant and the other fields are kept |
| BusinessMeal.BusinessMealSlice.ResetOrder | src/store/businessMealSlice.ts:70-72 | the cart becomes empty |
| BusinessMeal.BusinessMealSlice.SetItems | src/store/businessMealSlice.ts:74-76 | the cart becomes exactly the given list |
| BusinessMeal.BusinessMealSlice.FetchPending | src/store/businessMealSlice.ts:80-83 | loading with the error cleared; data and cart untouched |
| BusinessMeal.BusinessMealSlice.FetchFulfilled | src/store/businessMealSlice.ts:84-88 | succeeded with the payload stored and the error cleared; cart untouched |
| BusinessMeal.BusinessMealSlice.FetchRejected | src/store/businessMealSlice.ts:89-92 | failed with the action's message or "Something went wrong"; data and cart untouched |
| EconomyInventory.OutOfStockReport | src/store/economyInventorySlice.ts:176-200 | the report never has more entries than the request |
| EconomyInventory.OutOfStockReportIsFilter | src/store/economyInventorySlice.ts:182-198 | the report is exactly the sold-out order lines (valid lower-cased category, meal found, starting inventory minus all keys at most 0), in request order, with the category lower-cased |
| EconomyInventory.OutOfStockReportEmpty | src/store/economyInventorySlice.ts:210-216 | the report is empty exactly when no order line is sold out |
| EconomyInventory.UnmatchedNeverReported | src/store/economyInventorySlice.ts:183-189 | a line with an invalid category or an unknown meal id is never reported |
| EconomyInventory.OwnLastUnitReported | src/store/economyInventorySlice.ts:190-195 | a seat holding a truthy marker on a meal whose keys have reached its starting inventory is reported out of stock when it requests that meal again |
| EconomyInventory.FindOutOfStockItems | src/store/economyInventorySlice.ts:176-200 | the loop's list equals the report |
| EconomyInventory.StripAllTwice | src/store/economyInventorySlice.ts:135-151 | stripping a seat twice is stripping it once |
| EconomyInventory.Reserved | src/store/economyInventorySlice.ts:126-173 | the definition of the document `applyOrdersToInventory` returns; its properties are the `Reserved…` lemmas and `EconomyInventory.ApplyOrdersToInventory` |
| EconomyInventory.ReservedMeals | src/store/economyInventorySlice.ts:134-170 | the write keeps the length of every category list |
| EconomyInventory.ReservedShape | src/store/economyInventorySlice.ts:131-172 | the write keeps the revision, the categories, every meal id and every starting inventory |
| EconomyInventory.ReservedSameIds | src/store/economyInventorySlice.ts:135-151 | every category list keeps its meal ids, position by position |
| EconomyInventory.ReservedNothing | src/store/economyInventorySlice.ts:133-152 | with no order lines the write is the strip pass alone |
| EconomyInventory.ReservedSnoc | src/store/economyInventorySlice.ts:155-170 | one more order line adds the seat to the meal it targets and changes nothing else |
| EconomyInventory.StripSeatIn | src/store/economyInventorySlice.ts:134-152 | the strip pass strips exactly the listed categories the document has and keeps the rest |
| EconomyInventory.ApplyOrdersToInventory | src/store/economyInventorySlice.ts:126-173 | the strip-then-add loops compute exactly the specified write |
| EconomyInventory.ReservedHoldsRequested | src/store/economyInventorySlice.ts:155-170 | every requested meal found in its valid lower-cased category ends with the seat's marker 1 |
| EconomyInventory.ReservedNoOtherTruthy | src/store/economyInventorySlice.ts:133-152 | across all six categories, no meal the request does not designate keeps a truthy marker for the seat |
| EconomyInventory.ReservedOtherSeatsUntouched | src/store/economyInventorySlice.ts:137-168 | other seats' entries, meal ids and starting inventories are unchanged |
| EconomyInventory.ReservedKeepsFalsyMarker | src/store/economyInventorySlice.ts:137-150 | a null or 0 marker of the seat on a meal it does not request survives unchanged |
| EconomyInventory.ReservedIgnoresUnmatched | src/store/economyInventorySlice.ts:156-162 | an order line with an invalid category or unknown meal id changes nothing |
| EconomyInventory.ReservedEntryTwice | src/store/economyInventorySlice.ts:137-167 | re-applying the write to one meal changes nothing |
| EconomyInventory.ReservedIdempotent | src/store/economyInventorySlice.ts:126-173 | writing the same request twice gives the same document as writing it once |
| EconomyInventory.ReservedKeepsCapacity | src/store/economyInventorySlice.ts:209-223 | a write the stock check lets through keeps every meal within its starting inventory |
| EconomyInventory.ReleaseFreesUnit | src/store/economyInventorySlice.ts:133-152 | confirming an empty order releases a meal the seat alone held, so it is no longer sold out |
| EconomyInventory.RejectionFor | src/store/economyInventorySlice.ts:230-245 | the value a non-conflict failure is rejected with: the `SyntaxError` text when `JSON.parse` refuses the message, the message itself otherwise |
| EconomyInventory.EconomyTrace | src/store/economyInventorySlice.ts:203-248 | the definition of the calls' request traces: passes that end in a parsed 409, then one pass that settles; the trace lemmas below are about it |
| EconomyInventory.RetriesThenFinal | src/store/economyInventorySlice.ts:204-242 | passes ending in a conflict, followed by a settling pass, form a trace of the call |
| EconomyInventory.WriteAndConfirm | src/store/economyInventorySlice.ts:218-235 | after a passed stock check: PUT the write with the fetched revision; a 409 means another pass, any other failure rejects, and success re-fetches; capacity is kept |
| EconomyInventory.TryOnce | src/store/economyInventorySlice.ts:205-241 | one pass either ends in a conflict (and consumes a script event) or settles as the trace predicate says |
| EconomyInventory.UpdateEconomyInventory | src/store/economyInventorySlice.ts:122-248 | the call's requests form a trace of conflicting passes then a settling pass; if every commit respects capacity, the stored document stays within capacity |
| EconomyInventory.RejectionCommitsNothing | src/store/economyInventorySlice.ts:210-240 | no PUT of a rejected call was answered OK; a write whose answer was lost may still stand on the server |
| EconomyInventory.OutOfStockRejectionIsLastCheck | src/store/economyInventorySlice.ts:207-216 | an out-of-stock rejection carries the non-empty report of the last fetched document, and that fetch is the last request |
| EconomyInventory.FulfilledCommitsOnce | src/store/economyInventorySlice.ts:218-229 | in a fulfilled call exactly one PUT was answered OK: the write of the preceding fetch, at its revision, and the result is the re-fetch |
| EconomyInventory.ConflictNeverSurfaces | src/store/economyInventorySlice.ts:225-235 | no conflict on a pass's GET or PUT ends the call; a 409 can end it only on the re-fetch after a PUT answered OK, which is returned without `await` and escapes both catches, and the call is then `Rejected` with that message |
| EconomyInventory.RefetchConflictRejects | src/store/economyInventorySlice.ts:225-229 | that case occurs: a fetch in stock, a PUT answered OK and a re-fetch failing with the 409 message form a call that rejects |
| EconomyInventory.UnparsedConflictEndsCall | src/store/economyInventorySlice.ts:230-245 | a failure whose message does not parse to status 409 is the last request of the call; after a PUT it rejects with `RejectionFor`, and a stale-revision answer with an empty body rejects with the `SyntaxError` text instead of retrying |
| EconomyInventory.ChangedCategories | src/store/economyInventorySlice.ts:76-83 | the changed categories are exactly the valid categories named by some update, without repeats |
| EconomyInventory.FindUpdate | src/store/economyInventorySlice.ts:90 | the first update with the meal id, whatever its category |
| EconomyInventory.MissingChanged | src/store/economyInventorySlice.ts:86-88 | the first changed category the cached document lacks, where `.map` on `undefined` throws; none exactly when every changed category is present |
| EconomyInventory.PartialInventory | src/store/economyInventorySlice.ts:64-119 | the definition of how the thunk settles: null with no cache, a rejection when a changed category is missing, otherwise the merged document |
| EconomyInventory.PartialInventorySettles | src/store/economyInventorySlice.ts:70-118 | no cached document gives null; the merge throws iff an update names a valid category the cache lacks; otherwise the revision and the categories are kept |
| EconomyInventory.PartialInventoryChanges | src/store/economyInventorySlice.ts:76-116 | when the merge does not throw, only changed categories change, and there each meal takes the first update with its id |
| EconomyInventory.WellFormedMergeFulfils | src/store/economyInventorySlice.ts:86-88 | a cached document with all six categories never makes the merge throw |
| EconomyInventory.EvictionRule | src/store/economyInventorySlice.ts:92-103 | a cart item is removed by name iff the first update for its meal leaves no unit and does not show this seat with a truthy marker |
| EconomyInventory.EvictionsSound | src/store/economyInventorySlice.ts:86-116 | every dispatched removal comes from a meal of a changed category that the rule selects |
| EconomyInventory.EvictionsComplete | src/store/economyInventorySlice.ts:86-116 | every meal of a changed category that the rule selects has its removal dispatched |
| EconomyInventory.Evictions | src/store/economyInventorySlice.ts:86-116 | the definition of the removals the thunk dispatches, in order: those of the changed categories merged before the first missing one |
| EconomyInventory.EvictionsDispatched | src/store/economyInventorySlice.ts:86-103 | every meal the rule selects in a changed category merged before any throw has its removal dispatched |
| EconomyInventory.EvictionsOnlyBeforeThrow | src/store/economyInventorySlice.ts:86-103 | every dispatched removal is the name of a selected meal in a changed category merged before any throw |
| EconomyInventory.HeldMealNeverEvicted | src/store/economyInventorySlice.ts:101 | a meal this seat holds in the update is never evicted |
| EconomyInventory.UpdatePartialInventory | src/store/economyInventorySlice.ts:64-119 | the thunk's dispatches remove the evicted names from the cart in order and keep its invariant; a merged document is stored, while null or a rejection leaves `data` unchanged with the removals made before the throw kept |
| EconomyInventory.EconomyInventorySlice.constructor | src/store/economyInventorySlice.ts:22-27 | the initial state |
| EconomyInventory.EconomyInventorySlice.ClearOutOfStockItems | src/store/economyInventorySlice.ts:256-259 | empties the list and clears the error |
| EconomyInventory.EconomyInventorySlice.Pending | src/store/economyInventorySlice.ts:263-266 | loading with the error cleared |
| EconomyInventory.EconomyInventorySlice.Fulfilled | src/store/economyInventorySlice.ts:267-271 | succeeded with the payload stored and the error cleared |
| EconomyInventory.EconomyInventorySlice.FetchRejected | src/store/economyInventorySlice.ts:272-275 | failed with the action's message or the default fetch message |
| EconomyInventory.EconomyInventorySlice.UpdateRejected | src/store/economyInventorySlice.ts:285-300 | an object payload supplies the message and the list; otherwise the action's message or the default, and an empty list |
| EconomyInventory.EconomyInventorySlice.SettleUpdate | src/store/economyInventorySlice.ts:280-300 | how each outcome of the thunk lands: a string rejection shows "Rejected" with an empty list |
| EconomyInventory.EconomyInventorySlice.PartialFulfilled | src/store/economyInventorySlice.ts:301-305 | a non-null payload replaces the data |
| BusinessInventory.ApplyBusinessOrders | src/store/inventorySlice.ts:69-109 | the strip pass over the requested categories, then the add pass, compute exactly the specified business write, and fail exactly when a lower-cased category is missing |
| BusinessInventory.BusinessReserved | src/store/inventorySlice.ts:69-109 | the definition of the business write: none when a requested category is missing, otherwise strip the requested categories and add the seat; its properties are the `Business…` lemmas below |
| BusinessInventory.BusinessAddStep | src/store/inventorySlice.ts:95-108 | one add step sets the seat on the first meal with the line's id in its category, and changes nothing else |
| BusinessInventory.BusinessHoldsRequested | src/store/inventorySlice.ts:95-109 | every requested meal found in its lower-cased category ends with the seat's marker 1 |
| BusinessInventory.BusinessNoOtherTruthy | src/store/inventorySlice.ts:73-92 | in a requested category, no undesignated meal keeps a truthy marker for the seat |
| BusinessInventory.BusinessKeepsUnrequestedCategory | src/store/inventorySlice.ts:73-92 | a category no line names is left exactly as fetched |
| BusinessInventory.BusinessOtherSeatsUntouched | src/store/inventorySlice.ts:79-89 | other seats' entries, meal ids and starting inventories are unchanged |
| BusinessInventory.BusinessReservedFails | src/store/inventorySlice.ts:95-101 | the write fails iff some line's lower-cased category is not in the document |
| BusinessInventory.BusinessWriteCanExceedCapacity | src/store/inventorySlice.ts:66-123 | with no stock check, ordering a one-unit meal another seat holds gives it more keys than its starting inventory |
| BusinessInventory.BusinessFailureMessage | src/store/inventorySlice.ts:62-64 | a response that is not ok rejects with the thunk's fixed text; a failed `fetch` rejects with its own `TypeError` text |
| BusinessInventory.BusinessTrace | src/store/inventorySlice.ts:46-151 | the definition of the call's request trace and outcome; the lemmas below are about it |
| BusinessInventory.UpdateBusinessInventory | src/store/inventorySlice.ts:46-151 | GET, write, PUT with the fetched revision, GET; each failure is a rejection with the fixed text, or the network error's own text |
| BusinessInventory.BusinessConflictNotRetried | src/store/inventorySlice.ts:125-127 | a failed PUT, 409 included, ends the call; an HTTP failure rejects with "Failed to update inventory", a network failure with its own text |
| BusinessInventory.BusinessCommitsAtMostOnce | src/store/inventorySlice.ts:111-144 | at most one PUT of a call is answered OK, and in a fulfilled call one was; a write whose answer was lost may still stand on the server |
| BusinessInventory.BusinessFulfilledWroteReserved | src/store/inventorySlice.ts:111-144 | a fulfilled call wrote the business write of the fetched document at its revision and returns the re-fetch |
| BusinessInventory.BusinessRejectionMessage | src/store/inventorySlice.ts:145-149 | every failure settles as `rejectWithValue`, so the action's error message is "Rejected" |
| BusinessInventory.InventorySlice.constructor | src/store/inventorySlice.ts:10-14 | the initial state |
| BusinessInventory.InventorySlice.Pending | src/store/inventorySlice.ts:159-162 | loading with the error cleared |
| BusinessInventory.InventorySlice.Fulfilled | src/store/inventorySlice.ts:163-167 | succeeded with the payload stored and the error cleared |
| BusinessInventory.InventorySlice.FetchRejected | src/store/inventorySlice.ts:168-171 | failed with the action's message or "Failed to fetch inventory" |
| BusinessInventory.InventorySlice.UpdateRejected | src/store/inventorySlice.ts:181-184 | failed with the action's message or "Failed to update inventory" |
| BusinessInventory.InventorySlice.SettleUpdate | src/store/inventorySlice.ts:176-184 | how each outcome of the thunk lands in the slice |
| MealPage.MatchedInventory | src/components/MealPage.tsx:119-121 | the meal's entry exists iff its category is present and has the meal id; it is the first such meal |
| MealPage.CalculateAvailability | src/components/MealPage.tsx:118-144 | the count shown is never negative, and 0 when out of stock |
| MealPage.UnknownMealOutOfStock | src/components/MealPage.tsx:119-123 | a meal the inventory lacks shows 0 and out of stock |
| MealPage.AvailabilityOfKnownMeal | src/components/MealPage.tsx:125-143 | out of stock iff the non-null markers reach the starting inventory and the seat holds no truthy marker; otherwise the count is the free units floored at 0 |
| MealPage.OwnOrderNeverOutOfStock | src/components/MealPage.tsx:138 | a meal the seat holds is never shown out of stock |
| MealPage.ActiveCountAtMostKeys | src/components/MealPage.tsx:128-131 | MealPage.tsx's count never exceeds the key count the stock check uses |
| MealPage.InStockWhenNotSoldOut | src/components/MealPage.tsx:128-143 | a meal the stock check does not find sold out is shown in stock with a positive count |
| MealPage.HandleCardClick | src/components/MealPage.tsx:83-107 | no action iff (count at most 0 and not selected) or (confirmed and not editing); otherwise a selected meal is removed by name and any other is added |
| MealPage.ClickKeepsOnePerCategory | src/components/MealPage.tsx:96-106 | whatever a click dispatches, the cart keeps at most one meal per category |
| MealPage.OutOfStockCardIgnoresClick | src/components/MealPage.tsx:189-214 | a card shown out of stock and not selected ignores clicks |
| MealPage.OwnHeldMealAtCapacityIgnoresClick | src/components/MealPage.tsx:138-141 | a meal the seat holds at full capacity is shown in stock, yet a click on it while it is not in the cart does nothing, for a new order and while editing a confirmed one |
| MealPage.HandleCardClickIntended | src/components/MealPage.tsx:90-106 | the click guard keyed on the shown out-of-stock flag: it removes only a selected meal by name and adds only an unselected one |
| MealPage.IntendedClickMatchesDisplay | src/components/MealPage.tsx:189-214 | with that guard an unlocked card ignores a click iff it is shown out of stock and not selected, and a held meal can always be selected |
| MealPage.GuardsDifferOnlyByRefusing | src/components/MealPage.tsx:90-95 | where the written and the intended guard differ, the written one refuses an add the intended one makes |
| BusinessMealPage.BusinessAvailability | src/components/businessMealPage.tsx:162-176 | a selected meal is never out of stock; out of stock iff the count is at most 0 and the meal is not selected |
| BusinessMealPage.BusinessAvailabilityCount | src/components/businessMealPage.tsx:162-175 | a missing meal counts as 0 units; a found meal without a map cannot be shown; otherwise the count is the starting inventory minus every other seat's key |
| BusinessMealPage.BusinessClickMatchesDisplay | src/components/businessMealPage.tsx:99-124 | in businessMealPage.tsx an unlocked card ignores a click iff it is shown out of stock |
| BusinessMealPage.OwnKeyNotCounted | src/components/businessMealPage.tsx:171-173 | the seat's own key, whatever its marker, is left out of the count |
| BusinessMealPage.PagesAgreeWithoutTombstones | src/components/businessMealPage.tsx:171-176 | when the seat has no key and every marker is active, both components agree on out of stock for an unselected meal |
| BusinessMealPage.PagesDisagreeOnNullMarker | src/components/businessMealPage.tsx:171-176 | another seat's null marker on a one-unit meal: MealPage.tsx shows it free, businessMealPage.tsx out of stock |

## Left out

- HTTP, authentication and the server: the network and other seats are a finite script of events inside `InventoryStore.Store`. The fetch-only thunks (`fetchEconomyInventory`, `fetchBusinessInventory`, the meal-document fetches) are covered only through their reducers.
- src/hooks/useInventoryChanges.ts (the streaming change feed), src/utils/createSeatId.ts, src/store/mealSlice.ts and all rendering are not part of this model.
- `localStorage`: the seat id is a parameter. MealPage.tsx reads it under "cbmd:seatId", which src/main.tsx:9-13 clears at load and nothing writes, while businessMealPage.tsx and `updatePartialInventory` read "seatId"; the model does not tie these together.
- Case mapping is ASCII only; JavaScript's full Unicode `toLowerCase`/`toUpperCase` is not modelled.
- JavaScript numbers are unbounded integers; `startingInventory` is never fractional, NaN or infinite here.
- Error texts produced by the JavaScript engine for the `JSON.parse` failure and for the TypeError of `.find` on `undefined` are one fixed string each. A network failure's `TypeError` text is part of the script.
- `EconomyInventory.RejectionFor` gives the message itself to an error body that parses to `null`. In the source, reading `.status` of `null` throws a TypeError, and the call rejects with that text instead.
- The economy thunk requires every fetched document to hold the six categories (`Inventory.WellFormed`). A document lacking one would make the strip pass throw; that path is not modelled.
- `console.log` on a conflict is left out.
- Aliasing: the source's shallow copies share meal objects with the fetched document, and the add pass mutates them. The fetched document is not used again, so the model works on values.
- `BusinessInventory.ApplyBusinessOrders` strips the requested categories in request order instead of walking `Object.keys` of the document. Stripping is idempotent and touches each category on its own, so the result is the same.
- `EconomyInventory.UpdatePartialInventory` computes the list of removals first and then dispatches them. The source dispatches during the merge. Both read the cart as it was when the thunk started, so the removals and their order are the same.
- The order in which concurrent thunks interleave in the browser is not modelled; each thunk runs against the store alone.

## Findings

| source | as written | input that shows it | evidently intended | confidence | as-written member | corrected member |
|---|---|---|---|---|---|---|
| src/components/MealPage.tsx:138-141 | the click guard refuses an unselected card whenever the count passed in is at most 0. When the seat holds the meal at full capacity, `isOutOfStock` is false but the count is floored to 0 | in the component as written, if it were mounted with the seat id set: a meal with `startingInventory` 1 and `seatsOrdered` {this seat: 1}, after the passenger deselects it while editing a confirmed order: the card is drawn in stock and clickable, yet the click does nothing | a card shown in stock can be selected: the guard should use `isOutOfStock` | medium, not executed; latent, because App.tsx never mounts MealPage.tsx and its "cbmd:seatId" key is cleared at load | MealPage.OwnHeldMealAtCapacityIgnoresClick | MealPage.IntendedClickMatchesDisplay |
