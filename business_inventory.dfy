/**
 * The business-class inventory (src/store/inventorySlice.ts): the
 * `updateBusinessInventory` thunk, which fetches the document, strips the
 * seat from the categories of the request, adds it to the requested meals,
 * writes with the fetched revision and re-fetches, with no stock check and
 * no retry; and the reducers of the slice.
 */
module BusinessInventory {
  import opened Common
  import opened Inventory
  import opened InventoryStore
  import opened EconomyInventory

  const FetchInventoryFailedMessage: string := "Failed to fetch inventory"
  const FetchCurrentFailedMessage: string := "Failed to fetch current inventory"
  const UpdateInventoryFailedMessage: string := "Failed to update inventory"

  /** The message of the TypeError thrown by `.find` on `undefined`; its exact wording comes from the JavaScript engine. */
  const MissingCategoryErrorMessage: string := "Cannot read properties of undefined (reading 'find')"

  // ---------------------------------------------------------------------------
  // The write
  // ---------------------------------------------------------------------------

  /** `payload.items.map(item => item.category.toLowerCase())`: the categories to update. */
  function RequestedCategories(items: seq<OrderItem>): seq<string>
  {
    seq(|items|, k requires 0 <= k < |items| => ToLower(items[k].category))
  }

  /** Every order line's lower-cased category is a key of the document. */
  predicate CategoriesPresent(doc: Doc, items: seq<OrderItem>)
  {
    forall k :: 0 <= k < |items| ==> ToLower(items[k].category) in doc.categories
  }

  /**
   * The category lists after stripping the categories in `requested` and
   * adding the seat for `items`: a requested category is left as the
   * economy write leaves it, any other category as it was.
   */
  function BusinessCategories(doc: Doc, seat: string, items: seq<OrderItem>, requested: seq<string>)
    : map<string, seq<MealEntry>>
  {
    map c | c in doc.categories :: if c in requested then ReservedMeals(doc, seat, items, c) else doc.categories[c]
  }

  /**
   * The document the business thunk writes, or `None` when some order
   * line's lower-cased category is not a key of the document: the add pass
   * then calls `find` on `undefined`, which throws.
   */
  function BusinessReserved(doc: Doc, seat: string, items: seq<OrderItem>): Option<Doc>
  {
    if CategoriesPresent(doc, items) then Some(Doc(doc.rev, BusinessCategories(doc, seat, items, RequestedCategories(items))))
    else None
  }

  /** One more order line of a requested category adds the seat to the meal it targets, and changes nothing else. */
  lemma BusinessCategoriesSnoc(doc: Doc, seat: string, items: seq<OrderItem>, x: OrderItem, requested: seq<string>)
    requires ToLower(x.category) in requested
    ensures var before := BusinessCategories(doc, seat, items, requested);
      BusinessCategories(doc, seat, items + [x], requested) ==
        if Target(doc, x).Some? then
          var t := Target(doc, x).value;
          before[t.0 := before[t.0][t.1 := AddSeat(before[t.0][t.1], seat)]]
        else before
  {
    var before := BusinessCategories(doc, seat, items, requested);
    var after := BusinessCategories(doc, seat, items + [x], requested);
    if Target(doc, x).Some? {
      var t := Target(doc, x).value;
      var expected := before[t.0 := before[t.0][t.1 := AddSeat(before[t.0][t.1], seat)]];
      forall c | c in doc.categories ensures after[c] == expected[c] {
        ReservedMealsSnoc(doc, seat, items, x, c);
      }
      assert after.Keys == expected.Keys;
    } else {
      forall c | c in doc.categories ensures after[c] == before[c] {
        ReservedMealsSnoc(doc, seat, items, x, c);
      }
    }
  }

  /** Before any order line is added, the write is the strip pass over the requested categories. */
  lemma BusinessNothing(doc: Doc, seat: string, requested: seq<string>)
    ensures BusinessCategories(doc, seat, [], requested) ==
      map c | c in doc.categories :: if c in requested then StripAll(doc.categories[c], seat) else doc.categories[c]
  {
    ReservedNothing(doc, seat);
    forall c | c in doc.categories
      ensures ReservedMeals(doc, seat, [], c) == StripAll(doc.categories[c], seat)
    {
      assert ReservedMeals(doc, seat, [], c) == Reserved(doc, seat, []).categories[c];
    }
  }

  /** The add pass's step for order line `k`, on the lists as the previous lines left them. */
  lemma BusinessAddStep(doc: Doc, seat: string, items: seq<OrderItem>, k: nat)
    requires k < |items| && ToLower(items[k].category) in doc.categories
    ensures var before := BusinessCategories(doc, seat, items[..k], RequestedCategories(items));
      var c := ToLower(items[k].category);
      var found := FindMeal(before[c], items[k].id);
      BusinessCategories(doc, seat, items[..k + 1], RequestedCategories(items)) ==
        if found.Some? then before[c := before[c][found.value := AddSeat(before[c][found.value], seat)]] else before
  {
    var item, c, requested := items[k], ToLower(items[k].category), RequestedCategories(items);
    assert items[..k + 1] == items[..k] + [item];
    assert requested[k] == c;
    BusinessCategoriesSnoc(doc, seat, items[..k], item, requested);
    ReservedSameIds(doc, seat, items[..k], c);
    FindMealSameIds(doc.categories[c], BusinessCategories(doc, seat, items[..k], requested)[c], item.id);
  }

  /**
   * The body of `updateBusinessInventory` between the GET and the PUT: the
   * strip pass over the requested categories, then the add pass, which
   * fails on the first order line whose category the document lacks.
   */
  method ApplyBusinessOrders(doc: Doc, seatUserId: string, items: seq<OrderItem>) returns (updated: Option<Doc>)
    ensures updated == BusinessReserved(doc, seatUserId, items)
  {
    var requested := RequestedCategories(items);
    var cats := StripSeatIn(doc.categories, requested, seatUserId);
    BusinessNothing(doc, seatUserId, requested);
    assert items[..0] == [];

    for k := 0 to |items|
      invariant cats == BusinessCategories(doc, seatUserId, items[..k], requested)
      invariant cats.Keys == doc.categories.Keys
      invariant forall j :: 0 <= j < k ==> ToLower(items[j].category) in doc.categories
    {
      var item := items[k];
      var category := ToLower(item.category);
      if category !in cats {
        return None;
      }
      BusinessAddStep(doc, seatUserId, items, k);
      var found := FindMeal(cats[category], item.id);
      if found.Some? {
        var i := found.value;
        cats := cats[category := cats[category][i := AddSeat(cats[category][i], seatUserId)]];
      }
    }
    assert items[..|items|] == items;
    updated := Some(Doc(doc.rev, cats));
  }

  /** Every meal an order line designates ends with `seatsOrdered[seat] = 1`. */
  lemma BusinessHoldsRequested(doc: Doc, seat: string, items: seq<OrderItem>, k: nat)
    requires BusinessReserved(doc, seat, items).Some?
    requires k < |items| && Target(doc, items[k]).Some?
    ensures var t := Target(doc, items[k]).value;
      var e := BusinessReserved(doc, seat, items).value.categories[t.0][t.1];
      e.seatsOrdered.Some? && seat in Seats(e) && Seats(e)[seat] == Num(1)
  {
    assert RequestedCategories(items)[k] == ToLower(items[k].category);
    ReservedHoldsRequested(doc, seat, items, k);
  }

  /** In a requested category, no meal that no order line designates keeps a truthy entry for the seat. */
  lemma BusinessNoOtherTruthy(doc: Doc, seat: string, items: seq<OrderItem>, k: nat, i: nat)
    requires BusinessReserved(doc, seat, items).Some?
    requires k < |items| && i < |doc.categories[ToLower(items[k].category)]|
    requires forall j :: 0 <= j < |items| ==> Target(doc, items[j]) != Some((ToLower(items[k].category), i))
    ensures !HoldsTruthy(BusinessReserved(doc, seat, items).value.categories[ToLower(items[k].category)][i], seat)
  {
    var c := ToLower(items[k].category);
    assert RequestedCategories(items)[k] == c;
    ReservedNoOtherTruthy(doc, seat, items, c, i);
  }

  /**
   * Unlike the economy write, a category that no order line names is left
   * exactly as fetched: the seat's earlier reservations there survive.
   */
  lemma BusinessKeepsUnrequestedCategory(doc: Doc, seat: string, items: seq<OrderItem>, c: string)
    requires BusinessReserved(doc, seat, items).Some? && c in doc.categories
    requires forall k :: 0 <= k < |items| ==> ToLower(items[k].category) != c
    ensures BusinessReserved(doc, seat, items).value.categories[c] == doc.categories[c]
  {
  }

  /** Other seats' entries, every meal id and every starting inventory are kept. */
  lemma BusinessOtherSeatsUntouched(doc: Doc, seat: string, items: seq<OrderItem>, c: string, i: nat, other: string)
    requires BusinessReserved(doc, seat, items).Some?
    requires c in doc.categories && i < |doc.categories[c]| && other != seat
    ensures var e, r := doc.categories[c][i], BusinessReserved(doc, seat, items).value.categories[c][i];
      && r.mealId == e.mealId && r.startingInventory == e.startingInventory
      && (other in Seats(r) <==> other in Seats(e))
      && (other in Seats(e) ==> Seats(r)[other] == Seats(e)[other])
  {
    ReservedOtherSeatsUntouched(doc, seat, items, c, i, other);
  }

  /** The write fails exactly when some order line's lower-cased category is missing from the document. */
  lemma BusinessReservedFails(doc: Doc, seat: string, items: seq<OrderItem>)
    ensures BusinessReserved(doc, seat, items).None? <==>
      exists k :: 0 <= k < |items| && ToLower(items[k].category) !in doc.categories
  {
  }

  /**
   * With no stock check, the business write gives a meal more reservations
   * than its starting inventory whenever another seat holds its only unit
   * and this seat orders it too.
   */
  lemma BusinessWriteCanExceedCapacity(doc: Doc, seat: string, other: string, items: seq<OrderItem>, k: nat)
    requires BusinessReserved(doc, seat, items).Some? && other != seat
    requires k < |items| && Target(doc, items[k]).Some?
    requires var t := Target(doc, items[k]).value;
      doc.categories[t.0][t.1].startingInventory == 1 && other in Seats(doc.categories[t.0][t.1])
    ensures !WithinCapacity(BusinessReserved(doc, seat, items).value)
  {
    var t := Target(doc, items[k]).value;
    var e := BusinessReserved(doc, seat, items).value.categories[t.0][t.1];
    assert seat in Seats(e) by {
      BusinessHoldsRequested(doc, seat, items, k);
    }
    assert other in Seats(e) && e.startingInventory == 1 by {
      BusinessOtherSeatsUntouched(doc, seat, items, t.0, t.1, other);
    }
    assert OrderedKeys(e) > e.startingInventory by {
      assert |{seat, other}| == 2;
      SubsetCardinality({seat, other}, Seats(e).Keys);
    }
  }

  // ---------------------------------------------------------------------------
  // updateBusinessInventory
  // ---------------------------------------------------------------------------

  /**
   * The message the thunk rejects with after a failed request: a failed
   * `fetch` rejects with the engine's `TypeError`, whose text is passed on;
   * a response that is not ok throws the thunk's own fixed text.
   */
  function BusinessFailureMessage(f: Failure, notOkText: string): (m: string)
    ensures f.HttpError? ==> m == notOkText
    ensures f.NetworkError? ==> m == f.message
  {
    match f
    case HttpError(_, _) => notOkText
    case NetworkError(message, _) => message
  }

  /**
   * The requests of one `updateBusinessInventory` call and how it settles:
   * every failure is caught and becomes `rejectWithValue(message)`; a 409
   * is a failure like any other.
   */
  predicate BusinessTrace(t: seq<Exchange>, seat: string, items: seq<OrderItem>, r: Outcome)
  {
    && |t| >= 1 && t[0].request == Get
    && if t[0].response.Err? then
         |t| == 1 && r == RejectedWithValue(MessageReject(BusinessFailureMessage(t[0].response.failure, FetchCurrentFailedMessage)))
       else
         var d := t[0].response.doc;
         match BusinessReserved(d, seat, items)
         case None =>
           |t| == 1 && r == RejectedWithValue(MessageReject(MissingCategoryErrorMessage))
         case Some(w) =>
           && |t| >= 2 && t[1].request == Put(w, d.rev)
           && if t[1].response.Err? then
                |t| == 2 && r == RejectedWithValue(MessageReject(BusinessFailureMessage(t[1].response.failure, UpdateInventoryFailedMessage)))
              else
                && |t| == 3 && t[2].request == Get
                && r == if t[2].response.Ok? then Fulfilled(t[2].response.doc)
                        else RejectedWithValue(MessageReject(BusinessFailureMessage(t[2].response.failure, FetchCurrentFailedMessage)))
  }

  /** `updateBusinessInventory`: GET, write, PUT `?rev=`, GET; `trace` is the requests it makes. */
  method UpdateBusinessInventory(store: Store, seatUserId: string, items: seq<OrderItem>)
    returns (r: Outcome, ghost trace: seq<Exchange>)
    requires store.Valid()
    modifies store
    ensures store.Valid()
    ensures store.log == old(store.log) + trace
    ensures BusinessTrace(trace, seatUserId, items, r)
  {
    var getResponse := store.Fetch();
    trace := [Exchange(Get, getResponse)];
    if getResponse.Err? {
      return RejectedWithValue(MessageReject(BusinessFailureMessage(getResponse.failure, FetchCurrentFailedMessage))), trace;
    }
    var currentInventory := getResponse.doc;
    var updated := ApplyBusinessOrders(currentInventory, seatUserId, items);
    if updated.None? {
      return RejectedWithValue(MessageReject(MissingCategoryErrorMessage)), trace;
    }
    var updatedInventory := updated.value;
    assert WellFormed(updatedInventory) by {
      assert updatedInventory.categories.Keys == currentInventory.categories.Keys;
    }
    var putResponse := store.WriteConditional(updatedInventory, currentInventory.rev);
    var put := Exchange(Put(updatedInventory, currentInventory.rev), putResponse);
    AppendAssoc(old(store.log), trace, [put]);
    trace := trace + [put];
    if putResponse.Err? {
      return RejectedWithValue(MessageReject(BusinessFailureMessage(putResponse.failure, UpdateInventoryFailedMessage))), trace;
    }
    var getNewResponse := store.Fetch();
    AppendAssoc(old(store.log), trace, [Exchange(Get, getNewResponse)]);
    trace := trace + [Exchange(Get, getNewResponse)];
    if getNewResponse.Err? {
      return RejectedWithValue(MessageReject(BusinessFailureMessage(getNewResponse.failure, FetchCurrentFailedMessage))), trace;
    }
    r := Fulfilled(getNewResponse.doc);
  }

  /**
   * A failed PUT, a 409 included, ends the call: the business thunk never
   * retries, and a PUT the server answered rejects with the fixed text.
   */
  lemma BusinessConflictNotRetried(t: seq<Exchange>, seat: string, items: seq<OrderItem>, r: Outcome)
    requires BusinessTrace(t, seat, items, r)
    requires |t| >= 2 && t[1].response.Err?
    ensures |t| == 2 && r.RejectedWithValue?
    ensures t[1].response.failure.HttpError? ==> r == RejectedWithValue(MessageReject(UpdateInventoryFailedMessage))
    ensures t[1].response.failure.NetworkError? ==> r == RejectedWithValue(MessageReject(t[1].response.failure.message))
  {
  }

  /** A call writes at most once, and only the second request can be a successful write. */
  lemma BusinessCommitsAtMostOnce(t: seq<Exchange>, seat: string, items: seq<OrderItem>, r: Outcome)
    requires BusinessTrace(t, seat, items, r)
    ensures forall j :: 0 <= j < |t| && Committed(t[j]) ==> j == 1
    ensures r.Fulfilled? ==> |t| == 3 && Committed(t[1])
  {
  }

  /** A fulfilled call wrote the business write of the document it fetched, at its revision. */
  lemma BusinessFulfilledWroteReserved(t: seq<Exchange>, seat: string, items: seq<OrderItem>, r: Outcome)
    requires BusinessTrace(t, seat, items, r) && r.Fulfilled?
    ensures t[0].response.Ok? && BusinessReserved(t[0].response.doc, seat, items).Some?
    ensures t[1].request == Put(BusinessReserved(t[0].response.doc, seat, items).value, t[0].response.doc.rev)
    ensures t[2].response == Ok(r.doc)
  {
  }

  /**
   * Every way the call fails is a `rejectWithValue`, so the rejected action
   * always carries the error message `"Rejected"`, never the thunk's own text.
   */
  lemma BusinessRejectionMessage(t: seq<Exchange>, seat: string, items: seq<OrderItem>, r: Outcome)
    requires BusinessTrace(t, seat, items, r) && !r.Fulfilled?
    ensures ActionErrorMessage(r) == Some(RejectedActionMessage)
  {
  }

  // ---------------------------------------------------------------------------
  // The slice
  // ---------------------------------------------------------------------------

  class InventorySlice {
    var data: Option<Doc>
    var status: Status
    var error: Option<string>

    constructor ()
      ensures data == None && status == Idle && error == None
    {
      data, status, error := None, Idle, None;
    }

    /** `fetchBusinessInventory.pending` and `updateBusinessInventory.pending`. */
    method Pending()
      modifies this
      ensures status == Loading && error == None && data == old(data)
    {
      status, error := Loading, None;
    }

    /** `fetchBusinessInventory.fulfilled` and `updateBusinessInventory.fulfilled`. */
    method Fulfilled(doc: Doc)
      modifies this
      ensures status == Succeeded && data == Some(doc) && error == None
    {
      status, data, error := Succeeded, Some(doc), None;
    }

    /** `fetchBusinessInventory.rejected`: the action's error message, or the default. */
    method FetchRejected(errorMessage: Option<string>)
      modifies this
      ensures status == Failed && data == old(data)
      ensures error == Some(if errorMessage.Some? then errorMessage.value else FetchInventoryFailedMessage)
    {
      status := Failed;
      error := Some(if errorMessage.Some? then errorMessage.value else FetchInventoryFailedMessage);
    }

    /** `updateBusinessInventory.rejected`: the action's error message, or the default. */
    method UpdateRejected(errorMessage: Option<string>)
      modifies this
      ensures status == Failed && data == old(data)
      ensures error == Some(if errorMessage.Some? then errorMessage.value else UpdateInventoryFailedMessage)
    {
      status := Failed;
      error := Some(if errorMessage.Some? then errorMessage.value else UpdateInventoryFailedMessage);
    }

    /** The reducer that runs when `updateBusinessInventory` settles with `o`. */
    method SettleUpdate(o: Outcome)
      modifies this
      ensures o.Fulfilled? ==> status == Succeeded && data == Some(o.doc) && error == None
      ensures !o.Fulfilled? ==> status == Failed && data == old(data) && error == ActionErrorMessage(o)
    {
      if o.Fulfilled? {
        Fulfilled(o.doc);
      } else {
        UpdateRejected(ActionErrorMessage(o));
      }
    }
  }
}
