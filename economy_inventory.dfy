/**
 * The economy inventory slice (src/store/economyInventorySlice.ts): the
 * capacity check `findOutOfStockItems`, the document transform
 * `applyOrdersToInventory`, the optimistic-concurrency loop of
 * `updateEconomyInventory`, the change-feed merge `updatePartialInventory`
 * with its cart eviction, and the slice reducers.
 */
module EconomyInventory {
  import opened Common
  import opened Constants
  import opened Inventory
  import opened InventoryStore
  import opened Cart
  import opened EconomyMeal

  // ---------------------------------------------------------------------------
  // findOutOfStockItems
  // ---------------------------------------------------------------------------

  /** `startingInventory - Object.keys(seatsOrdered ?? {}).length <= 0`; the
      requesting seat's own entry counts like any other. */
  predicate SoldOut(e: MealEntry)
  {
    e.startingInventory - OrderedKeys(e) <= 0
  }

  /** The order line names a valid category, its meal exists there, and the meal is sold out. */
  predicate IsOutOfStock(doc: Doc, item: OrderItem)
  {
    match Target(doc, item)
    case None => false
    case Some(t) => IsValidCategory(t.0) && SoldOut(doc.categories[t.0][t.1])
  }

  /** What the check reports for an order line: the category lower-cased. */
  function Report(item: OrderItem): OutOfStockItem
  {
    OutOfStockItem(item.id, item.name, ToLower(item.category))
  }

  /** The list `findOutOfStockItems` builds, one push per sold-out line, in request order. */
  function OutOfStockReport(doc: Doc, items: seq<OrderItem>): (r: seq<OutOfStockItem>)
    ensures |r| <= |items|
    decreases |items|
  {
    if items == [] then []
    else
      var last := items[|items| - 1];
      OutOfStockReport(doc, items[..|items| - 1]) + (if IsOutOfStock(doc, last) then [Report(last)] else [])
  }

  /** The positions of the sold-out order lines, increasing. */
  function OutOfStockPositions(doc: Doc, items: seq<OrderItem>): seq<nat>
  {
    Positions(items, (item: OrderItem) => IsOutOfStock(doc, item))
  }

  /** No order line is sold out. */
  predicate AllInStock(doc: Doc, items: seq<OrderItem>)
  {
    forall k :: 0 <= k < |items| ==> !IsOutOfStock(doc, items[k])
  }

  /**
   * The report is exactly the sold-out lines, in request order: its j-th
   * entry reports the j-th sold-out position.
   */
  lemma {:induction false} OutOfStockReportIsFilter(doc: Doc, items: seq<OrderItem>)
    ensures |OutOfStockReport(doc, items)| == |OutOfStockPositions(doc, items)|
    ensures forall j :: 0 <= j < |OutOfStockPositions(doc, items)| ==>
      OutOfStockReport(doc, items)[j] == Report(items[OutOfStockPositions(doc, items)[j]])
    decreases |items|
  {
    if items != [] {
      var n := |items| - 1;
      OutOfStockReportIsFilter(doc, items[..n]);
      var ps, r := OutOfStockPositions(doc, items[..n]), OutOfStockReport(doc, items[..n]);
      var extra := if IsOutOfStock(doc, items[n]) then [n] else [];
      assert OutOfStockPositions(doc, items) == ps + extra;
      assert OutOfStockReport(doc, items) == r + (if IsOutOfStock(doc, items[n]) then [Report(items[n])] else []);
      forall j | 0 <= j < |ps|
        ensures OutOfStockReport(doc, items)[j] == Report(items[OutOfStockPositions(doc, items)[j]])
      {
        assert items[..n][ps[j]] == items[ps[j]];
      }
    }
  }

  /** The report is empty exactly when every line is in stock. */
  lemma OutOfStockReportEmpty(doc: Doc, items: seq<OrderItem>)
    ensures OutOfStockReport(doc, items) == [] <==> AllInStock(doc, items)
  {
    OutOfStockReportIsFilter(doc, items);
    var ps := OutOfStockPositions(doc, items);
    if !AllInStock(doc, items) {
      var k :| 0 <= k < |items| && IsOutOfStock(doc, items[k]);
      assert k in ps;
    }
  }

  /**
   * Lines whose lower-cased category is not valid, or whose meal id is not
   * in that category, are never reported.
   */
  lemma UnmatchedNeverReported(doc: Doc, item: OrderItem)
    requires WellFormed(doc)
    requires !IsValidCategory(ToLower(item.category)) ||
      forall j :: 0 <= j < |doc.categories[ToLower(item.category)]| ==>
        doc.categories[ToLower(item.category)][j].mealId != item.id
    ensures !IsOutOfStock(doc, item)
  {
  }

  /**
   * A seat that already holds a meal whose keys have reached its starting
   * inventory is reported out of stock when it confirms that meal again:
   * the check counts the requesting seat's own key like any other.
   */
  lemma {:induction false} OwnLastUnitReported(doc: Doc, item: OrderItem, seat: string)
    requires Target(doc, item).Some? && IsValidCategory(Target(doc, item).value.0)
    requires var e := doc.categories[Target(doc, item).value.0][Target(doc, item).value.1];
      HoldsTruthy(e, seat) && e.startingInventory <= OrderedKeys(e)
    ensures OutOfStockReport(doc, [item]) == [Report(item)]
  {
    assert [item][..0] == [];
  }

  /** `findOutOfStockItems`: walk the request, pushing each sold-out line. */
  method FindOutOfStockItems(doc: Doc, items: seq<OrderItem>) returns (outOfStockItems: seq<OutOfStockItem>)
    requires WellFormed(doc)
    ensures outOfStockItems == OutOfStockReport(doc, items)
  {
    outOfStockItems := [];
    for k := 0 to |items|
      invariant outOfStockItems == OutOfStockReport(doc, items[..k])
    {
      assert items[..k + 1][..k] == items[..k];
      var item := items[k];
      var lowerCategory := ToLower(item.category);
      if IsValidCategory(lowerCategory) {
        var found := FindMeal(doc.categories[lowerCategory], item.id);
        if found.Some? {
          var meal := doc.categories[lowerCategory][found.value];
          if meal.startingInventory - OrderedKeys(meal) <= 0 {
            outOfStockItems := outOfStockItems + [Report(item)];
          }
        }
      }
    }
    assert items[..|items|] == items;
  }

  // ---------------------------------------------------------------------------
  // applyOrdersToInventory
  // ---------------------------------------------------------------------------

  /** A meal after the write: the seat stripped, then re-added when requested. */
  function ReservedEntry(e: MealEntry, seat: string, requested: bool): MealEntry
  {
    if requested then AddSeat(StripSeat(e, seat), seat) else StripSeat(e, seat)
  }

  /** `list.map(...)` of the strip pass over one category. */
  function StripAll(meals: seq<MealEntry>, seat: string): seq<MealEntry>
  {
    seq(|meals|, i requires 0 <= i < |meals| => StripSeat(meals[i], seat))
  }

  /** Stripping a seat twice is stripping it once. */
  lemma StripAllTwice(meals: seq<MealEntry>, seat: string)
    ensures StripAll(StripAll(meals, seat), seat) == StripAll(meals, seat)
  {
  }

  function ReservedMeals(doc: Doc, seat: string, items: seq<OrderItem>, c: string): (r: seq<MealEntry>)
    requires c in doc.categories
    ensures |r| == |doc.categories[c]|
  {
    var meals := doc.categories[c];
    seq(|meals|, i requires 0 <= i < |meals| => ReservedEntry(meals[i], seat, Requested(doc, items, c, i)))
  }

  /**
   * The document the economy thunk writes: every meal of every category has
   * the seat's truthy entry stripped, and every meal designated by an order
   * line holds the seat with marker 1.
   */
  function Reserved(doc: Doc, seat: string, items: seq<OrderItem>): Doc
  {
    Doc(doc.rev, map c | c in doc.categories :: ReservedMeals(doc, seat, items, c))
  }

  /** The write keeps the revision, the categories, every meal id and every starting inventory. */
  lemma ReservedShape(doc: Doc, seat: string, items: seq<OrderItem>)
    ensures var r := Reserved(doc, seat, items);
      SameShape(doc, r) && r.rev == doc.rev && (WellFormed(doc) ==> WellFormed(r))
  {
  }

  /** The write keeps the meal ids of every category list, position by position. */
  lemma ReservedSameIds(doc: Doc, seat: string, items: seq<OrderItem>, c: string)
    requires c in doc.categories
    ensures SameIds(doc.categories[c], Reserved(doc, seat, items).categories[c])
  {
    var r := ReservedMeals(doc, seat, items, c);
    forall i | 0 <= i < |r|
      ensures r[i].mealId == doc.categories[c][i].mealId
    {
      StripSeatSpec(doc.categories[c][i], seat);
      AddSeatSpec(StripSeat(doc.categories[c][i], seat), seat);
    }
  }

  /** Adding the seat to a meal of the write gives the meal as if it were requested. */
  lemma ReservedEntryAdd(e: MealEntry, seat: string, requested: bool)
    ensures AddSeat(ReservedEntry(e, seat, requested), seat) == ReservedEntry(e, seat, true)
  {
    var m := Seats(StripSeat(e, seat))[seat := Num(1)];
    assert m[seat := Num(1)] == m;
  }

  /** The write for no order line is the strip pass alone. */
  lemma ReservedNothing(doc: Doc, seat: string)
    ensures Reserved(doc, seat, []).categories == map c | c in doc.categories :: StripAll(doc.categories[c], seat)
  {
    var r := Reserved(doc, seat, []).categories;
    forall c | c in doc.categories
      ensures r[c] == StripAll(doc.categories[c], seat)
    {
      assert forall i :: 0 <= i < |r[c]| ==> r[c][i] == StripSeat(doc.categories[c][i], seat);
    }
  }

  /** One more order line adds the seat to the meal it targets in one category list. */
  lemma ReservedMealsSnoc(doc: Doc, seat: string, items: seq<OrderItem>, x: OrderItem, c: string)
    requires c in doc.categories
    ensures var before := ReservedMeals(doc, seat, items, c);
      ReservedMeals(doc, seat, items + [x], c) ==
        if Target(doc, x).Some? && Target(doc, x).value.0 == c then
          before[Target(doc, x).value.1 := AddSeat(before[Target(doc, x).value.1], seat)]
        else before
  {
    DesignatedSnoc(doc, items, x);
    var before := ReservedMeals(doc, seat, items, c);
    var after := ReservedMeals(doc, seat, items + [x], c);
    var t := Target(doc, x);
    forall i | 0 <= i < |after|
      ensures after[i] == if t == Some((c, i)) then AddSeat(before[i], seat) else before[i]
    {
      if t == Some((c, i)) {
        ReservedEntryAdd(doc.categories[c][i], seat, Requested(doc, items, c, i));
      }
    }
  }

  /** One more order line adds the seat to the meal it targets, and changes nothing else. */
  lemma ReservedSnoc(doc: Doc, seat: string, items: seq<OrderItem>, x: OrderItem)
    ensures var before := Reserved(doc, seat, items).categories;
      Reserved(doc, seat, items + [x]).categories ==
        if Target(doc, x).Some? then
          var t := Target(doc, x).value;
          before[t.0 := before[t.0][t.1 := AddSeat(before[t.0][t.1], seat)]]
        else before
  {
    forall c | c in doc.categories {
      ReservedMealsSnoc(doc, seat, items, x, c);
    }
  }

  /**
   * A strip pass: for each listed category that the map holds, delete the
   * seat's truthy entry from every meal of that category.
   */
  method StripSeatIn(cats: map<string, seq<MealEntry>>, categories: seq<string>, seat: string)
    returns (stripped: map<string, seq<MealEntry>>)
    ensures stripped.Keys == cats.Keys
    ensures forall c :: c in cats ==> stripped[c] == if c in categories then StripAll(cats[c], seat) else cats[c]
  {
    stripped := cats;
    for n := 0 to |categories|
      invariant stripped.Keys == cats.Keys
      invariant forall c :: c in cats ==>
        stripped[c] == if c in categories[..n] then StripAll(cats[c], seat) else cats[c]
    {
      var category := categories[n];
      assert categories[..n + 1] == categories[..n] + [category];
      if category in stripped {
        StripAllTwice(cats[category], seat);
        stripped := stripped[category := StripAll(stripped[category], seat)];
      }
    }
    assert categories[..|categories|] == categories;
  }

  /** `applyOrdersToInventory`: the strip pass over `MEAL_CATEGORIES`, then the add pass over the request. */
  method ApplyOrdersToInventory(doc: Doc, seatUserId: string, items: seq<OrderItem>) returns (updatedDoc: Doc)
    requires WellFormed(doc)
    ensures updatedDoc == Reserved(doc, seatUserId, items)
  {
    var cats := StripSeatIn(doc.categories, MealCategories, seatUserId);
    assert cats == map c | c in doc.categories :: StripAll(doc.categories[c], seatUserId);
    ReservedNothing(doc, seatUserId);
    assert items[..0] == [];

    for k := 0 to |items|
      invariant cats == Reserved(doc, seatUserId, items[..k]).categories
    {
      var item := items[k];
      ReservedSnoc(doc, seatUserId, items[..k], item);
      assert items[..k + 1] == items[..k] + [item];
      var category := ToLower(item.category);
      var found: Option<nat> := None;
      if IsValidCategory(category) {
        ReservedSameIds(doc, seatUserId, items[..k], category);
        FindMealSameIds(doc.categories[category], cats[category], item.id);
        found := FindMeal(cats[category], item.id);
      } else {
        WellFormedKeys(doc, category);
      }
      assert Target(doc, item) == if found.Some? then Some((category, found.value)) else None;
      if found.Some? {
        var i := found.value;
        cats := cats[category := cats[category][i := AddSeat(cats[category][i], seatUserId)]];
      }
    }
    assert items[..|items|] == items;
    updatedDoc := Doc(doc.rev, cats);
  }

  /** Every requested meal found in its valid lower-cased category ends with `seatsOrdered[seat] = 1`. */
  lemma ReservedHoldsRequested(doc: Doc, seat: string, items: seq<OrderItem>, k: nat)
    requires k < |items| && Target(doc, items[k]).Some?
    ensures var t := Target(doc, items[k]).value;
      var e := Reserved(doc, seat, items).categories[t.0][t.1];
      e.seatsOrdered.Some? && seat in Seats(e) && Seats(e)[seat] == Num(1)
  {
    var t := Target(doc, items[k]).value;
    DesignatedIff(doc, items, t.0, t.1);
    AddSeatSpec(StripSeat(doc.categories[t.0][t.1], seat), seat);
  }

  /** No meal that no order line designates keeps a truthy entry for the seat, in any category. */
  lemma ReservedNoOtherTruthy(doc: Doc, seat: string, items: seq<OrderItem>, c: string, i: nat)
    requires c in doc.categories && i < |doc.categories[c]|
    requires forall k :: 0 <= k < |items| ==> Target(doc, items[k]) != Some((c, i))
    ensures !HoldsTruthy(Reserved(doc, seat, items).categories[c][i], seat)
  {
    DesignatedIff(doc, items, c, i);
    StripSeatSpec(doc.categories[c][i], seat);
  }

  /** Other seats' entries and every starting inventory are left as they were. */
  lemma ReservedOtherSeatsUntouched(doc: Doc, seat: string, items: seq<OrderItem>, c: string, i: nat, other: string)
    requires c in doc.categories && i < |doc.categories[c]| && other != seat
    ensures var e, r := doc.categories[c][i], Reserved(doc, seat, items).categories[c][i];
      && r.mealId == e.mealId && r.startingInventory == e.startingInventory
      && (other in Seats(r) <==> other in Seats(e))
      && (other in Seats(e) ==> Seats(r)[other] == Seats(e)[other])
  {
    var e := doc.categories[c][i];
    StripSeatSpec(e, seat);
    AddSeatSpec(StripSeat(e, seat), seat);
  }

  /** A null or 0 marker of the seat on a meal it does not request survives untouched. */
  lemma ReservedKeepsFalsyMarker(doc: Doc, seat: string, items: seq<OrderItem>, c: string, i: nat)
    requires c in doc.categories && i < |doc.categories[c]|
    requires forall k :: 0 <= k < |items| ==> Target(doc, items[k]) != Some((c, i))
    requires !HoldsTruthy(doc.categories[c][i], seat)
    ensures Reserved(doc, seat, items).categories[c][i] == doc.categories[c][i]
  {
    DesignatedIff(doc, items, c, i);
  }

  /** An order line with an invalid category or an unknown meal id changes nothing. */
  lemma ReservedIgnoresUnmatched(doc: Doc, seat: string, items: seq<OrderItem>, x: OrderItem)
    requires Target(doc, x).None?
    ensures Reserved(doc, seat, items + [x]) == Reserved(doc, seat, items)
  {
    ReservedSnoc(doc, seat, items, x);
  }

  /** A meal written once comes back unchanged from a second identical write. */
  lemma ReservedEntryTwice(e: MealEntry, seat: string, requested: bool)
    ensures ReservedEntry(ReservedEntry(e, seat, requested), seat, requested) == ReservedEntry(e, seat, requested)
  {
    var stripped := StripSeat(e, seat);
    if requested {
      var added := AddSeat(stripped, seat);
      var m := Seats(stripped)[seat := Num(1)];
      assert Seats(added) == m && HoldsTruthy(added, seat);
      assert (m - {seat})[seat := Num(1)] == m;
    } else {
      StripSeatSpec(e, seat);
    }
  }

  /** Writing the same request twice gives the document of writing it once. */
  lemma ReservedIdempotent(doc: Doc, seat: string, items: seq<OrderItem>)
    ensures Reserved(Reserved(doc, seat, items), seat, items) == Reserved(doc, seat, items)
  {
    var once := Reserved(doc, seat, items);
    var twice := Reserved(once, seat, items);
    ReservedShape(doc, seat, items);
    DesignatedSameShape(doc, once, items);
    forall c | c in doc.categories
      ensures twice.categories[c] == once.categories[c]
    {
      forall i | 0 <= i < |once.categories[c]|
        ensures twice.categories[c][i] == once.categories[c][i]
      {
        ReservedEntryTwice(doc.categories[c][i], seat, Requested(doc, items, c, i));
      }
    }
  }

  /**
   * A write the check let through keeps every meal within its capacity:
   * a requested meal had a free unit before the write, and stripping only
   * removes keys.
   */
  lemma ReservedKeepsCapacity(doc: Doc, seat: string, items: seq<OrderItem>)
    requires WellFormed(doc) && WithinCapacity(doc) && AllInStock(doc, items)
    ensures WithinCapacity(Reserved(doc, seat, items))
  {
    var r := Reserved(doc, seat, items);
    forall c: string, i: nat | c in r.categories && i < |r.categories[c]|
      ensures OrderedKeys(r.categories[c][i]) <= r.categories[c][i].startingInventory
    {
      var e := doc.categories[c][i];
      StripSeatSpec(e, seat);
      AddSeatSpec(StripSeat(e, seat), seat);
      if Requested(doc, items, c, i) {
        DesignatedIff(doc, items, c, i);
        var k :| 0 <= k < |items| && Target(doc, items[k]) == Some((c, i));
        assert !IsOutOfStock(doc, items[k]);
        WellFormedKeys(doc, c);
      }
    }
  }

  /**
   * Releasing: a seat that confirms an empty order gives up every truthy
   * reservation, so a meal only it held is free again for another seat.
   */
  lemma ReleaseFreesUnit(doc: Doc, seat: string, c: string, i: nat)
    requires c in doc.categories && i < |doc.categories[c]|
    requires doc.categories[c][i].seatsOrdered == Some(map[seat := Num(1)])
    requires doc.categories[c][i].startingInventory >= 1
    ensures !SoldOut(Reserved(doc, seat, []).categories[c][i])
  {
    var e := doc.categories[c][i];
    assert HoldsTruthy(e, seat);
    assert Seats(StripSeat(e, seat)) == map[];
  }

  // ---------------------------------------------------------------------------
  // updateEconomyInventory: the retry loop
  // ---------------------------------------------------------------------------

  const OutOfStockMessage: string := "Some items are already out of stock"

  /** The message of the `SyntaxError` `JSON.parse` throws on text that is
      not JSON; its exact wording comes from the JavaScript engine. */
  const UnparsableErrorMessage: string := "Unexpected token in JSON"

  /** The string the thunk rejects with after a failure that is not a conflict. */
  function RejectionFor(f: Failure): RejectValue
  {
    if f.parsed.Unparsable? then MessageReject(UnparsableErrorMessage) else MessageReject(f.message)
  }

  /** A PUT of this seat answered OK.  A write whose answer was lost is not one, though it may stand. */
  predicate Committed(x: Exchange)
  {
    x.request.Put? && x.response.Ok?
  }

  /** One pass of the loop that ends in a 409 and goes round again. */
  predicate ConflictAttempt(a: seq<Exchange>, seat: string, items: seq<OrderItem>)
  {
    || (|a| == 1 && a[0].request == Get && a[0].response.Err? && IsConflict(a[0].response.failure))
    || (&& |a| == 2 && a[0].request == Get && a[0].response.Ok?
        && OutOfStockReport(a[0].response.doc, items) == []
        && a[1].request == Put(Reserved(a[0].response.doc, seat, items), a[0].response.doc.rev)
        && a[1].response.Err? && IsConflict(a[1].response.failure))
  }

  /** The pass of the loop that settles the thunk with `r`. */
  predicate FinalAttempt(a: seq<Exchange>, seat: string, items: seq<OrderItem>, r: Outcome)
  {
    && |a| >= 1 && a[0].request == Get
    && if a[0].response.Err? then
         && !IsConflict(a[0].response.failure) && |a| == 1
         && r == RejectedWithValue(RejectionFor(a[0].response.failure))
       else
         var d := a[0].response.doc;
         if OutOfStockReport(d, items) != [] then
           |a| == 1 && r == RejectedWithValue(OutOfStockReject(OutOfStockMessage, OutOfStockReport(d, items)))
         else
           && |a| >= 2 && a[1].request == Put(Reserved(d, seat, items), d.rev)
           && if a[1].response.Err? then
                && !IsConflict(a[1].response.failure) && |a| == 2
                && r == RejectedWithValue(RejectionFor(a[1].response.failure))
              else
                && |a| == 3 && a[2].request == Get
                && r == if a[2].response.Ok? then Fulfilled(a[2].response.doc) else Rejected(a[2].response.failure.message)
  }

  /** A run of passes that each ended in a conflict. */
  predicate Retries(t: seq<Exchange>, seat: string, items: seq<OrderItem>)
    decreases |t|
  {
    || t == []
    || (|t| >= 1 && ConflictAttempt(t[..1], seat, items) && Retries(t[1..], seat, items))
    || (|t| >= 2 && ConflictAttempt(t[..2], seat, items) && Retries(t[2..], seat, items))
  }

  /** The requests of one `updateEconomyInventory` call: conflicting passes, then the settling pass. */
  predicate EconomyTrace(t: seq<Exchange>, seat: string, items: seq<OrderItem>, r: Outcome)
    decreases |t|
  {
    || FinalAttempt(t, seat, items, r)
    || (|t| >= 1 && ConflictAttempt(t[..1], seat, items) && EconomyTrace(t[1..], seat, items, r))
    || (|t| >= 2 && ConflictAttempt(t[..2], seat, items) && EconomyTrace(t[2..], seat, items, r))
  }

  lemma {:induction false} RetriesSnoc(p: seq<Exchange>, a: seq<Exchange>, seat: string, items: seq<OrderItem>)
    requires Retries(p, seat, items) && ConflictAttempt(a, seat, items)
    ensures Retries(p + a, seat, items)
    decreases |p|
  {
    if p == [] {
      assert p + a == a && a[..|a|] == a && a[|a|..] == [];
    } else if |p| >= 1 && ConflictAttempt(p[..1], seat, items) && Retries(p[1..], seat, items) {
      RetriesSnoc(p[1..], a, seat, items);
      assert (p + a)[..1] == p[..1] && (p + a)[1..] == p[1..] + a;
    } else {
      RetriesSnoc(p[2..], a, seat, items);
      assert (p + a)[..2] == p[..2] && (p + a)[2..] == p[2..] + a;
    }
  }

  lemma {:induction false} RetriesThenFinal(p: seq<Exchange>, a: seq<Exchange>, seat: string, items: seq<OrderItem>, r: Outcome)
    requires Retries(p, seat, items) && FinalAttempt(a, seat, items, r)
    ensures EconomyTrace(p + a, seat, items, r)
    decreases |p|
  {
    if p == [] {
      assert p + a == a;
    } else if |p| >= 1 && ConflictAttempt(p[..1], seat, items) && Retries(p[1..], seat, items) {
      RetriesThenFinal(p[1..], a, seat, items, r);
      assert (p + a)[..1] == p[..1] && (p + a)[1..] == p[1..] + a;
    } else {
      RetriesThenFinal(p[2..], a, seat, items, r);
      assert (p + a)[..2] == p[..2] && (p + a)[2..] == p[2..] + a;
    }
  }

  lemma FetchConflictAttempt(f: Failure, seat: string, items: seq<OrderItem>)
    requires IsConflict(f)
    ensures ConflictAttempt([Exchange(Get, Err(f))], seat, items)
  {
  }

  lemma WriteConflictAttempt(a: seq<Exchange>, d: Doc, f: Failure, seat: string, items: seq<OrderItem>)
    requires OutOfStockReport(d, items) == [] && IsConflict(f)
    requires a == [Exchange(Get, Ok(d)), Exchange(Put(Reserved(d, seat, items), d.rev), Err(f))]
    ensures ConflictAttempt(a, seat, items)
  {
  }

  lemma FetchFailedFinal(f: Failure, seat: string, items: seq<OrderItem>)
    requires !IsConflict(f)
    ensures FinalAttempt([Exchange(Get, Err(f))], seat, items, RejectedWithValue(RejectionFor(f)))
  {
  }

  lemma OutOfStockFinal(d: Doc, seat: string, items: seq<OrderItem>)
    requires OutOfStockReport(d, items) != []
    ensures FinalAttempt([Exchange(Get, Ok(d))], seat, items,
      RejectedWithValue(OutOfStockReject(OutOfStockMessage, OutOfStockReport(d, items))))
  {
  }

  lemma WriteFailedFinal(a: seq<Exchange>, d: Doc, f: Failure, seat: string, items: seq<OrderItem>)
    requires OutOfStockReport(d, items) == [] && !IsConflict(f)
    requires a == [Exchange(Get, Ok(d)), Exchange(Put(Reserved(d, seat, items), d.rev), Err(f))]
    ensures FinalAttempt(a, seat, items, RejectedWithValue(RejectionFor(f)))
  {
  }

  lemma CommittedFinal(a: seq<Exchange>, d: Doc, written: Doc, refetched: Response, seat: string, items: seq<OrderItem>)
    requires OutOfStockReport(d, items) == []
    requires a == [Exchange(Get, Ok(d)), Exchange(Put(Reserved(d, seat, items), d.rev), Ok(written)), Exchange(Get, refetched)]
    ensures FinalAttempt(a, seat, items, if refetched.Ok? then Fulfilled(refetched.doc) else Rejected(refetched.failure.message))
  {
  }

  /** Another seat's commit that respects capacity keeps the stored document within capacity. */
  lemma EventKeepsCapacity(current: Doc, script: seq<NetEvent>)
    requires WithinCapacity(current) && ScriptWithinCapacity(script)
    ensures WithinCapacity(Interfere(current, NextEvent(script))) && ScriptWithinCapacity(RestOf(script))
  {
    if script != [] {
      assert forall i :: 0 <= i < |script| - 1 ==> RestOf(script)[i] == script[i + 1];
    }
  }

  /**
   * Steps c) to e) of a pass, once the fetched document `currentDoc` has
   * passed the stock check: apply, PUT with the fetched revision, and on
   * success re-fetch.  `head` is the GET that fetched `currentDoc`; `tail`
   * is the requests made here.
   */
  method WriteAndConfirm(store: Store, currentDoc: Doc, seatUserId: string, items: seq<OrderItem>, ghost head: Exchange)
    returns (settled: Option<Outcome>, ghost tail: seq<Exchange>)
    requires store.Valid() && store.current == currentDoc
    requires head == Exchange(Get, Ok(currentDoc)) && OutOfStockReport(currentDoc, items) == []
    modifies store
    ensures store.Valid()
    ensures store.log == old(store.log) + tail
    ensures settled.None? ==> ConflictAttempt([head] + tail, seatUserId, items) && |store.script| < |old(store.script)|
    ensures settled.Some? ==> FinalAttempt([head] + tail, seatUserId, items, settled.value)
    ensures WithinCapacity(old(store.current)) && ScriptWithinCapacity(old(store.script)) ==>
      WithinCapacity(store.current) && ScriptWithinCapacity(store.script)
  {
    ghost var guarded := WithinCapacity(store.current) && ScriptWithinCapacity(store.script);
    // c) apply orders
    var updatedInventory := ApplyOrdersToInventory(currentDoc, seatUserId, items);
    assert WellFormed(updatedInventory) by {
      ReservedShape(currentDoc, seatUserId, items);
    }
    if guarded {
      assert WithinCapacity(updatedInventory) by {
        OutOfStockReportEmpty(currentDoc, items);
        ReservedKeepsCapacity(currentDoc, seatUserId, items);
      }
      EventKeepsCapacity(store.current, store.script);
    }
    // d) attempt to save
    var written := store.WriteConditional(updatedInventory, currentDoc.rev);
    var put := Exchange(Put(updatedInventory, currentDoc.rev), written);
    tail := [put];
    assert [head] + tail == [head, put];
    if written.Err? {
      if IsConflict(written.failure) {
        WriteConflictAttempt([head] + tail, currentDoc, written.failure, seatUserId, items);
        return None, tail;
      }
      WriteFailedFinal([head] + tail, currentDoc, written.failure, seatUserId, items);
      return Some(RejectedWithValue(RejectionFor(written.failure))), tail;
    }
    // e) if successful, re-fetch and return
    if guarded {
      assert WithinCapacity(store.current) by {
        assert store.current.categories == updatedInventory.categories;
      }
      EventKeepsCapacity(store.current, store.script);
    }
    var refetched := store.Fetch();
    AppendAssoc(old(store.log), tail, [Exchange(Get, refetched)]);
    tail := tail + [Exchange(Get, refetched)];
    assert [head] + tail == [head, put, Exchange(Get, refetched)];
    CommittedFinal([head] + tail, currentDoc, written.doc, refetched, seatUserId, items);
    settled := Some(if refetched.Ok? then Fulfilled(refetched.doc) else Rejected(refetched.failure.message));
  }

  /**
   * One pass of the `while (true)` loop of `updateEconomyInventory`: fetch,
   * check stock, and hand the fetched document to `WriteAndConfirm`.  A 409
   * from either request ends the pass unsettled (`None`), after consuming at
   * least one network event; anything else settles the thunk.  `attempt` is
   * the requests of the pass.
   */
  method TryOnce(store: Store, seatUserId: string, items: seq<OrderItem>)
    returns (settled: Option<Outcome>, ghost attempt: seq<Exchange>)
    requires store.Valid()
    modifies store
    ensures store.Valid()
    ensures store.log == old(store.log) + attempt
    ensures settled.None? ==> ConflictAttempt(attempt, seatUserId, items) && |store.script| < |old(store.script)|
    ensures settled.Some? ==> FinalAttempt(attempt, seatUserId, items, settled.value)
    ensures WithinCapacity(old(store.current)) && ScriptWithinCapacity(old(store.script)) ==>
      WithinCapacity(store.current) && ScriptWithinCapacity(store.script)
  {
    ghost var guarded := WithinCapacity(store.current) && ScriptWithinCapacity(store.script);
    // a) fetch current doc
    if guarded {
      EventKeepsCapacity(store.current, store.script);
    }
    var fetched := store.Fetch();
    ghost var head := Exchange(Get, fetched);
    attempt := [head];
    if fetched.Err? {
      if IsConflict(fetched.failure) {
        FetchConflictAttempt(fetched.failure, seatUserId, items);
        return None, attempt;
      }
      FetchFailedFinal(fetched.failure, seatUserId, items);
      return Some(RejectedWithValue(RejectionFor(fetched.failure))), attempt;
    }
    var currentDoc := fetched.doc;
    // b) check for out-of-stock items
    var outOfStock := FindOutOfStockItems(currentDoc, items);
    if |outOfStock| > 0 {
      OutOfStockFinal(currentDoc, seatUserId, items);
      return Some(RejectedWithValue(OutOfStockReject(OutOfStockMessage, outOfStock))), attempt;
    }
    ghost var tail;
    settled, tail := WriteAndConfirm(store, currentDoc, seatUserId, items, head);
    AppendAssoc(old(store.log), attempt, tail);
    attempt := attempt + tail;
  }

  /**
   * `updateEconomyInventory`: passes that end in a conflict are repeated
   * until one settles the thunk.  `trace` is the requests this call makes.
   */
  method UpdateEconomyInventory(store: Store, seatUserId: string, items: seq<OrderItem>)
    returns (r: Outcome, ghost trace: seq<Exchange>)
    requires store.Valid()
    modifies store
    ensures store.Valid()
    ensures store.log == old(store.log) + trace
    ensures EconomyTrace(trace, seatUserId, items, r)
    ensures WithinCapacity(old(store.current)) && ScriptWithinCapacity(old(store.script)) ==>
      WithinCapacity(store.current)
  {
    ghost var guarded := WithinCapacity(store.current) && ScriptWithinCapacity(store.script);
    trace := [];
    while true
      invariant store.Valid()
      invariant store.log == old(store.log) + trace
      invariant Retries(trace, seatUserId, items)
      invariant guarded ==> WithinCapacity(store.current) && ScriptWithinCapacity(store.script)
      decreases |store.script|
    {
      var settled;
      ghost var attempt;
      settled, attempt := TryOnce(store, seatUserId, items);
      AppendAssoc(old(store.log), trace, attempt);
      if settled.Some? {
        r := settled.value;
        RetriesThenFinal(trace, attempt, seatUserId, items, r);
        trace := trace + attempt;
        return;
      }
      RetriesSnoc(trace, attempt, seatUserId, items);
      trace := trace + attempt;
    }
  }

  /** A rejection (out of stock or failure) never follows a successful write of this call. */
  lemma {:induction false} RejectionCommitsNothing(t: seq<Exchange>, seat: string, items: seq<OrderItem>, r: Outcome)
    requires EconomyTrace(t, seat, items, r) && r.RejectedWithValue?
    ensures forall i :: 0 <= i < |t| ==> !Committed(t[i])
    decreases |t|
  {
    if FinalAttempt(t, seat, items, r) {
    } else if |t| >= 1 && ConflictAttempt(t[..1], seat, items) && EconomyTrace(t[1..], seat, items, r) {
      RejectionCommitsNothing(t[1..], seat, items, r);
      forall i | 1 <= i < |t| ensures !Committed(t[i]) { assert t[i] == t[1..][i - 1]; }
      assert t[0] == t[..1][0];
    } else {
      RejectionCommitsNothing(t[2..], seat, items, r);
      forall i | 2 <= i < |t| ensures !Committed(t[i]) { assert t[i] == t[2..][i - 2]; }
      assert t[0] == t[..2][0] && t[1] == t[..2][1];
    }
  }

  /**
   * An out-of-stock rejection carries the non-empty report of the last
   * fetched document, and the last request of the call is that fetch.
   */
  lemma {:induction false} OutOfStockRejectionIsLastCheck(t: seq<Exchange>, seat: string, items: seq<OrderItem>, r: Outcome)
    requires EconomyTrace(t, seat, items, r) && r.RejectedWithValue? && r.value.OutOfStockReject?
    ensures |t| >= 1 && t[|t| - 1].request == Get && t[|t| - 1].response.Ok?
    ensures r.value.items == OutOfStockReport(t[|t| - 1].response.doc, items) && r.value.items != []
    decreases |t|
  {
    if FinalAttempt(t, seat, items, r) {
    } else if |t| >= 1 && ConflictAttempt(t[..1], seat, items) && EconomyTrace(t[1..], seat, items, r) {
      OutOfStockRejectionIsLastCheck(t[1..], seat, items, r);
      assert t[|t| - 1] == t[1..][|t[1..]| - 1];
    } else {
      OutOfStockRejectionIsLastCheck(t[2..], seat, items, r);
      assert t[|t| - 1] == t[2..][|t[2..]| - 1];
    }
  }

  /**
   * A fulfilled call made exactly one write, second to last: the PUT of the
   * document computed from the fetch just before it, with that fetch's
   * revision, after a stock check that passed; the result is the re-fetch.
   */
  lemma {:induction false} FulfilledCommitsOnce(t: seq<Exchange>, seat: string, items: seq<OrderItem>, r: Outcome)
    requires EconomyTrace(t, seat, items, r) && r.Fulfilled?
    ensures |t| >= 3
    ensures forall i :: 0 <= i < |t| ==> (Committed(t[i]) <==> i == |t| - 2)
    ensures t[|t| - 3].request == Get && t[|t| - 3].response.Ok?
    ensures var d := t[|t| - 3].response.doc;
      AllInStock(d, items) && t[|t| - 2].request == Put(Reserved(d, seat, items), d.rev)
    ensures t[|t| - 1] == Exchange(Get, Ok(r.doc))
    decreases |t|
  {
    if FinalAttempt(t, seat, items, r) {
      OutOfStockReportEmpty(t[0].response.doc, items);
    } else if |t| >= 1 && ConflictAttempt(t[..1], seat, items) && EconomyTrace(t[1..], seat, items, r) {
      FulfilledCommitsOnce(t[1..], seat, items, r);
      forall i | 1 <= i < |t| ensures t[i] == t[1..][i - 1] { }
      assert t[0] == t[..1][0];
    } else {
      FulfilledCommitsOnce(t[2..], seat, items, r);
      forall i | 2 <= i < |t| ensures t[i] == t[2..][i - 2] { }
      assert t[0] == t[..2][0] && t[1] == t[..2][1];
    }
  }

  /**
   * No conflict on a pass's GET or PUT ends the call: those go round again.
   * The one request whose 409 can end it is the re-fetch after a PUT
   * answered OK, which is returned without `await` and so escapes both
   * catches; the call then settles as `Rejected` with its message.
   */
  lemma {:induction false} ConflictNeverSurfaces(t: seq<Exchange>, seat: string, items: seq<OrderItem>, r: Outcome)
    requires EconomyTrace(t, seat, items, r)
    ensures |t| >= 1
    ensures t[|t| - 1].response.Err? && IsConflict(t[|t| - 1].response.failure) ==>
      && |t| >= 2 && t[|t| - 1].request == Get && Committed(t[|t| - 2])
      && r == Rejected(t[|t| - 1].response.failure.message)
    decreases |t|
  {
    if FinalAttempt(t, seat, items, r) {
    } else if |t| >= 1 && ConflictAttempt(t[..1], seat, items) && EconomyTrace(t[1..], seat, items, r) {
      ConflictNeverSurfaces(t[1..], seat, items, r);
      assert t[|t| - 1] == t[1..][|t[1..]| - 1];
    } else {
      ConflictNeverSurfaces(t[2..], seat, items, r);
      assert t[|t| - 1] == t[2..][|t[2..]| - 1];
    }
  }

  /**
   * The exemption above is reachable: after a PUT answered OK, a re-fetch
   * failing with the `{status: 409}` message rejects the call instead of
   * retrying it.
   */
  lemma RefetchConflictRejects(d: Doc, w: Doc, seat: string, items: seq<OrderItem>)
    requires OutOfStockReport(d, items) == []
    ensures EconomyTrace(
      [Exchange(Get, Ok(d)), Exchange(Put(Reserved(d, seat, items), d.rev), Ok(w)), Exchange(Get, Err(JsonConflict))],
      seat, items, Rejected(JsonConflict.message))
  {
  }

  /**
   * Only a failure whose message parses to `{status: 409}` is retried: any
   * other failed request is the last of the call, and a failed PUT settles
   * it with `rejectWithValue`.  In particular a stale-revision answer with
   * an empty body (`HTTP error! status: 409`, which `JSON.parse` refuses)
   * is not retried.
   */
  lemma {:induction false} UnparsedConflictEndsCall(t: seq<Exchange>, seat: string, items: seq<OrderItem>, r: Outcome, i: nat)
    requires EconomyTrace(t, seat, items, r)
    requires i < |t| && t[i].response.Err? && !IsConflict(t[i].response.failure)
    ensures i == |t| - 1
    ensures t[i].request.Put? ==> r == RejectedWithValue(RejectionFor(t[i].response.failure))
    ensures t[i].request.Put? && t[i].response.failure == EmptyBodyConflict ==> r == RejectedWithValue(MessageReject(UnparsableErrorMessage))
    decreases |t|
  {
    if FinalAttempt(t, seat, items, r) {
    } else if |t| >= 1 && ConflictAttempt(t[..1], seat, items) && EconomyTrace(t[1..], seat, items, r) {
      assert t[0] == t[..1][0];
      UnparsedConflictEndsCall(t[1..], seat, items, r, i - 1);
    } else {
      assert t[0] == t[..2][0] && t[1] == t[..2][1];
      UnparsedConflictEndsCall(t[2..], seat, items, r, i - 2);
    }
  }

  // ---------------------------------------------------------------------------
  // updatePartialInventory
  // ---------------------------------------------------------------------------

  /** One change-feed update (`PartialInventoryUpdate`). */
  datatype PartialInventoryUpdate =
    PartialInventoryUpdate(category: string, mealId: string, seatsOrdered: SeatMap, startingInventory: int)

  /** `changedCategories`: the valid categories named by the updates, first appearance first, no repeats. */
  function ChangedCategories(updates: seq<PartialInventoryUpdate>): (cs: seq<string>)
    ensures forall c :: c in cs <==> IsValidCategory(c) && exists k :: 0 <= k < |updates| && updates[k].category == c
    ensures forall i, j :: 0 <= i < j < |cs| ==> cs[i] != cs[j]
    decreases |updates|
  {
    if updates == [] then []
    else
      var n := |updates| - 1;
      var cs := ChangedCategories(updates[..n]);
      assert forall k :: 0 <= k < n ==> updates[..n][k] == updates[k];
      var c := updates[n].category;
      if IsValidCategory(c) && c !in cs then cs + [c] else cs
  }

  /** `updates.find(u => u.mealId === mealKey)`, as a position; the category is not compared. */
  function FindUpdate(updates: seq<PartialInventoryUpdate>, mealId: string): (r: Option<nat>)
    ensures r.Some? ==> r.value < |updates| && updates[r.value].mealId == mealId
    ensures r.Some? ==> forall j :: 0 <= j < r.value ==> updates[j].mealId != mealId
    ensures r.None? <==> forall j :: 0 <= j < |updates| ==> updates[j].mealId != mealId
  {
    FindIndex(updates, (u: PartialInventoryUpdate) => u.mealId == mealId)
  }

  /** A meal of a changed category: replaced by the first update with its id, if any. */
  function MergedEntry(e: MealEntry, updates: seq<PartialInventoryUpdate>): MealEntry
  {
    match FindUpdate(updates, e.mealId)
    case Some(k) => MealEntry(e.mealId, Some(updates[k].seatsOrdered), updates[k].startingInventory)
    case None => e
  }

  /**
   * How `updatePartialInventory` settles: fulfilled with the merged
   * document, or with `null` when nothing is cached; or rejected, when a
   * changed category is missing from the cached document and
   * `updatedInventory[category].map` throws.
   */
  datatype PartialOutcome = PartialDone(payload: Option<Doc>) | PartialThrew

  /** The position, among the changed categories, of the first one the cached document lacks. */
  function MissingChanged(doc: Doc, updates: seq<PartialInventoryUpdate>): (r: Option<nat>)
    ensures r.Some? ==> r.value < |ChangedCategories(updates)| && ChangedCategories(updates)[r.value] !in doc.categories
    ensures r.Some? ==> forall j :: 0 <= j < r.value ==> ChangedCategories(updates)[j] in doc.categories
    ensures r.None? <==> forall j :: 0 <= j < |ChangedCategories(updates)| ==> ChangedCategories(updates)[j] in doc.categories
  {
    FindIndex(ChangedCategories(updates), (c: string) => c !in doc.categories)
  }

  /** How `updatePartialInventory` settles for the cached document `cached`. */
  function PartialInventory(cached: Option<Doc>, updates: seq<PartialInventoryUpdate>): PartialOutcome
  {
    match cached
    case None => PartialDone(None)
    case Some(doc) =>
      if MissingChanged(doc, updates).Some? then PartialThrew
      else
        var changed := ChangedCategories(updates);
        PartialDone(Some(Doc(doc.rev, map c | c in doc.categories ::
          if c in changed then
            seq(|doc.categories[c]|, i requires 0 <= i < |doc.categories[c]| => MergedEntry(doc.categories[c][i], updates))
          else doc.categories[c])))
  }

  /**
   * No cached document gives `null`.  The merge throws exactly when some
   * update names a valid category the cached document lacks; otherwise it
   * keeps the revision and the set of categories.
   */
  lemma PartialInventorySettles(doc: Doc, updates: seq<PartialInventoryUpdate>)
    ensures PartialInventory(None, updates) == PartialDone(None)
    ensures PartialInventory(Some(doc), updates).PartialThrew? <==>
      exists k :: 0 <= k < |updates| && IsValidCategory(updates[k].category) && updates[k].category !in doc.categories
    ensures var r := PartialInventory(Some(doc), updates);
      r.PartialDone? ==> r.payload.Some? && r.payload.value.rev == doc.rev && r.payload.value.categories.Keys == doc.categories.Keys
  {
    var cs := ChangedCategories(updates);
    if MissingChanged(doc, updates).Some? {
      var m := cs[MissingChanged(doc, updates).value];
      assert m in cs;
    } else {
      forall k | 0 <= k < |updates| && IsValidCategory(updates[k].category)
        ensures updates[k].category in doc.categories
      {
        assert updates[k].category in cs;
      }
    }
  }

  /**
   * When the merge does not throw, only categories named by an update with
   * a valid category change; in them each meal with an update takes
   * `seatsOrdered` and `startingInventory` from the first update with its
   * id, the others stay.
   */
  lemma PartialInventoryChanges(doc: Doc, updates: seq<PartialInventoryUpdate>, c: string)
    requires c in doc.categories
    ensures var r := PartialInventory(Some(doc), updates);
      r.PartialDone? ==>
      && |r.payload.value.categories[c]| == |doc.categories[c]|
      && ((!IsValidCategory(c) || forall k :: 0 <= k < |updates| ==> updates[k].category != c) ==>
            r.payload.value.categories[c] == doc.categories[c])
      && ((IsValidCategory(c) && exists k :: 0 <= k < |updates| && updates[k].category == c) ==>
            forall i :: 0 <= i < |doc.categories[c]| ==>
              var e := doc.categories[c][i];
              r.payload.value.categories[c][i] ==
                if exists k :: 0 <= k < |updates| && updates[k].mealId == e.mealId then
                  var u := updates[FindUpdate(updates, e.mealId).value];
                  MealEntry(e.mealId, Some(u.seatsOrdered), u.startingInventory)
                else e)
  {
  }

  /** A cached document with all six categories never makes the merge throw. */
  lemma WellFormedMergeFulfils(doc: Doc, updates: seq<PartialInventoryUpdate>)
    requires WellFormed(doc)
    ensures PartialInventory(Some(doc), updates).PartialDone?
    ensures PartialInventory(Some(doc), updates).payload.Some?
  {
    var cs := ChangedCategories(updates);
    forall j | 0 <= j < |cs| ensures cs[j] in doc.categories {
      assert cs[j] in cs;
      ValidCategoryIff(cs[j]);
    }
  }

  /** `update.startingInventory - Object.keys(update.seatsOrdered).length <= 0` */
  predicate UpdateSoldOut(u: PartialInventoryUpdate)
  {
    u.startingInventory - |u.seatsOrdered.Keys| <= 0
  }

  /** `update.seatsOrdered[seatId]` is truthy. */
  predicate UpdateHeldBy(u: PartialInventoryUpdate, seat: string)
  {
    seat in u.seatsOrdered && Truthy(u.seatsOrdered[seat])
  }

  /** The name `removeEconomyMeal` is dispatched with for one meal of a changed category, if any. */
  function EvictionFor(mealId: string, updates: seq<PartialInventoryUpdate>, cart: seq<CartMeal>, seat: string): Option<string>
  {
    match FindUpdate(updates, mealId)
    case None => None
    case Some(k) =>
      if UpdateSoldOut(updates[k]) && !UpdateHeldBy(updates[k], seat) then
        match FirstWith(cart, ByMealId, mealId)
        case Some(j) => Some(cart[j].name)
        case None => None
      else None
  }

  /**
   * The eviction rule: a cart item is dispatched for removal, by its name,
   * exactly when the first update for its meal leaves no unit
   * (`startingInventory` minus the key count is at most 0) and does not
   * show this seat with a truthy marker.
   */
  lemma EvictionRule(mealId: string, updates: seq<PartialInventoryUpdate>, cart: seq<CartMeal>, seat: string)
    ensures EvictionFor(mealId, updates, cart, seat).Some? <==>
      && FindUpdate(updates, mealId).Some?
      && UpdateSoldOut(updates[FindUpdate(updates, mealId).value])
      && !UpdateHeldBy(updates[FindUpdate(updates, mealId).value], seat)
      && exists j :: 0 <= j < |cart| && cart[j].mealId == mealId
    ensures EvictionFor(mealId, updates, cart, seat).Some? ==>
      EvictionFor(mealId, updates, cart, seat).value == cart[FirstWith(cart, ByMealId, mealId).value].name
  {
  }

  /** The removals for one category, in meal order. */
  function EvictionsIn(meals: seq<MealEntry>, updates: seq<PartialInventoryUpdate>, cart: seq<CartMeal>, seat: string): seq<string>
    decreases |meals|
  {
    if meals == [] then []
    else
      var n := |meals| - 1;
      EvictionsIn(meals[..n], updates, cart, seat) +
        (match EvictionFor(meals[n].mealId, updates, cart, seat) case Some(name) => [name] case None => [])
  }

  /** The removals across the given categories, in order. */
  function EvictionsAcross(cs: seq<string>, doc: Doc, updates: seq<PartialInventoryUpdate>, cart: seq<CartMeal>, seat: string): seq<string>
    decreases |cs|
  {
    if cs == [] then []
    else
      var n := |cs| - 1;
      EvictionsAcross(cs[..n], doc, updates, cart, seat) +
        (if cs[n] in doc.categories then EvictionsIn(doc.categories[cs[n]], updates, cart, seat) else [])
  }

  /**
   * Every removal `updatePartialInventory` dispatches, in dispatch order:
   * those of the changed categories merged before the first missing one,
   * whose `.map` throws.
   */
  function Evictions(doc: Doc, updates: seq<PartialInventoryUpdate>, cart: seq<CartMeal>, seat: string): seq<string>
  {
    var cs := ChangedCategories(updates);
    match MissingChanged(doc, updates)
    case Some(k) => EvictionsAcross(cs[..k], doc, updates, cart, seat)
    case None => EvictionsAcross(cs, doc, updates, cart, seat)
  }

  lemma {:induction false} EvictionsInSound(meals: seq<MealEntry>, updates: seq<PartialInventoryUpdate>, cart: seq<CartMeal>, seat: string, name: string)
    requires name in EvictionsIn(meals, updates, cart, seat)
    ensures exists i :: 0 <= i < |meals| && EvictionFor(meals[i].mealId, updates, cart, seat) == Some(name)
    decreases |meals|
  {
    var n := |meals| - 1;
    if name in EvictionsIn(meals[..n], updates, cart, seat) {
      EvictionsInSound(meals[..n], updates, cart, seat, name);
      var i :| 0 <= i < n && EvictionFor(meals[..n][i].mealId, updates, cart, seat) == Some(name);
      assert meals[..n][i] == meals[i];
    } else {
      assert EvictionFor(meals[n].mealId, updates, cart, seat) == Some(name);
    }
  }

  lemma {:induction false} EvictionsInComplete(meals: seq<MealEntry>, updates: seq<PartialInventoryUpdate>, cart: seq<CartMeal>, seat: string, i: nat)
    requires i < |meals| && EvictionFor(meals[i].mealId, updates, cart, seat).Some?
    ensures EvictionFor(meals[i].mealId, updates, cart, seat).value in EvictionsIn(meals, updates, cart, seat)
    decreases |meals|
  {
    var n := |meals| - 1;
    var name := EvictionFor(meals[i].mealId, updates, cart, seat).value;
    var last := match EvictionFor(meals[n].mealId, updates, cart, seat) case Some(m) => [m] case None => [];
    assert EvictionsIn(meals, updates, cart, seat) == EvictionsIn(meals[..n], updates, cart, seat) + last;
    if i < n {
      assert meals[..n][i] == meals[i];
      EvictionsInComplete(meals[..n], updates, cart, seat, i);
    } else {
      assert last == [name];
    }
  }

  /**
   * Soundness of eviction: every dispatched name belongs to a meal of a
   * changed category whose first update makes it sold out without this
   * seat holding it, and it is the name of the first cart item with that meal.
   */
  lemma {:induction false} EvictionsSound(cs: seq<string>, doc: Doc, updates: seq<PartialInventoryUpdate>, cart: seq<CartMeal>, seat: string, name: string)
    requires name in EvictionsAcross(cs, doc, updates, cart, seat)
    ensures exists c, i :: (c in cs && c in doc.categories && 0 <= i < |doc.categories[c]| &&
      EvictionFor(doc.categories[c][i].mealId, updates, cart, seat) == Some(name))
    decreases |cs|
  {
    var n := |cs| - 1;
    if name in EvictionsAcross(cs[..n], doc, updates, cart, seat) {
      EvictionsSound(cs[..n], doc, updates, cart, seat, name);
      var c, i :| c in cs[..n] && c in doc.categories && 0 <= i < |doc.categories[c]| &&
        EvictionFor(doc.categories[c][i].mealId, updates, cart, seat) == Some(name);
      assert c in cs;
    } else {
      EvictionsInSound(doc.categories[cs[n]], updates, cart, seat, name);
      var i :| 0 <= i < |doc.categories[cs[n]]| &&
        EvictionFor(doc.categories[cs[n]][i].mealId, updates, cart, seat) == Some(name);
      assert cs[n] in cs;
    }
  }

  /**
   * Completeness of eviction: a meal of a changed category that the rule
   * selects always has its cart item's name dispatched.
   */
  lemma {:induction false} EvictionsComplete(cs: seq<string>, doc: Doc, updates: seq<PartialInventoryUpdate>, cart: seq<CartMeal>, seat: string, c: string, i: nat)
    requires c in cs && c in doc.categories && i < |doc.categories[c]|
    requires EvictionFor(doc.categories[c][i].mealId, updates, cart, seat).Some?
    ensures EvictionFor(doc.categories[c][i].mealId, updates, cart, seat).value in EvictionsAcross(cs, doc, updates, cart, seat)
    decreases |cs|
  {
    var n := |cs| - 1;
    var last := if cs[n] in doc.categories then EvictionsIn(doc.categories[cs[n]], updates, cart, seat) else [];
    assert EvictionsAcross(cs, doc, updates, cart, seat) == EvictionsAcross(cs[..n], doc, updates, cart, seat) + last;
    var name := EvictionFor(doc.categories[c][i].mealId, updates, cart, seat).value;
    if cs[n] == c {
      EvictionsInComplete(doc.categories[c], updates, cart, seat, i);
      assert name in last;
    } else {
      assert c in cs[..n];
      EvictionsComplete(cs[..n], doc, updates, cart, seat, c, i);
      assert name in EvictionsAcross(cs[..n], doc, updates, cart, seat);
    }
  }

  /** A meal this seat holds in the update is never evicted from its cart, whatever the count. */
  lemma HeldMealNeverEvicted(mealId: string, updates: seq<PartialInventoryUpdate>, cart: seq<CartMeal>, seat: string)
    requires FindUpdate(updates, mealId).Some? && UpdateHeldBy(updates[FindUpdate(updates, mealId).value], seat)
    ensures EvictionFor(mealId, updates, cart, seat) == None
  {
  }

  /**
   * What the thunk dispatches: every selected meal of a changed category
   * merged before the merge throws, and, when it does not throw, of every
   * changed category; the rest is never dispatched.
   */
  lemma EvictionsDispatched(doc: Doc, updates: seq<PartialInventoryUpdate>, cart: seq<CartMeal>, seat: string, j: nat, i: nat)
    requires j < |ChangedCategories(updates)| && ChangedCategories(updates)[j] in doc.categories
    requires MissingChanged(doc, updates).Some? ==> j < MissingChanged(doc, updates).value
    requires i < |doc.categories[ChangedCategories(updates)[j]]|
    requires EvictionFor(doc.categories[ChangedCategories(updates)[j]][i].mealId, updates, cart, seat).Some?
    ensures EvictionFor(doc.categories[ChangedCategories(updates)[j]][i].mealId, updates, cart, seat).value
              in Evictions(doc, updates, cart, seat)
  {
    var cs := ChangedCategories(updates);
    match MissingChanged(doc, updates)
    case Some(k) =>
      assert cs[..k][j] == cs[j];
      EvictionsComplete(cs[..k], doc, updates, cart, seat, cs[j], i);
    case None =>
      EvictionsComplete(cs, doc, updates, cart, seat, cs[j], i);
  }

  /** A dispatched removal is the name of a selected meal of a changed category merged before any throw. */
  lemma EvictionsOnlyBeforeThrow(doc: Doc, updates: seq<PartialInventoryUpdate>, cart: seq<CartMeal>, seat: string, name: string)
    requires name in Evictions(doc, updates, cart, seat)
    ensures exists j, i :: (0 <= j < |ChangedCategories(updates)| && ChangedCategories(updates)[j] in doc.categories
      && (MissingChanged(doc, updates).Some? ==> j < MissingChanged(doc, updates).value)
      && 0 <= i < |doc.categories[ChangedCategories(updates)[j]]|
      && EvictionFor(doc.categories[ChangedCategories(updates)[j]][i].mealId, updates, cart, seat) == Some(name))
  {
    var cs := ChangedCategories(updates);
    var pre := if MissingChanged(doc, updates).Some? then cs[..MissingChanged(doc, updates).value] else cs;
    EvictionsSound(pre, doc, updates, cart, seat, name);
    var c, i :| c in pre && c in doc.categories && 0 <= i < |doc.categories[c]| &&
      EvictionFor(doc.categories[c][i].mealId, updates, cart, seat) == Some(name);
    var j :| 0 <= j < |pre| && pre[j] == c;
    assert cs[j] == c;
  }

  // ---------------------------------------------------------------------------
  // The slice
  // ---------------------------------------------------------------------------

  const FetchFailedMessage: string := "Failed to fetch economy inventory"
  const UpdateFailedMessage: string := "Failed to update economy inventory"

  class EconomyInventorySlice {
    var data: Option<Doc>
    var status: Status
    var error: Option<string>
    var outOfStockItems: seq<OutOfStockItem>

    constructor ()
      ensures data == None && status == Idle && error == None && outOfStockItems == []
    {
      data, status, error, outOfStockItems := None, Idle, None, [];
    }

    /** `clearOutOfStockItems`: empty the list and clear the error. */
    method ClearOutOfStockItems()
      modifies this
      ensures outOfStockItems == [] && error == None
      ensures data == old(data) && status == old(status)
    {
      outOfStockItems, error := [], None;
    }

    /** `fetchEconomyInventory.pending` and `updateEconomyInventory.pending`. */
    method Pending()
      modifies this
      ensures status == Loading && error == None
      ensures data == old(data) && outOfStockItems == old(outOfStockItems)
    {
      status, error := Loading, None;
    }

    /** `fetchEconomyInventory.fulfilled` and `updateEconomyInventory.fulfilled`. */
    method Fulfilled(doc: Doc)
      modifies this
      ensures status == Succeeded && data == Some(doc) && error == None
      ensures outOfStockItems == old(outOfStockItems)
    {
      status, data, error := Succeeded, Some(doc), None;
    }

    /** `fetchEconomyInventory.rejected` */
    method FetchRejected(errorMessage: Option<string>)
      modifies this
      ensures status == Failed
      ensures error == Some(if errorMessage.Some? then errorMessage.value else FetchFailedMessage)
      ensures data == old(data) && outOfStockItems == old(outOfStockItems)
    {
      status := Failed;
      error := Some(if errorMessage.Some? then errorMessage.value else FetchFailedMessage);
    }

    /**
     * `updateEconomyInventory.rejected`: an object payload supplies the
     * message and the list; anything else leaves the generic message (or
     * the action's error message) and an empty list.
     */
    method UpdateRejected(payload: Option<RejectValue>, errorMessage: Option<string>)
      modifies this
      ensures status == Failed && data == old(data)
      ensures payload.Some? && payload.value.OutOfStockReject? ==>
        error == Some(payload.value.message) && outOfStockItems == payload.value.items
      ensures !(payload.Some? && payload.value.OutOfStockReject?) ==>
        error == Some(if errorMessage.Some? then errorMessage.value else UpdateFailedMessage) &&
        outOfStockItems == []
    {
      status := Failed;
      if payload.Some? && payload.value.OutOfStockReject? {
        error := Some(payload.value.message);
        outOfStockItems := payload.value.items;
      } else {
        error := Some(if errorMessage.Some? then errorMessage.value else UpdateFailedMessage);
        outOfStockItems := [];
      }
    }

    /**
     * The reducer that runs when `updateEconomyInventory` settles with `o`.
     * A string passed to `rejectWithValue` is not an object, so the reducer
     * falls back to the action's error message, which is `"Rejected"`.
     */
    method SettleUpdate(o: Outcome)
      modifies this
      ensures o.Fulfilled? ==> status == Succeeded && data == Some(o.doc) && error == None
      ensures o.Fulfilled? ==> outOfStockItems == old(outOfStockItems)
      ensures !o.Fulfilled? ==> status == Failed && data == old(data)
      ensures o.RejectedWithValue? && o.value.OutOfStockReject? ==>
        error == Some(o.value.message) && outOfStockItems == o.value.items
      ensures o.RejectedWithValue? && o.value.MessageReject? ==>
        error == Some(RejectedActionMessage) && outOfStockItems == []
      ensures o.Rejected? ==> error == Some(o.message) && outOfStockItems == []
    {
      match o
      case Fulfilled(doc) => Fulfilled(doc);
      case RejectedWithValue(v) => UpdateRejected(Some(v), ActionErrorMessage(o));
      case Rejected(_) => UpdateRejected(None, ActionErrorMessage(o));
    }

    /** `updatePartialInventory.fulfilled`: a non-null payload replaces `data`. */
    method PartialFulfilled(payload: Option<Doc>)
      modifies this
      ensures data == if payload.Some? then payload else old(data)
      ensures status == old(status) && error == old(error) && outOfStockItems == old(outOfStockItems)
    {
      if payload.Some? {
        data := payload;
      }
    }
  }

  /** The `removeEconomyMeal` dispatches, in order. */
  method DispatchRemovals(cart: EconomyMealSlice, names: seq<string>)
    modifies cart
    ensures cart.items == RemovedMeals(old(cart.items), names)
    ensures old(cart.Valid()) ==> cart.Valid()
    ensures cart.data == old(cart.data) && cart.status == old(cart.status) && cart.error == old(cart.error)
  {
    for k := 0 to |names|
      invariant cart.items == RemovedMeals(old(cart.items), names[..k])
      invariant old(cart.Valid()) ==> cart.Valid()
      invariant cart.data == old(cart.data) && cart.status == old(cart.status) && cart.error == old(cart.error)
    {
      assert names[..k + 1][..k] == names[..k];
      cart.RemoveMeal(names[k]);
    }
    assert names[..|names|] == names;
  }

  /**
   * `updatePartialInventory` with its dispatches: the removals go to the
   * economy cart in order, computed against the cart as it was when the
   * thunk read the state; then the fulfilled reducer stores the result.
   * When the merge throws, the removals already dispatched stay, and as the
   * slice has no reducer for the rejection, `data` is left as it was.
   */
  method UpdatePartialInventory(slice: EconomyInventorySlice, cart: EconomyMealSlice,
                                updates: seq<PartialInventoryUpdate>, seatId: string)
    returns (result: PartialOutcome)
    modifies slice, cart
    ensures result == PartialInventory(old(slice.data), updates)
    ensures old(slice.data).None? ==> cart.items == old(cart.items)
    ensures old(slice.data).Some? ==>
      cart.items == RemovedMeals(old(cart.items), Evictions(old(slice.data).value, updates, old(cart.items), seatId))
    ensures old(cart.Valid()) ==> cart.Valid()
    ensures slice.data == if result.PartialDone? && result.payload.Some? then result.payload else old(slice.data)
    ensures slice.status == old(slice.status) && slice.error == old(slice.error)
    ensures slice.outOfStockItems == old(slice.outOfStockItems)
    ensures cart.data == old(cart.data) && cart.status == old(cart.status) && cart.error == old(cart.error)
  {
    if slice.data.None? {
      result := PartialDone(None);
      return;
    }
    var currentInventory := slice.data.value;
    var cartItems := cart.items;
    var removals := Evictions(currentInventory, updates, cartItems, seatId);
    DispatchRemovals(cart, removals);
    result := PartialInventory(slice.data, updates);
    if result.PartialDone? {
      slice.PartialFulfilled(result.payload);
    }
  }
}
