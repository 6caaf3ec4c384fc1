/**
 * The meal page component of src/components/businessMealPage.tsx: the
 * availability it computes inline for each meal card.  App.tsx mounts this
 * component for every cabin class (it reads the economy or the business
 * slices by the route's `seatClass`), so its count is the one every seat
 * sees.  It differs from MealPage.tsx in three ways: a missing meal counts
 * as an empty entry with no units, every key of `seatsOrdered` except this
 * seat's counts as taken whatever its marker, and a selected meal is never
 * out of stock.  A found
 * meal without `seatsOrdered` makes `Object.keys` throw, so the card cannot
 * be rendered: that is the `None` result.  The click handler is the same as
 * MealPage.tsx's, `MealPage.HandleCardClick`.
 */
module BusinessMealPage {
  import opened Common
  import opened Inventory
  import opened MealPage

  /** `Object.keys(seatsOrdered).filter(id => id !== seatId)`: every other seat's key. */
  function OtherSeats(e: MealEntry, seatId: string): set<string>
  {
    Seats(e).Keys - {seatId}
  }

  /**
   * The availability of one card: `totalAvailable` is not floored,
   * and the card is out of stock when nothing is left and it is not
   * selected.
   */
  function BusinessAvailability(inventory: Doc, category: string, mealId: string, seatId: string, isSelected: bool)
    : (r: Option<Availability>)
    ensures r.Some? && isSelected ==> !r.value.isOutOfStock
    ensures r.Some? ==> (r.value.isOutOfStock <==> r.value.totalAvailable <= 0 && !isSelected)
  {
    match MatchedInventory(inventory, category, mealId)
    case None => Some(Availability(0, !isSelected))
    case Some(e) =>
      if e.seatsOrdered.None? then None
      else
        var totalAvailable := e.startingInventory - |OtherSeats(e, seatId)|;
        Some(Availability(totalAvailable, totalAvailable <= 0 && !isSelected))
  }

  /** The card can be rendered unless the meal is found with no `seatsOrdered`; the count is the other seats' keys. */
  lemma BusinessAvailabilityCount(inventory: Doc, category: string, mealId: string, seatId: string, isSelected: bool)
    ensures var m := MatchedInventory(inventory, category, mealId);
      BusinessAvailability(inventory, category, mealId, seatId, isSelected).None? <==> m.Some? && m.value.seatsOrdered.None?
    ensures var m := MatchedInventory(inventory, category, mealId);
      m.Some? && m.value.seatsOrdered.Some? ==>
        BusinessAvailability(inventory, category, mealId, seatId, isSelected).value.totalAvailable ==
          m.value.startingInventory - |Seats(m.value).Keys - {seatId}|
    ensures MatchedInventory(inventory, category, mealId).None? ==>
      BusinessAvailability(inventory, category, mealId, seatId, isSelected) == Some(Availability(0, !isSelected))
  {
  }

  /**
   * In businessMealPage.tsx the card's display and its click agree: an
   * unlocked card ignores a click exactly when it is shown out of stock.
   */
  lemma BusinessClickMatchesDisplay(mealName: string, inventory: Doc, category: string, mealId: string, seatId: string,
                                    isSelected: bool)
    requires BusinessAvailability(inventory, category, mealId, seatId, isSelected).Some?
    ensures var a := BusinessAvailability(inventory, category, mealId, seatId, isSelected).value;
      HandleCardClick(mealName, category, mealId, a.totalAvailable, isSelected, false, false).NoAction? <==> a.isOutOfStock
  {
  }

  /** This seat's own key, whatever its marker, never makes a card out of stock. */
  lemma OwnKeyNotCounted(inventory: Doc, category: string, mealId: string, seatId: string, isSelected: bool)
    requires MatchedInventory(inventory, category, mealId).Some?
    requires MatchedInventory(inventory, category, mealId).value.seatsOrdered.Some?
    ensures var e := MatchedInventory(inventory, category, mealId).value;
      var a := BusinessAvailability(inventory, category, mealId, seatId, isSelected).value;
      seatId in Seats(e) ==> a.totalAvailable == e.startingInventory - (OrderedKeys(e) - 1)
  {
    var e := MatchedInventory(inventory, category, mealId).value;
    if seatId in Seats(e) {
      assert Seats(e).Keys == OtherSeats(e, seatId) + {seatId};
    }
  }

  /**
   * When this seat holds no key and every marker is an active order, the
   * two components agree on whether an unselected card is out of stock.
   */
  lemma PagesAgreeWithoutTombstones(inventory: Doc, category: string, mealId: string, seatId: string)
    requires MatchedInventory(inventory, category, mealId).Some?
    requires var e := MatchedInventory(inventory, category, mealId).value;
      e.seatsOrdered.Some? && seatId !in Seats(e) && forall s :: s in Seats(e) ==> Active(Seats(e)[s])
    ensures BusinessAvailability(inventory, category, mealId, seatId, false).value.isOutOfStock ==
      CalculateAvailability(category, mealId, inventory, seatId).isOutOfStock
  {
    var e := MatchedInventory(inventory, category, mealId).value;
    assert ActiveSeats(e) == OtherSeats(e, seatId);
  }

  /**
   * The pages disagree on a tombstone: when another seat's `null` marker is
   * the only entry of a one-unit meal, MealPage.tsx shows the unit free
   * while businessMealPage.tsx shows the card out of stock.
   */
  lemma PagesDisagreeOnNullMarker(inventory: Doc, category: string, mealId: string, seatId: string, other: string)
    requires MatchedInventory(inventory, category, mealId).Some? && other != seatId
    requires var e := MatchedInventory(inventory, category, mealId).value;
      e.seatsOrdered == Some(map[other := Null]) && e.startingInventory == 1
    ensures !CalculateAvailability(category, mealId, inventory, seatId).isOutOfStock
    ensures BusinessAvailability(inventory, category, mealId, seatId, false).value.isOutOfStock
  {
    var e := MatchedInventory(inventory, category, mealId).value;
    assert ActiveSeats(e) == {};
    assert OtherSeats(e, seatId) == {other};
  }
}
