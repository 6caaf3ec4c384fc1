/**
 * The meal page component of src/components/MealPage.tsx: the availability
 * it shows on each meal card and the guard on a card click that decides
 * whether the click selects the meal, deselects it, or does nothing.  The
 * component serves either cabin class, reading the economy or the business
 * slices by the route's `seatClass`; the click's action goes to that
 * class's cart.  App.tsx never mounts it (every class gets
 * businessMealPage.tsx), and the "cbmd:seatId" key it reads its seat id
 * from is cleared at load, so what is modelled here is latent.  The seat
 * id is a parameter.
 */
module MealPage {
  import opened Common
  import opened Inventory
  import opened Cart
  import opened EconomyInventory

  /** What `calculateAvailability` returns for one card. */
  datatype Availability = Availability(totalAvailable: int, isOutOfStock: bool)

  /** `inventory[categoryName]?.find(...)?.[mealId]`: the meal's inventory entry, if any. */
  function MatchedInventory(inventory: Doc, category: string, mealId: string): (r: Option<MealEntry>)
    ensures r.Some? <==> category in inventory.categories && FindMeal(inventory.categories[category], mealId).Some?
    ensures r.Some? ==> r.value == inventory.categories[category][FindMeal(inventory.categories[category], mealId).value]
  {
    if category in inventory.categories then
      match FindMeal(inventory.categories[category], mealId)
      case Some(i) => Some(inventory.categories[category][i])
      case None => None
    else None
  }

  /** A marker counts as an active order unless it is `null` or `undefined`. */
  predicate Active(m: Marker)
  {
    !m.Null? && !m.Undefined?
  }

  /** The seats holding an active order for the meal. */
  function ActiveSeats(e: MealEntry): set<string>
  {
    set s | s in Seats(e) && Active(Seats(e)[s])
  }

  /** `orderedCount`: the entries of `seatsOrdered` whose value is neither `null` nor `undefined`. */
  function ActiveCount(e: MealEntry): nat
  {
    |ActiveSeats(e)|
  }

  /**
   * `calculateAvailability`: a meal the inventory lacks is out of stock; a
   * meal is out of stock when its active orders reach its starting
   * inventory and this seat holds no truthy order of its own; otherwise the
   * count shown is what is left, floored at zero.
   */
  function CalculateAvailability(category: string, mealId: string, inventory: Doc, seatId: string): (a: Availability)
    ensures a.totalAvailable >= 0
    ensures a.isOutOfStock ==> a.totalAvailable == 0
  {
    match MatchedInventory(inventory, category, mealId)
    case None => Availability(0, true)
    case Some(e) =>
      var totalAvailable := e.startingInventory - ActiveCount(e);
      var isOutOfStock := totalAvailable <= 0 && !HoldsTruthy(e, seatId);
      Availability(if isOutOfStock then 0 else if totalAvailable > 0 then totalAvailable else 0, isOutOfStock)
  }

  /** A card for a meal the inventory lacks shows out of stock. */
  lemma UnknownMealOutOfStock(category: string, mealId: string, inventory: Doc, seatId: string)
    requires MatchedInventory(inventory, category, mealId).None?
    ensures CalculateAvailability(category, mealId, inventory, seatId) == Availability(0, true)
  {
  }

  /**
   * For a known meal: out of stock exactly when its active orders reach
   * its starting inventory and this seat holds no truthy order; otherwise
   * the count shown is the free units, floored at zero.
   */
  lemma AvailabilityOfKnownMeal(category: string, mealId: string, inventory: Doc, seatId: string)
    requires MatchedInventory(inventory, category, mealId).Some?
    ensures var e := MatchedInventory(inventory, category, mealId).value;
      var a := CalculateAvailability(category, mealId, inventory, seatId);
      && (a.isOutOfStock <==> e.startingInventory <= ActiveCount(e) && !HoldsTruthy(e, seatId))
      && (!a.isOutOfStock ==> a.totalAvailable == if e.startingInventory > ActiveCount(e) then e.startingInventory - ActiveCount(e) else 0)
  {
  }

  /** A meal this seat holds a truthy order for is never shown out of stock. */
  lemma OwnOrderNeverOutOfStock(category: string, mealId: string, inventory: Doc, seatId: string)
    requires MatchedInventory(inventory, category, mealId).Some?
    requires HoldsTruthy(MatchedInventory(inventory, category, mealId).value, seatId)
    ensures !CalculateAvailability(category, mealId, inventory, seatId).isOutOfStock
  {
  }

  /** Only keys of `seatsOrdered` can hold an active order, so the page never counts more than the keys. */
  lemma ActiveCountAtMostKeys(e: MealEntry)
    ensures ActiveCount(e) <= OrderedKeys(e)
  {
    SubsetCardinality(ActiveSeats(e), Seats(e).Keys);
  }

  /**
   * The component is never stricter than the stock check of the economy update:
   * a meal that check does not find sold out is shown in stock.
   */
  lemma InStockWhenNotSoldOut(category: string, mealId: string, inventory: Doc, seatId: string)
    requires MatchedInventory(inventory, category, mealId).Some?
    requires !SoldOut(MatchedInventory(inventory, category, mealId).value)
    ensures !CalculateAvailability(category, mealId, inventory, seatId).isOutOfStock
    ensures CalculateAvailability(category, mealId, inventory, seatId).totalAvailable > 0
  {
    ActiveCountAtMostKeys(MatchedInventory(inventory, category, mealId).value);
  }

  /** What a card click dispatches to the cart of the seat's class. */
  datatype CartAction = NoAction | Remove(name: string) | Add(meal: CartMeal)

  /**
   * `handleCardClick`: a click does nothing on a card with no units left
   * that is not selected, or while a confirmed order is not being edited;
   * otherwise it deselects a selected meal and selects any other.
   */
  function HandleCardClick(mealName: string, categoryName: string, mealId: string, inventoryCount: int,
                           isSelected: bool, isOrderConfirmed: bool, isEditing: bool): (r: CartAction)
    ensures r.NoAction? <==> (inventoryCount <= 0 && !isSelected) || (isOrderConfirmed && !isEditing)
    ensures r.Remove? ==> isSelected && r.name == mealName
    ensures r.Add? ==> !isSelected && r.meal == CartMeal(mealName, categoryName, mealId)
  {
    if (inventoryCount <= 0 && !isSelected) || (isOrderConfirmed && !isEditing) then NoAction
    else if isSelected then Remove(mealName)
    else Add(CartMeal(mealName, categoryName, mealId))
  }

  /** The cart after the click's dispatch. */
  function ApplyCartAction(items: seq<CartMeal>, a: CartAction): seq<CartMeal>
  {
    match a
    case NoAction => items
    case Remove(name) => RemovedMeal(items, name)
    case Add(meal) => AddedMeal(items, meal)
  }

  /** Whatever a click dispatches, the cart keeps at most one meal per category. */
  lemma ClickKeepsOnePerCategory(items: seq<CartMeal>, a: CartAction)
    requires AtMostOnePerCategory(items)
    ensures AtMostOnePerCategory(ApplyCartAction(items, a))
  {
    match a
    case NoAction =>
    case Remove(name) => RemovedMealKeepsUnique(items, name);
    case Add(meal) => AddedMealReplaces(items, meal);
  }

  /** A card shown out of stock and not selected ignores clicks. */
  lemma OutOfStockCardIgnoresClick(mealName: string, category: string, mealId: string, inventory: Doc, seatId: string,
                                   isOrderConfirmed: bool, isEditing: bool)
    requires CalculateAvailability(category, mealId, inventory, seatId).isOutOfStock
    ensures HandleCardClick(mealName, category, mealId, CalculateAvailability(category, mealId, inventory, seatId).totalAvailable,
                            false, isOrderConfirmed, isEditing) == NoAction
  {
  }

  /**
   * As written, the click guard reads the floored count instead of
   * `isOutOfStock`: a meal this seat itself holds at full capacity is shown
   * in stock, yet clicking it while it is not in the cart does nothing,
   * whether the order is new or a confirmed one being edited.
   */
  lemma OwnHeldMealAtCapacityIgnoresClick(mealName: string, category: string, mealId: string, inventory: Doc, seatId: string,
                                          isOrderConfirmed: bool, isEditing: bool)
    requires MatchedInventory(inventory, category, mealId).Some?
    requires var e := MatchedInventory(inventory, category, mealId).value;
      HoldsTruthy(e, seatId) && e.startingInventory <= ActiveCount(e)
    requires !(isOrderConfirmed && !isEditing)
    ensures !CalculateAvailability(category, mealId, inventory, seatId).isOutOfStock
    ensures HandleCardClick(mealName, category, mealId, CalculateAvailability(category, mealId, inventory, seatId).totalAvailable,
                            false, isOrderConfirmed, isEditing) == NoAction
  {
  }

  /** The guard the page's availability rule calls for: only a card shown out of stock refuses a selection. */
  function HandleCardClickIntended(mealName: string, categoryName: string, mealId: string, availability: Availability,
                                   isSelected: bool, isOrderConfirmed: bool, isEditing: bool): (r: CartAction)
    ensures r.Remove? ==> isSelected && r.name == mealName
    ensures r.Add? ==> !isSelected && r.meal == CartMeal(mealName, categoryName, mealId)
  {
    if (availability.isOutOfStock && !isSelected) || (isOrderConfirmed && !isEditing) then NoAction
    else if isSelected then Remove(mealName)
    else Add(CartMeal(mealName, categoryName, mealId))
  }

  /**
   * With the intended guard, an unlocked card responds to a click exactly
   * when it is shown in stock or selected; in particular the seat can always
   * select a meal it holds.
   */
  lemma IntendedClickMatchesDisplay(mealName: string, category: string, mealId: string, inventory: Doc, seatId: string,
                                    isSelected: bool)
    ensures var a := CalculateAvailability(category, mealId, inventory, seatId);
      HandleCardClickIntended(mealName, category, mealId, a, isSelected, false, false).NoAction? <==>
        a.isOutOfStock && !isSelected
    ensures MatchedInventory(inventory, category, mealId).Some? &&
            HoldsTruthy(MatchedInventory(inventory, category, mealId).value, seatId) ==>
      HandleCardClickIntended(mealName, category, mealId, CalculateAvailability(category, mealId, inventory, seatId),
                              false, false, false) == Add(CartMeal(mealName, category, mealId))
  {
  }

  /** Where the two guards differ, the written one refuses a selection the intended one allows. */
  lemma GuardsDifferOnlyByRefusing(mealName: string, category: string, mealId: string, inventory: Doc, seatId: string,
                                   isSelected: bool, isOrderConfirmed: bool, isEditing: bool)
    ensures var a := CalculateAvailability(category, mealId, inventory, seatId);
      var written := HandleCardClick(mealName, category, mealId, a.totalAvailable, isSelected, isOrderConfirmed, isEditing);
      var intended := HandleCardClickIntended(mealName, category, mealId, a, isSelected, isOrderConfirmed, isEditing);
      written != intended ==> written.NoAction? && intended == Add(CartMeal(mealName, category, mealId))
  {
  }
}
