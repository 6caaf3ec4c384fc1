/**
 * The business cart slice (src/store/businessMealSlice.ts): the reducers that
 * edit `items` in place, and the status reducers of `fetchBusinessMeal`.
 */
module BusinessMeal {
  import opened Common
  import opened Cart

  class BusinessMealSlice {
    var data: Option<MealDoc>
    var status: Status
    var error: Option<string>
    var items: seq<CartMeal>

    /** The slice's invariant: one selection per category. */
    predicate Valid()
      reads this
    {
      AtMostOnePerCategory(items)
    }

    constructor ()
      ensures data == None && status == Idle && error == None && items == []
      ensures Valid()
    {
      data, status, error, items := None, Idle, None, [];
    }

    /** `addMeal`: splice out the first item of the same category, then push. */
    method AddMeal(meal: CartMeal)
      modifies this
      ensures items == AddedMeal(old(items), meal)
      ensures old(Valid()) ==> Valid() && items == Without(old(items), meal.category) + [meal]
      ensures data == old(data) && status == old(status) && error == old(error)
    {
      var existing := FirstWith(items, ByCategory, meal.category);
      if existing.Some? {
        items := RemoveAt(items, existing.value);
      }
      items := items + [meal];
      if old(Valid()) {
        AddedMealReplaces(old(items), meal);
      }
    }

    /** `removeMeal`: splice out the first item with that name, if any. */
    method RemoveMeal(name: string)
      modifies this
      ensures items == RemovedMeal(old(items), name)
      ensures old(Valid()) ==> Valid()
      ensures data == old(data) && status == old(status) && error == old(error)
    {
      var existing := FirstWith(items, ByName, name);
      if existing.Some? {
        items := RemoveAt(items, existing.value);
      }
      if old(Valid()) {
        RemovedMealKeepsUnique(old(items), name);
      }
    }

    /** `resetOrder` */
    method ResetOrder()
      modifies this
      ensures items == [] && Valid()
      ensures data == old(data) && status == old(status) && error == old(error)
    {
      items := [];
    }

    /** `setItems`: replace the cart wholesale (no invariant is checked). */
    method SetItems(xs: seq<CartMeal>)
      modifies this
      ensures items == xs
      ensures data == old(data) && status == old(status) && error == old(error)
    {
      items := xs;
    }

    /** `fetchBusinessMeal.pending` */
    method FetchPending()
      modifies this
      ensures status == Loading && error == None
      ensures data == old(data) && items == old(items)
    {
      status, error := Loading, None;
    }

    /** `fetchBusinessMeal.fulfilled` */
    method FetchFulfilled(doc: MealDoc)
      modifies this
      ensures status == Succeeded && data == Some(doc) && error == None
      ensures items == old(items)
    {
      status, data, error := Succeeded, Some(doc), None;
    }

    /** `fetchBusinessMeal.rejected`: `action.error.message ?? "Something went wrong"`. */
    method FetchRejected(errorMessage: Option<string>)
      modifies this
      ensures status == Failed
      ensures error == Some(if errorMessage.Some? then errorMessage.value else "Something went wrong")
      ensures data == old(data) && items == old(items)
    {
      status := Failed;
      error := Some(if errorMessage.Some? then errorMessage.value else "Something went wrong");
    }
  }
}
