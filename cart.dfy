/**
 * The passenger's cart as both meal slices keep it (`items: CartMeal[]` in
 * src/store/economyMealSlice.ts and src/store/businessMealSlice.ts), the
 * reducers' effect on it as functions, and the invariant "at most one meal
 * per category" that `addMeal` maintains.
 */
module Cart {
  import opened Common

  datatype CartMeal = CartMeal(name: string, category: string, mealId: string)

  /** A menu entry of the meal document (`MealItem`). */
  datatype MenuItem = MenuItem(mealId: string, meal: string, description: string, assetId: string)

  /** The meal document a slice caches in `data` (`BusinessMealDoc`). */
  datatype MealDoc = MealDoc(rev: string, categories: map<string, seq<MenuItem>>)

  /**
   * The first cart item whose `key` equals `value`, as a position: the
   * searches `items.findIndex(item => item.category === category)` in
   * `addMeal`, `items.findIndex(item => item.name === name)` in
   * `removeMeal`, and `cartItems.find(item => item.mealId === mealKey)` in
   * `updatePartialInventory`, with `key` the field each compares.
   */
  function FirstWith(items: seq<CartMeal>, key: CartMeal -> string, value: string): (r: Option<nat>)
    ensures r.Some? ==> r.value < |items| && key(items[r.value]) == value
    ensures r.Some? ==> forall j :: 0 <= j < r.value ==> key(items[j]) != value
    ensures r.None? <==> forall j :: 0 <= j < |items| ==> key(items[j]) != value
  {
    FindIndex(items, (x: CartMeal) => key(x) == value)
  }

  /** The fields the searches compare. */
  const ByCategory: CartMeal -> string := (x: CartMeal) => x.category
  const ByName: CartMeal -> string := (x: CartMeal) => x.name
  const ByMealId: CartMeal -> string := (x: CartMeal) => x.mealId

  /** `items.some(cartItem => cartItem.name === name)`: the meal shows as selected. */
  predicate HasName(items: seq<CartMeal>, name: string)
  {
    exists i :: 0 <= i < |items| && items[i].name == name
  }

  /** The cart after `addMeal(meal)`: drop the first same-category item, then push. */
  function AddedMeal(items: seq<CartMeal>, meal: CartMeal): seq<CartMeal>
  {
    var kept := match FirstWith(items, ByCategory, meal.category)
                case Some(i) => RemoveAt(items, i)
                case None => items;
    kept + [meal]
  }

  /** The cart after `removeMeal(name)`: drop the first item with that name, if any. */
  function RemovedMeal(items: seq<CartMeal>, name: string): seq<CartMeal>
  {
    match FirstWith(items, ByName, name)
    case Some(i) => RemoveAt(items, i)
    case None => items
  }

  /** The cart after a sequence of `removeMeal` dispatches, in order. */
  function RemovedMeals(items: seq<CartMeal>, names: seq<string>): seq<CartMeal>
    decreases |names|
  {
    if names == [] then items
    else RemovedMeal(RemovedMeals(items, names[..|names| - 1]), names[|names| - 1])
  }

  /** No two items of the cart share a category. */
  predicate AtMostOnePerCategory(items: seq<CartMeal>)
  {
    forall i, j :: 0 <= i < j < |items| ==> items[i].category != items[j].category
  }

  /** The items of the cart whose category is not `category`, in cart order. */
  function Without(items: seq<CartMeal>, category: string): (r: seq<CartMeal>)
    ensures |r| <= |items|
  {
    if items == [] then []
    else (if items[0].category == category then [] else [items[0]]) + Without(items[1..], category)
  }

  lemma {:induction false} WithoutAppend(a: seq<CartMeal>, b: seq<CartMeal>, category: string)
    ensures Without(a + b, category) == Without(a, category) + Without(b, category)
  {
    if a == [] {
      assert a + b == b;
    } else {
      assert (a + b)[0] == a[0];
      assert (a + b)[1..] == a[1..] + b;
      WithoutAppend(a[1..], b, category);
    }
  }

  /** Removing an item of the given category does not change `Without`. */
  lemma {:induction false} WithoutRemoveAt(items: seq<CartMeal>, i: nat, category: string)
    requires i < |items| && items[i].category == category
    ensures Without(RemoveAt(items, i), category) == Without(items, category)
  {
    assert items == items[..i] + [items[i]] + items[i + 1..];
    WithoutAppend(items[..i] + [items[i]], items[i + 1..], category);
    WithoutAppend(items[..i], [items[i]], category);
    WithoutAppend(items[..i], items[i + 1..], category);
  }

  /** A cart with no item of the category is its own `Without`. */
  lemma {:induction false} WithoutAbsent(items: seq<CartMeal>, category: string)
    requires forall j :: 0 <= j < |items| ==> items[j].category != category
    ensures Without(items, category) == items
  {
    if items != [] {
      WithoutAbsent(items[1..], category);
    }
  }

  /** After `addMeal(meal)` the new meal is the last item of the cart. */
  lemma AddedMealLast(items: seq<CartMeal>, meal: CartMeal)
    ensures |AddedMeal(items, meal)| > 0
    ensures AddedMeal(items, meal)[|AddedMeal(items, meal)| - 1] == meal
  {
  }

  /**
   * `addMeal` keeps the length when the category was already in the cart and
   * grows it by one otherwise.
   */
  lemma AddedMealLength(items: seq<CartMeal>, meal: CartMeal)
    ensures |AddedMeal(items, meal)| ==
      if exists j :: 0 <= j < |items| && items[j].category == meal.category then |items| else |items| + 1
  {
  }

  /** Items of every other category keep their relative order. */
  lemma {:induction false} AddedMealKeepsOthers(items: seq<CartMeal>, meal: CartMeal)
    ensures Without(AddedMeal(items, meal), meal.category) == Without(items, meal.category)
  {
    var found := FirstWith(items, ByCategory, meal.category);
    var kept := if found.Some? then RemoveAt(items, found.value) else items;
    if found.Some? {
      WithoutRemoveAt(items, found.value, meal.category);
    }
    WithoutAppend(kept, [meal], meal.category);
  }

  /**
   * On a cart with at most one item per category, `addMeal` replaces the
   * item of the meal's category (if any) by the meal, moved to the end,
   * and the invariant still holds afterwards.
   */
  lemma {:induction false} AddedMealReplaces(items: seq<CartMeal>, meal: CartMeal)
    requires AtMostOnePerCategory(items)
    ensures AddedMeal(items, meal) == Without(items, meal.category) + [meal]
    ensures AtMostOnePerCategory(AddedMeal(items, meal))
  {
    match FirstWith(items, ByCategory, meal.category)
    case Some(i) =>
      var kept := RemoveAt(items, i);
      WithoutRemoveAt(items, i, meal.category);
      assert forall j :: 0 <= j < |kept| ==> kept[j].category != meal.category by {
        forall j | 0 <= j < |kept|
          ensures kept[j].category != meal.category
        {
          if j < i { assert kept[j] == items[j]; } else { assert kept[j] == items[j + 1]; }
        }
      }
      assert AtMostOnePerCategory(kept) by {
        forall a, b | 0 <= a < b < |kept|
          ensures kept[a].category != kept[b].category
        {
          var a' := if a < i then a else a + 1;
          var b' := if b < i then b else b + 1;
          assert kept[a] == items[a'] && kept[b] == items[b'];
        }
      }
      WithoutAbsent(kept, meal.category);
    case None =>
      WithoutAbsent(items, meal.category);
  }

  /**
   * `removeMeal(name)` deletes exactly the first item with that name and keeps
   * the order of the rest; with no such item it changes nothing.
   */
  lemma RemovedMealFirstOnly(items: seq<CartMeal>, name: string)
    ensures !HasName(items, name) ==> RemovedMeal(items, name) == items
    ensures HasName(items, name) ==>
      && FirstWith(items, ByName, name).Some?
      && RemovedMeal(items, name) == items[..FirstWith(items, ByName, name).value] + items[FirstWith(items, ByName, name).value + 1..]
      && |RemovedMeal(items, name)| == |items| - 1
  {
  }

  /** Removing items never breaks the one-per-category invariant. */
  lemma {:induction false} RemovedMealKeepsUnique(items: seq<CartMeal>, name: string)
    requires AtMostOnePerCategory(items)
    ensures AtMostOnePerCategory(RemovedMeal(items, name))
  {
    match FirstWith(items, ByName, name)
    case None =>
    case Some(i) =>
      var r := RemoveAt(items, i);
      forall a, b | 0 <= a < b < |r|
        ensures r[a].category != r[b].category
      {
        var a' := if a < i then a else a + 1;
        var b' := if b < i then b else b + 1;
        assert r[a] == items[a'] && r[b] == items[b'];
      }
  }

  lemma {:induction false} RemovedMealsKeepUnique(items: seq<CartMeal>, names: seq<string>)
    requires AtMostOnePerCategory(items)
    ensures AtMostOnePerCategory(RemovedMeals(items, names))
    decreases |names|
  {
    if names != [] {
      RemovedMealsKeepUnique(items, names[..|names| - 1]);
      RemovedMealKeepsUnique(RemovedMeals(items, names[..|names| - 1]), names[|names| - 1]);
    }
  }
}
