/**
 * The closed set of meal categories that key the inventory document and the
 * menu (src/constants.ts).
 */
module Constants {
  import opened Common

  /** `MEAL_CATEGORIES`, in declaration order. */
  const MealCategories: seq<string> :=
    ["breakfast", "lunch", "dinner", "dessert", "beverage", "alcohol"]

  /** `isValidCategory`: exact, case-sensitive membership in `MEAL_CATEGORIES`. */
  predicate IsValidCategory(category: string)
  {
    category in MealCategories
  }

  /** The list holds exactly the six names, in order, and no name twice. */
  lemma MealCategoriesExact()
    ensures |MealCategories| == 6
    ensures MealCategories[0] == "breakfast" && MealCategories[1] == "lunch"
    ensures MealCategories[2] == "dinner" && MealCategories[3] == "dessert"
    ensures MealCategories[4] == "beverage" && MealCategories[5] == "alcohol"
    ensures forall i, j :: 0 <= i < j < |MealCategories| ==> MealCategories[i] != MealCategories[j]
  {
  }

  /** Validity is equality with one of the six names, nothing looser. */
  lemma ValidCategoryIff(category: string)
    ensures IsValidCategory(category) <==>
      category == "breakfast" || category == "lunch" || category == "dinner" ||
      category == "dessert" || category == "beverage" || category == "alcohol"
  {
  }

  /**
   * Every valid name is already lower-case, so a name that starts with a
   * capital letter ("Breakfast") is never valid; callers lower-case first.
   */
  lemma {:induction false} CapitalisedCategoryInvalid(category: string)
    requires |category| > 0 && IsUpperAscii(category[0])
    ensures !IsValidCategory(category)
  {
    forall i | 0 <= i < |MealCategories|
      ensures MealCategories[i] != category
    {
      assert !IsUpperAscii(MealCategories[i][0]);
    }
  }

  /** Lower-casing a valid name leaves it unchanged. */
  lemma {:induction false} ValidCategoryIsLowerCase(category: string)
    requires IsValidCategory(category)
    ensures ToLower(category) == category
  {
    assert forall i :: 0 <= i < |category| ==> !IsUpperAscii(category[i]);
    ToLowerOfLower(category);
  }
}
