/**
 * The inventory document shared by every seat of one cabin class
 * (`BusinessInventoryDoc` and `InventoryItem` in src/types/index.d.ts) and the
 * per-meal operations that both inventory slices apply to it.
 *
 * A document maps each category name to an ordered list of meals; each meal
 * is the one-key object `{ mealId: { seatsOrdered, startingInventory } }`,
 * written here as a `MealEntry`.  `seatsOrdered` maps a seat id to a marker;
 * the code treats a marker as a reservation when it is JavaScript-truthy.
 */
module Inventory {
  import opened Common
  import opened Constants

  /** A JSON value stored under a seat id in `seatsOrdered`. */
  datatype Marker = Null | Undefined | Num(n: int) | Str(s: string) | Bool(b: bool)

  /** JavaScript truthiness of a marker. */
  predicate Truthy(m: Marker)
  {
    match m
    case Num(n) => n != 0
    case Str(s) => s != ""
    case Bool(b) => b
    case _ => false
  }

  type SeatMap = map<string, Marker>

  /** One meal of a category; `seatsOrdered` may be absent (`None`). */
  datatype MealEntry = MealEntry(mealId: string, seatsOrdered: Option<SeatMap>, startingInventory: int)

  /** The document: its revision token `_rev` and the six category lists. */
  datatype Doc = Doc(rev: nat, categories: map<string, seq<MealEntry>>)

  /** The category keys holding meal lists are exactly the valid categories. */
  predicate WellFormed(doc: Doc)
  {
    doc.categories.Keys == set c | c in MealCategories
  }

  lemma WellFormedKeys(doc: Doc, c: string)
    requires WellFormed(doc)
    ensures c in doc.categories <==> IsValidCategory(c)
  {
  }

  /** `seatsOrdered ?? {}` */
  function Seats(e: MealEntry): SeatMap
  {
    if e.seatsOrdered.Some? then e.seatsOrdered.value else map[]
  }

  /** `Object.keys(seatsOrdered ?? {}).length`: every key counts, null markers too. */
  function OrderedKeys(e: MealEntry): nat
  {
    |Seats(e).Keys|
  }

  /** `seatsOrdered && seatsOrdered[seat]`: the seat holds a truthy marker. */
  predicate HoldsTruthy(e: MealEntry, seat: string)
  {
    seat in Seats(e) && Truthy(Seats(e)[seat])
  }

  /** `categoryList.find(mi => Object.keys(mi)[0] === id)`, as a position. */
  function FindMeal(meals: seq<MealEntry>, id: string): (r: Option<nat>)
    ensures r.Some? ==> r.value < |meals| && meals[r.value].mealId == id
    ensures r.Some? ==> forall j :: 0 <= j < r.value ==> meals[j].mealId != id
    ensures r.None? <==> forall j :: 0 <= j < |meals| ==> meals[j].mealId != id
  {
    FindIndex(meals, (e: MealEntry) => e.mealId == id)
  }

  /** Two meal lists with the same ids position by position. */
  predicate SameIds(a: seq<MealEntry>, b: seq<MealEntry>)
  {
    |a| == |b| && forall i :: 0 <= i < |a| ==> a[i].mealId == b[i].mealId
  }

  /** Finding a meal depends on the ids alone. */
  lemma FindMealSameIds(a: seq<MealEntry>, b: seq<MealEntry>, id: string)
    requires SameIds(a, b)
    ensures FindMeal(a, id) == FindMeal(b, id)
  {
  }

  /** An order line of either update thunk; the business thunk ignores `name`. */
  datatype OrderItem = OrderItem(id: string, category: string, name: string)

  /**
   * The meal an order line designates: the first meal with its id in the
   * list of its lower-cased category, when that category is a key of the
   * document.
   */
  function Target(doc: Doc, item: OrderItem): (r: Option<(string, nat)>)
    ensures r.Some? ==> r.value.0 == ToLower(item.category) && r.value.0 in doc.categories
    ensures r.Some? ==> r.value.1 < |doc.categories[r.value.0]|
    ensures r.Some? ==> doc.categories[r.value.0][r.value.1].mealId == item.id
    ensures r.None? <==>
      var c := ToLower(item.category);
      c !in doc.categories || forall j :: 0 <= j < |doc.categories[c]| ==> doc.categories[c][j].mealId != item.id
  {
    var c := ToLower(item.category);
    if c in doc.categories then
      match FindMeal(doc.categories[c], item.id)
      case Some(i) => Some((c, i))
      case None => None
    else None
  }

  /** The meals the order lines designate, as (category, position) pairs. */
  function Designated(doc: Doc, items: seq<OrderItem>): set<(string, nat)>
    decreases |items|
  {
    if items == [] then {}
    else
      var n := |items| - 1;
      Designated(doc, items[..n]) + match Target(doc, items[n]) case Some(t) => {t} case None => {}
  }

  /** The meal an order line targets is designated. */
  lemma {:induction false} DesignatedHasTarget(doc: Doc, items: seq<OrderItem>, k: nat)
    requires k < |items| && Target(doc, items[k]).Some?
    ensures Target(doc, items[k]).value in Designated(doc, items)
    decreases |items|
  {
    var n := |items| - 1;
    if k < n {
      DesignatedHasTarget(doc, items[..n], k);
      assert items[..n][k] == items[k];
    }
  }

  /** A designated meal is the target of some order line. */
  lemma {:induction false} DesignatedWitness(doc: Doc, items: seq<OrderItem>, c: string, i: nat) returns (k: nat)
    requires (c, i) in Designated(doc, items)
    ensures k < |items| && Target(doc, items[k]) == Some((c, i))
    decreases |items|
  {
    var n := |items| - 1;
    if Target(doc, items[n]) == Some((c, i)) {
      k := n;
    } else {
      k := DesignatedWitness(doc, items[..n], c, i);
      assert items[..n][k] == items[k];
    }
  }

  /** A pair is designated exactly when some order line targets it. */
  lemma DesignatedIff(doc: Doc, items: seq<OrderItem>, c: string, i: nat)
    ensures (c, i) in Designated(doc, items) <==> exists k :: 0 <= k < |items| && Target(doc, items[k]) == Some((c, i))
  {
    if (c, i) in Designated(doc, items) {
      var k := DesignatedWitness(doc, items, c, i);
    }
    if exists k :: 0 <= k < |items| && Target(doc, items[k]) == Some((c, i)) {
      var k :| 0 <= k < |items| && Target(doc, items[k]) == Some((c, i));
      DesignatedHasTarget(doc, items, k);
    }
  }

  /** The meal at position `i` of category `c` is designated by some order line. */
  predicate Requested(doc: Doc, items: seq<OrderItem>, c: string, i: nat)
  {
    (c, i) in Designated(doc, items)
  }

  /** Appending an order line designates at most the one more meal it targets. */
  lemma DesignatedSnoc(doc: Doc, items: seq<OrderItem>, x: OrderItem)
    ensures Designated(doc, items + [x]) ==
      Designated(doc, items) + match Target(doc, x) case Some(t) => {t} case None => {}
  {
    assert (items + [x])[..|items|] == items;
  }

  /** Documents of the same shape designate the same meals. */
  lemma {:induction false} DesignatedSameShape(a: Doc, b: Doc, items: seq<OrderItem>)
    requires SameShape(a, b)
    ensures Designated(a, items) == Designated(b, items)
    decreases |items|
  {
    if items != [] {
      DesignatedSameShape(a, b, items[..|items| - 1]);
      TargetSameShape(a, b, items[|items| - 1]);
    }
  }

  /**
   * The strip step shared by both update thunks: a seat's entry is deleted
   * only when its marker is truthy; otherwise the meal is returned as it was.
   */
  function StripSeat(e: MealEntry, seat: string): MealEntry
  {
    if HoldsTruthy(e, seat) then MealEntry(e.mealId, Some(Seats(e) - {seat}), e.startingInventory)
    else e
  }

  /**
   * After the strip the seat holds nothing truthy; a falsy marker is left in
   * place; every other seat, the id and the starting inventory are kept; the
   * key count never grows.
   */
  lemma StripSeatSpec(e: MealEntry, seat: string)
    ensures var r := StripSeat(e, seat);
      && r.mealId == e.mealId && r.startingInventory == e.startingInventory
      && !HoldsTruthy(r, seat)
      && (!HoldsTruthy(e, seat) ==> r == e)
      && (HoldsTruthy(e, seat) ==> r.seatsOrdered == Some(Seats(e) - {seat}) && OrderedKeys(r) == OrderedKeys(e) - 1)
      && (forall s :: s != seat ==> (s in Seats(r) <==> s in Seats(e)))
      && (forall s :: s != seat && s in Seats(e) ==> Seats(r)[s] == Seats(e)[s])
      && OrderedKeys(r) <= OrderedKeys(e)
  {
    if HoldsTruthy(e, seat) {
      assert Seats(e).Keys == (Seats(e) - {seat}).Keys + {seat};
    }
  }

  /** The add step: create `seatsOrdered` if absent, then set the seat's marker to 1. */
  function AddSeat(e: MealEntry, seat: string): MealEntry
  {
    MealEntry(e.mealId, Some(Seats(e)[seat := Num(1)]), e.startingInventory)
  }

  /**
   * After the add the seat holds marker 1; every other seat, the id and the
   * starting inventory are kept; the key count grows by one exactly when
   * the seat had no key.
   */
  lemma AddSeatSpec(e: MealEntry, seat: string)
    ensures var r := AddSeat(e, seat);
      && r.mealId == e.mealId && r.startingInventory == e.startingInventory
      && r.seatsOrdered.Some? && seat in Seats(r) && Seats(r)[seat] == Num(1)
      && (forall s :: s != seat ==> (s in Seats(r) <==> s in Seats(e)))
      && (forall s :: s != seat && s in Seats(e) ==> Seats(r)[s] == Seats(e)[s])
      && OrderedKeys(r) == if seat in Seats(e) then OrderedKeys(e) else OrderedKeys(e) + 1
  {
    assert Seats(AddSeat(e, seat)).Keys == Seats(e).Keys + {seat};
  }

  /** Every meal of the document has no more `seatsOrdered` keys than its starting inventory. */
  predicate WithinCapacity(doc: Doc)
  {
    forall c, i :: c in doc.categories && 0 <= i < |doc.categories[c]| ==>
      OrderedKeys(doc.categories[c][i]) <= doc.categories[c][i].startingInventory
  }

  /** `b` has the categories of `a`, and each meal keeps its id and starting inventory. */
  predicate SameShape(a: Doc, b: Doc)
  {
    && a.categories.Keys == b.categories.Keys
    && (forall c :: c in a.categories ==> SameIds(a.categories[c], b.categories[c]))
    && (forall c, i :: c in a.categories && 0 <= i < |a.categories[c]| ==>
          b.categories[c][i].startingInventory == a.categories[c][i].startingInventory)
  }

  /** Order lines designate the same meals in documents of the same shape. */
  lemma TargetSameShape(a: Doc, b: Doc, item: OrderItem)
    requires SameShape(a, b)
    ensures Target(a, item) == Target(b, item)
  {
    var c := ToLower(item.category);
    if c in a.categories {
      FindMealSameIds(a.categories[c], b.categories[c], item.id);
    }
  }

  /** The report of `findOutOfStockItems`: the category is the lower-cased one. */
  datatype OutOfStockItem = OutOfStockItem(id: string, name: string, category: string)
}
