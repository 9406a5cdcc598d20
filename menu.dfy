/**
 * Menu items. The immutable part of a menu item (its name, price, kitchen-prep
 * flag and ingredients, and for a Combo its components) is the value `Dish`;
 * the one field the services change, `available`, lives in the class
 * `MenuItem`. A Combo copies its component list when it is built, so its
 * components are held as values.
 */
module Menu {
  import opened Common
  import Text

  datatype MenuCategory = Entree | Drink | Dessert | Combo

  datatype Dish =
    | EntreeDish(name: string, price: real, ingredients: seq<string>)
    | DrinkDish(name: string, price: real)
    | DessertDish(name: string, price: real)
    | ComboDish(name: string, items: seq<Dish>, discountPercent: real)

  /** getCategory: each leaf class passes its own category to MenuItem; a Combo passes COMBO. */
  function Category(d: Dish): MenuCategory
  {
    match d
    case EntreeDish(_, _, _) => Entree
    case DrinkDish(_, _) => Drink
    case DessertDish(_, _) => Dessert
    case ComboDish(_, _, _) => Combo
  }

  /** requiresKitchenPrep: entrees and desserts yes, drinks no, a combo when any component does. */
  predicate RequiresKitchenPrep(d: Dish)
    ensures !d.ComboDish? ==> (RequiresKitchenPrep(d) <==> !d.DrinkDish?)
    ensures d.ComboDish? && RequiresKitchenPrep(d) ==> |d.items| > 0
  {
    match d
    case EntreeDish(_, _, _) => true
    case DrinkDish(_, _) => false
    case DessertDish(_, _) => true
    case ComboDish(_, items, _) => exists i | 0 <= i < |items| :: RequiresKitchenPrep(items[i])
  }

  /**
   * getRequiredIngredients: an entree lists its ingredients, a drink or a dessert its
   * lower-cased name; a combo concatenates its components' lists and drops repeats.
   */
  function RequiredIngredients(d: Dish): (r: seq<string>)
    ensures d.EntreeDish? ==> r == d.ingredients
    ensures d.DrinkDish? || d.DessertDish? ==>
              |r| == 1 && Text.EqualsIgnoreCase(r[0], d.name) && forall i :: 0 <= i < |r[0]| ==> !('A' <= r[0][i] <= 'Z')
    ensures d.ComboDish? ==> forall x :: x in r <==> x in ConcatIngredients(d.items)
  {
    match d
    case EntreeDish(_, _, ingredients) => ingredients
    case DrinkDish(name, _) => [Text.Lower(name)]
    case DessertDish(name, _) => [Text.Lower(name)]
    case ComboDish(_, items, _) =>
      DistinctSpec(ConcatIngredients(items));
      Distinct(ConcatIngredients(items))
  }

  /** items.stream().flatMap(i -> i.getRequiredIngredients().stream()), before distinct(). */
  function ConcatIngredients(items: seq<Dish>): seq<string>
  {
    if |items| == 0 then [] else RequiredIngredients(items[0]) + ConcatIngredients(items[1..])
  }

  /** calculatePrice: a leaf's own price; a combo's component sum less its discount percentage. */
  function Price(d: Dish): (r: real)
    ensures !d.ComboDish? ==> r == d.price
    ensures d.ComboDish? && d.discountPercent == 0.0 ==> r == SumPrices(d.items)
    ensures d.ComboDish? && d.discountPercent == 100.0 ==> r == 0.0
  {
    match d
    case EntreeDish(_, price, _) => price
    case DrinkDish(_, price) => price
    case DessertDish(_, price) => price
    case ComboDish(_, items, discount) => SumPrices(items) * (1.0 - discount / 100.0)
  }

  /** mapToDouble(MenuItem::calculatePrice).sum(), the sum Combo and Order both take. */
  function SumPrices(items: seq<Dish>): real
  {
    if |items| == 0 then 0.0 else Price(items[0]) + SumPrices(items[1..])
  }

  /** The sum over two lists joined is the sum of the two sums. */
  lemma {:induction false} SumPricesAppend(a: seq<Dish>, b: seq<Dish>)
    ensures SumPrices(a + b) == SumPrices(a) + SumPrices(b)
  {
    if |a| > 0 {
      assert (a + b)[1..] == a[1..] + b;
      SumPricesAppend(a[1..], b);
    } else {
      assert a + b == b;
    }
  }

  /**
   * A discount between 0 and 100 percent prices a combo between nothing and
   * the full sum of its components, when that sum is not negative.
   */
  lemma ComboPriceWithinSum(d: Dish)
    requires d.ComboDish? && 0.0 <= d.discountPercent <= 100.0 && SumPrices(d.items) >= 0.0
    ensures 0.0 <= Price(d) <= SumPrices(d.items)
  {
    var f := 1.0 - d.discountPercent / 100.0;
    assert 0.0 <= f <= 1.0;
    assert Price(d) == SumPrices(d.items) * f;
  }

  /** Adding a component to a combo without discount adds that component's price. */
  lemma ComboPriceOfAppend(name: string, items: seq<Dish>, extra: Dish)
    ensures Price(ComboDish(name, items + [extra], 0.0)) == Price(ComboDish(name, items, 0.0)) + Price(extra)
  {
    SumPricesAppend(items, [extra]);
    assert SumPrices([extra]) == Price(extra) + SumPrices([]);
  }

  /** Combo.getItems: the components, as an unmodifiable copy. */
  function ComboItems(d: Dish): (items: seq<Dish>)
    requires d.ComboDish?
    ensures |items| == |d.items| && forall i :: 0 <= i < |items| ==> items[i] == d.items[i]
  {
    d.items
  }

  /** copyWithPrice: a leaf is copied with the new price; a Combo always refuses. */
  function CopyWithPrice(d: Dish, newPrice: real): (r: Result<Dish>)
    ensures d.ComboDish? <==> r.Err?
    ensures r.Err? ==> r.error == UnsupportedOperation
    ensures r.Ok? ==> Category(r.value) == Category(d) && Price(r.value) == newPrice
    ensures r.Ok? ==> r.value.name == d.name && RequiredIngredients(r.value) == RequiredIngredients(d)
  {
    match d
    case EntreeDish(name, _, ingredients) => Ok(EntreeDish(name, newPrice, ingredients))
    case DrinkDish(name, _) => Ok(DrinkDish(name, newPrice))
    case DessertDish(name, _) => Ok(DessertDish(name, newPrice))
    case ComboDish(_, _, _) => Err(UnsupportedOperation)
  }

  // ---------------------------------------------------------------------
  // Stream.distinct(): keep the first occurrence of every element.

  function Distinct(s: seq<string>): seq<string>
  {
    if |s| == 0 then []
    else
      var kept := Distinct(s[..|s| - 1]);
      if s[|s| - 1] in kept then kept else kept + [s[|s| - 1]]
  }

  /** Position of the first occurrence of x in s. */
  function FirstIndex(s: seq<string>, x: string): (k: nat)
    requires x in s
    ensures k < |s| && s[k] == x && forall j :: 0 <= j < k ==> s[j] != x
  {
    if s[0] == x then 0 else 1 + FirstIndex(s[1..], x)
  }

  lemma FirstIndexOfPrefix(s: seq<string>, y: string, x: string)
    requires x in s
    ensures FirstIndex(s + [y], x) == FirstIndex(s, x)
  {
    var k := FirstIndex(s, x);
    assert (s + [y])[k] == x;
    var k' := FirstIndex(s + [y], x);
    assert k' <= k;
  }

  /**
   * Distinct keeps exactly the elements of its input, each once, in the
   * order of their first occurrences.
   */
  lemma {:induction false} DistinctSpec(s: seq<string>)
    ensures forall x :: x in Distinct(s) <==> x in s
    ensures forall i, j :: 0 <= i < j < |Distinct(s)| ==> Distinct(s)[i] != Distinct(s)[j]
    ensures forall i, j :: 0 <= i < j < |Distinct(s)| ==>
              FirstIndex(s, Distinct(s)[i]) < FirstIndex(s, Distinct(s)[j])
  {
    if |s| > 0 {
      var init, y := s[..|s| - 1], s[|s| - 1];
      assert s == init + [y];
      DistinctSpec(init);
      var kept := Distinct(init);
      forall x | x in init ensures FirstIndex(s, x) == FirstIndex(init, x) {
        FirstIndexOfPrefix(init, y, x);
      }
      if y !in kept {
        assert FirstIndex(s, y) == |init|;
      }
    }
  }

  /** Distinct of a list without repeats is that list. */
  lemma {:induction false} DistinctOfDistinct(s: seq<string>)
    requires forall i, j :: 0 <= i < j < |s| ==> s[i] != s[j]
    ensures Distinct(s) == s
  {
    if |s| > 0 {
      var init := s[..|s| - 1];
      DistinctOfDistinct(init);
      DistinctSpec(init);
      assert s[|s| - 1] !in init;
    }
  }

  // ---------------------------------------------------------------------
  // A combo seen through its leaves (entrees, drinks, desserts) at any depth.

  function Leaves(d: Dish): seq<Dish>
  {
    match d
    case ComboDish(_, items, _) => ConcatLeaves(items)
    case _ => [d]
  }

  function ConcatLeaves(items: seq<Dish>): seq<Dish>
  {
    if |items| == 0 then [] else Leaves(items[0]) + ConcatLeaves(items[1..])
  }

  /** A dish needs the kitchen exactly when one of its leaves is an entree or a dessert. */
  lemma {:induction false} KitchenPrepIffPreparedLeaf(d: Dish)
    ensures RequiresKitchenPrep(d) <==> exists l :: l in Leaves(d) && !l.DrinkDish?
  {
    if d.ComboDish? {
      ComboPrepIffPreparedLeaf(d.items);
      assert Leaves(d) == ConcatLeaves(d.items);
    } else {
      assert Leaves(d) == [d];
      if !d.DrinkDish? {
        assert d in Leaves(d);
      }
    }
  }

  lemma {:induction false} ComboPrepIffPreparedLeaf(items: seq<Dish>)
    ensures (exists i | 0 <= i < |items| :: RequiresKitchenPrep(items[i]))
        <==> exists l :: l in ConcatLeaves(items) && !l.DrinkDish?
  {
    if |items| > 0 {
      KitchenPrepIffPreparedLeaf(items[0]);
      ComboPrepIffPreparedLeaf(items[1..]);
      assert ConcatLeaves(items) == Leaves(items[0]) + ConcatLeaves(items[1..]);
      if exists i | 0 <= i < |items| :: RequiresKitchenPrep(items[i]) {
        var i :| 0 <= i < |items| && RequiresKitchenPrep(items[i]);
        if i > 0 {
          assert items[1..][i - 1] == items[i];
        }
      }
      if exists i | 0 <= i < |items[1..]| :: RequiresKitchenPrep(items[1..][i]) {
        var i :| 0 <= i < |items[1..]| && RequiresKitchenPrep(items[1..][i]);
        assert items[i + 1] == items[1..][i];
      }
    }
  }

  /** The ingredients a dish requires are exactly the ingredients of its leaves, without repeats in a combo. */
  lemma {:induction false} IngredientsAreLeafIngredients(d: Dish)
    ensures forall x :: x in RequiredIngredients(d) <==> exists l :: l in Leaves(d) && x in RequiredIngredients(l)
  {
    if d.ComboDish? {
      DistinctSpec(ConcatIngredients(d.items));
      ConcatIngredientsAreLeafIngredients(d.items);
    }
  }

  lemma {:induction false} ConcatIngredientsAreLeafIngredients(items: seq<Dish>)
    ensures forall x :: x in ConcatIngredients(items) <==>
              exists l :: l in ConcatLeaves(items) && x in RequiredIngredients(l)
  {
    if |items| > 0 {
      IngredientsAreLeafIngredients(items[0]);
      ConcatIngredientsAreLeafIngredients(items[1..]);
      var head, tail := Leaves(items[0]), ConcatLeaves(items[1..]);
      assert ConcatLeaves(items) == head + tail;
      forall x | exists l :: l in head + tail && x in RequiredIngredients(l)
        ensures x in ConcatIngredients(items)
      {
        var l :| l in head + tail && x in RequiredIngredients(l);
        if l in head {
          assert x in RequiredIngredients(items[0]);
        } else {
          assert x in ConcatIngredients(items[1..]);
        }
      }
      assert ConcatIngredients(items) == RequiredIngredients(items[0]) + ConcatIngredients(items[1..]);
      forall x | x in ConcatIngredients(items)
        ensures exists l :: l in head + tail && x in RequiredIngredients(l)
      {
        if x in RequiredIngredients(items[0]) {
          var l :| l in head && x in RequiredIngredients(l);
          assert l in head + tail;
        } else {
          var l :| l in tail && x in RequiredIngredients(l);
          assert l in head + tail;
        }
      }
    }
  }

  /** A combo never repeats an ingredient. */
  lemma ComboIngredientsDistinct(d: Dish)
    requires d.ComboDish?
    ensures forall i, j :: 0 <= i < j < |RequiredIngredients(d)| ==>
              RequiredIngredients(d)[i] != RequiredIngredients(d)[j]
  {
    DistinctSpec(ConcatIngredients(d.items));
  }

  /** A menu item: its immutable dish and its mutable availability flag. */
  class MenuItem {
    const id: string
    const dish: Dish
    var available: bool

    /** Every menu item starts out available. */
    constructor (id: string, dish: Dish)
      ensures this.id == id && this.dish == dish && available
    {
      this.id := id;
      this.dish := dish;
      available := true;
    }

    function Name(): string { dish.name }

    method SetAvailable(available: bool)
      modifies this
      ensures this.available == available
    {
      this.available := available;
    }
  }

  /** The values of a list of menu items (what the Combo constructor copies). */
  function DishesOf(parts: seq<MenuItem>): (r: seq<Dish>)
    ensures |r| == |parts| && forall i :: 0 <= i < |parts| ==> r[i] == parts[i].dish
  {
    if |parts| == 0 then [] else [parts[0].dish] + DishesOf(parts[1..])
  }

  /**
   * new Combo(id, name, description, items, discountPercent): category COMBO and a
   * private copy of the component list, so the caller's list no longer matters.
   */
  method NewCombo(id: string, name: string, parts: seq<MenuItem>, discountPercent: real)
    returns (c: MenuItem)
    ensures fresh(c) && c.id == id && c.available
    ensures c.dish == ComboDish(name, DishesOf(parts), discountPercent)
    ensures Category(c.dish) == Combo
  {
    c := new MenuItem(id, ComboDish(name, DishesOf(parts), discountPercent));
  }
}
