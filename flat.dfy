/** The earliest version of the program (src/Main.java): a pizza is a base
    plus a list of ingredients, and its price is a field that the
    constructor and `setIngredients` recompute and nothing else does. */
module Flat {
  import opened Seqs
  import opened Components

  class Pizza {
    var name: string
    var price: real
    var ingredients: seq<Component>
    var pizzaBase: Component

    /** The stored price agrees with the current component prices. */
    predicate PriceCurrent()
      reads this, pizzaBase, ingredients
    {
      price == pizzaBase.price + SumPrices(ingredients)
    }

    /** `Pizza(name, base, ingredients...)`: keeps the ingredients in the
        given order and prices the pizza. */
    constructor (name: string, pizzaBase: Component, ingredients: seq<Component>)
      ensures this.name == name && this.pizzaBase == pizzaBase && this.ingredients == ingredients
      ensures price == pizzaBase.price + SumPrices(ingredients)
    {
      this.name := name;
      this.pizzaBase := pizzaBase;
      this.ingredients := ingredients;
      new;
      PriceUpdate();
    }

    /** `priceUpdate`: the base price plus every ingredient price, summed
        by a loop into the field. */
    method PriceUpdate()
      modifies this`price
      ensures PriceCurrent()
    {
      price := pizzaBase.price;
      for i := 0 to |ingredients|
        invariant price == pizzaBase.price + SumPrices(ingredients[..i])
      {
        SumPricesStep(ingredients, i);
        price := price + ingredients[i].price;
      }
      assert ingredients[..|ingredients|] == ingredients;
    }

    /** `setName` changes the name only. */
    method SetName(newName: string)
      modifies this`name
      ensures name == newName
      ensures price == old(price) && ingredients == old(ingredients) && pizzaBase == old(pizzaBase)
    {
      name := newName;
    }

    /** `setIngredients` replaces the list and reprices from it. */
    method SetIngredients(newIngredients: seq<Component>)
      modifies this`ingredients, this`price
      ensures ingredients == newIngredients
      ensures price == pizzaBase.price + SumPrices(newIngredients)
      ensures name == old(name) && pizzaBase == old(pizzaBase)
    {
      ingredients := newIngredients;
      PriceUpdate();
    }

    /** `setPizzaBase` swaps the base without repricing: the stored price
        still counts the old base. */
    method SetPizzaBase(newPizzaBase: Component)
      modifies this`pizzaBase
      ensures pizzaBase == newPizzaBase
      ensures price == old(price) && name == old(name) && ingredients == old(ingredients)
      ensures old(PriceCurrent()) && newPizzaBase.price != old(pizzaBase.price) ==> !PriceCurrent()
    {
      pizzaBase := newPizzaBase;
    }
  }

  /** `getPrice` returns the stored field: once an ingredient of a pizza
      whose price was current is repriced (`setPrice`), the pizza's price no
      longer agrees with its components until something calls `priceUpdate`. */
  twostate lemma StoredPriceGoesStale(p: Pizza, c: Component)
    requires p.price == old(p.price) && p.ingredients == old(p.ingredients) && p.pizzaBase == old(p.pizzaBase)
    requires forall x :: x in old(p.ingredients) && x != c ==> x.price == old(x.price)
    requires p.pizzaBase.price == old(p.pizzaBase.price)
    requires c in p.ingredients
    requires old(p.price == p.pizzaBase.price + SumPrices(p.ingredients))
    requires c.price != old(c.price)
    ensures p.price == old(p.price)
    ensures !p.PriceCurrent()
  {
    var s, delta := p.ingredients, c.price - old(c.price);
    var i, shift := 0, 0.0;
    while i < |s|
      invariant i <= |s|
      invariant SumPrices(s[..i]) == old(SumPrices(s[..i])) + shift
      invariant c !in s[..i] ==> shift == 0.0
      invariant c in s[..i] ==> (delta > 0.0 ==> shift > 0.0) && (delta < 0.0 ==> shift < 0.0)
    {
      assert s[..i + 1] == s[..i] + [s[i]];
      SumPricesStep(s, i);
      if s[i] == c {
        shift := shift + delta;
      } else {
        assert s[i] in old(p.ingredients);
      }
      i := i + 1;
    }
    assert s[..i] == s;
  }
}
