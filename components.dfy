/** Catalogue entries. All three versions of the program have a mutable,
    named and priced component class (`AbstractIngredient` in src/Main.java,
    `AbstractComponent` in the two BasicLogic files) specialised as
    `Ingredient`, `PizzaBase` and `PizzaSides`. The specialisations add no
    behaviour, so one class stands for all of them; only side variants fill
    in `pizzasUsed`, the names of the pizzas the side may be served with. */
module Components {
  import opened Seqs

  /** The name of the reference base whose price caps every other base. */
  const Classic: string := "Классическое"

  /** The three component lists of a menu that the generic change, add and
      delete operations are applied to. */
  datatype Shelf = Ingredients | Bases | Sides

  class Component {
    var name: string
    var price: real
    var pizzasUsed: seq<string>

    constructor (name: string, price: real, pizzasUsed: seq<string>)
      ensures this.name == name && this.price == price && this.pizzasUsed == pizzasUsed
    {
      this.name := name;
      this.price := price;
      this.pizzasUsed := pizzasUsed;
    }

    /** `setName`: renames, and touches no other field. */
    method SetName(newName: string)
      modifies this`name
      ensures name == newName
      ensures price == old(price) && pizzasUsed == old(pizzasUsed)
    {
      name := newName;
    }

    /** `setPrice`: reprices, and touches no other field. */
    method SetPrice(newPrice: real)
      modifies this`price
      ensures price == newPrice
      ensures name == old(name) && pizzasUsed == old(pizzasUsed)
    {
      price := newPrice;
    }

    /** `PizzaSides.setListOfPizzasUsed`. */
    method SetListOfPizzasUsed(newList: seq<string>)
      modifies this`pizzasUsed
      ensures pizzasUsed == newList
      ensures name == old(name) && price == old(price)
    {
      pizzasUsed := newList;
    }
  }

  /** The names of a list of components, in order (`T::getName`). */
  function NamesOf(s: seq<Component>): (r: seq<string>)
    reads s
    ensures |r| == |s|
    ensures forall i :: 0 <= i < |s| ==> r[i] == s[i].name
  {
    if s == [] then [] else NamesOf(s[..|s| - 1]) + [s[|s| - 1].name]
  }

  /** Sum of the current prices of a list of components, accumulated from the
      front as the Java `for` loops do. */
  function SumPrices(s: seq<Component>): real
    reads s
  {
    if s == [] then 0.0 else SumPrices(s[..|s| - 1]) + s[|s| - 1].price
  }

  /** The price of a concatenation is the sum of the parts' prices. */
  lemma {:induction false} SumPricesAppend(a: seq<Component>, b: seq<Component>)
    ensures SumPrices(a + b) == SumPrices(a) + SumPrices(b)
    decreases |b|
  {
    if b != [] {
      assert (a + b)[..|a + b| - 1] == a + b[..|b| - 1];
      SumPricesAppend(a, b[..|b| - 1]);
    } else {
      assert a + b == a;
    }
  }

  /** One step of the accumulating loop: the sum over a prefix one longer. */
  lemma SumPricesStep(s: seq<Component>, i: nat)
    requires i < |s|
    ensures SumPrices(s[..i + 1]) == SumPrices(s[..i]) + s[i].price
  {
    assert s[..i + 1][..i] == s[..i];
  }
}
