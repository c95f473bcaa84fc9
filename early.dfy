/** The middle version of the program (src/BasicLogic/Main.java). Pieces and
    pizzas keep a stored price that their setters recompute; a pizza is built
    without checking its sides; the menu looks names up by a linear
    first-match scan that throws on a miss; and growing a pizza makes the new
    slots share the old last piece, so doubling that pizza's pieces doubles
    the shared piece once per slot. */
module Early {
  import opened Outcomes
  import opened Seqs
  import opened Components

  /** `PieceOfPizza`: a side variant with its ingredients and a stored price. */
  class Piece {
    var price: real
    var side: Component
    var ingredients: seq<Component>

    /** The stored price agrees with the side and ingredient prices. */
    predicate PriceCurrent()
      reads this, side, ingredients
    {
      price == side.price + SumPrices(ingredients)
    }

    constructor (side: Component, ingredients: seq<Component>)
      ensures this.side == side && this.ingredients == ingredients
      ensures PriceCurrent()
    {
      this.side := side;
      this.ingredients := ingredients;
      new;
      UpdatePrice();
    }

    /** `updatePrice`: the side price plus every ingredient price, summed by
        a loop into the field. */
    method UpdatePrice()
      modifies this`price
      ensures PriceCurrent()
    {
      price := side.price;
      for i := 0 to |ingredients|
        invariant price == side.price + SumPrices(ingredients[..i])
      {
        SumPricesStep(ingredients, i);
        price := price + ingredients[i].price;
      }
      assert ingredients[..|ingredients|] == ingredients;
    }

    method SetIngredients(newIngredients: seq<Component>)
      modifies this`ingredients, this`price
      ensures ingredients == newIngredients && side == old(side)
      ensures PriceCurrent()
    {
      ingredients := newIngredients;
      UpdatePrice();
    }

    method SetSides(newSide: Component)
      modifies this`side, this`price
      ensures side == newSide && ingredients == old(ingredients)
      ensures PriceCurrent()
    {
      side := newSide;
      UpdatePrice();
    }

    /** `doublingIngredients`: `ingredients.addAll(ingredients)` appends a
        copy of the list to itself, then the price is recomputed, so every
        ingredient is now paid twice. */
    method DoublingIngredients()
      modifies this`ingredients, this`price
      ensures ingredients == old(ingredients) + old(ingredients) && side == old(side)
      ensures price == side.price + 2.0 * SumPrices(old(ingredients))
      ensures PriceCurrent()
    {
      ingredients := ingredients + ingredients;
      UpdatePrice();
      SumPricesAppend(old(ingredients), old(ingredients));
    }
  }

  /** Sum of the stored prices of a list of pieces. */
  function SumPiecePrices(s: seq<Piece>): real
    reads s
  {
    if s == [] then 0.0 else SumPiecePrices(s[..|s| - 1]) + s[|s| - 1].price
  }

  lemma SumPiecePricesStep(s: seq<Piece>, i: nat)
    requires i < |s|
    ensures SumPiecePrices(s[..i + 1]) == SumPiecePrices(s[..i]) + s[i].price
  {
    assert s[..i + 1][..i] == s[..i];
  }

  /** `Pizza`: a base and an ordered list of pieces, priced from the pieces'
      stored prices. */
  class Pizza {
    var name: string
    var price: real
    var pizzaBase: Component
    var pieces: seq<Piece>

    /** The stored price agrees with the base and the pieces' stored prices. */
    predicate PriceCurrent()
      reads this, pizzaBase, pieces
    {
      price == pizzaBase.price + SumPiecePrices(pieces)
    }

    /** `Pizza(name, base, pieces)`: no side is checked against the name. */
    constructor (name: string, pizzaBase: Component, pieces: seq<Piece>)
      ensures this.name == name && this.pizzaBase == pizzaBase && this.pieces == pieces
      ensures PriceCurrent()
    {
      this.name := name;
      this.pizzaBase := pizzaBase;
      this.pieces := pieces;
      new;
      PriceUpdate();
    }

    method PriceUpdate()
      modifies this`price
      ensures PriceCurrent()
    {
      price := pizzaBase.price;
      for i := 0 to |pieces|
        invariant price == pizzaBase.price + SumPiecePrices(pieces[..i])
      {
        SumPiecePricesStep(pieces, i);
        price := price + pieces[i].price;
      }
      assert pieces[..|pieces|] == pieces;
    }

    method SetName(newName: string)
      modifies this`name
      ensures name == newName
    {
      name := newName;
    }

    /** `setIngredients(position, list)`: replaces one piece's ingredients and
        reprices that piece and the pizza. The piece object may sit in other
        slots too; every slot holding it sees the change. */
    method SetIngredients(position: int, newIngredients: seq<Component>) returns (r: Outcome<()>)
      modifies this`price, if 0 <= position < |pieces| then {pieces[position]} else {}
      ensures pieces == old(pieces)
      ensures r.Ok? <==> 0 <= position < |pieces|
      ensures r.Err? ==> r.error == IndexOutOfBounds && price == old(price)
      ensures r.Ok? ==>
        pieces[position].ingredients == newIngredients && pieces[position].side == old(pieces[position].side) &&
        pieces[position].PriceCurrent() && PriceCurrent()
    {
      if position < 0 || position >= |pieces| {
        return Err(IndexOutOfBounds);
      }
      pieces[position].SetIngredients(newIngredients);
      PriceUpdate();
      return Ok(());
    }

    method SetPizzaBase(newPizzaBase: Component)
      modifies this`pizzaBase, this`price
      ensures pizzaBase == newPizzaBase && pieces == old(pieces)
      ensures PriceCurrent()
    {
      pizzaBase := newPizzaBase;
      PriceUpdate();
    }

    method SetSides(position: int, newSide: Component) returns (r: Outcome<()>)
      modifies this`price, if 0 <= position < |pieces| then {pieces[position]} else {}
      ensures pieces == old(pieces)
      ensures r.Ok? <==> 0 <= position < |pieces|
      ensures r.Err? ==> r.error == IndexOutOfBounds && price == old(price)
      ensures r.Ok? ==>
        pieces[position].side == newSide && pieces[position].ingredients == old(pieces[position].ingredients) &&
        pieces[position].PriceCurrent() && PriceCurrent()
    {
      if position < 0 || position >= |pieces| {
        return Err(IndexOutOfBounds);
      }
      pieces[position].SetSides(newSide);
      PriceUpdate();
      return Ok(());
    }

    /** `setNumberOfPieces(int)`: `Arrays.copyOf` to the new length, then the
        grown slots are filled with the old last piece object. There is no
        guard: a negative count fails in `copyOf`, and the price is not
        recomputed. Growing an empty pizza indexes slot -1, which callers
        must avoid. */
    method SetNumberOfPieces(numberOfPieces: int) returns (r: Outcome<()>)
      requires numberOfPieces > |pieces| ==> |pieces| > 0
      modifies this`pieces
      ensures numberOfPieces < 0 ==> r == Err(NegativeArraySize) && pieces == old(pieces)
      ensures 0 <= numberOfPieces ==> r == Ok(()) && pieces == Resized(old(pieces), numberOfPieces)
    {
      if numberOfPieces < 0 {
        return Err(NegativeArraySize);
      }
      var current, oldSize := pieces, |pieces|;
      var copy := current[..if numberOfPieces < oldSize then numberOfPieces else oldSize];
      var i := oldSize;
      while i < numberOfPieces
        invariant numberOfPieces <= oldSize ==> copy == current[..numberOfPieces]
        invariant numberOfPieces > oldSize ==>
          0 < oldSize <= i <= numberOfPieces && copy == Resized(current, i)
      {
        copy := copy + [current[oldSize - 1]];
        i := i + 1;
      }
      pieces := copy;
      return Ok(());
    }

    /** `setNumberOfPieces(PieceOfPizza[])`: swaps in a whole piece list,
        without repricing. */
    method ReplacePieces(newPieces: seq<Piece>)
      modifies this`pieces
      ensures pieces == newPieces
    {
      pieces := newPieces;
    }

    /** The three setter calls of the menu's `change` for a pizza: the name,
        then the base (which reprices), then the ingredients of one piece. */
    method Revise(position: int, newName: string, newIngredients: seq<Component>, newBase: Component)
      returns (r: Outcome<()>)
      modifies this, if 0 <= position < |pieces| then {pieces[position]} else {}
      ensures name == newName && pizzaBase == newBase && pieces == old(pieces) && PriceCurrent()
      ensures r.Ok? <==> 0 <= position < |pieces|
      ensures r.Err? ==> r.error == IndexOutOfBounds
      ensures r.Ok? ==>
        pieces[position].ingredients == newIngredients && pieces[position].side == old(pieces[position].side) &&
        pieces[position].PriceCurrent()
    {
      SetName(newName);
      SetPizzaBase(newBase);
      r := SetIngredients(position, newIngredients);
    }
  }

  /** The inner loop of `createNewPizza(doubled, ...)`: every slot's piece is
      doubled in turn. A piece object that fills `k` slots is doubled `k`
      times, and its price is recomputed each time. */
  method DoubleEachPiece(pieces: seq<Piece>)
    modifies set p | p in pieces
    ensures forall p :: p in pieces ==>
      p.ingredients == Doubled(old(p.ingredients), Count(pieces, p)) && p.side == old(p.side)
    ensures forall p :: p in pieces ==> p.PriceCurrent()
  {
    for i := 0 to |pieces|
      invariant forall p :: p in pieces ==>
        p.ingredients == Doubled(old(p.ingredients), Count(pieces[..i], p)) && p.side == old(p.side)
      invariant forall p :: p in pieces[..i] ==> p.PriceCurrent()
    {
      var piece := pieces[i];
      assert pieces[..i + 1] == pieces[..i] + [piece];
      label before:
      piece.DoublingIngredients();
      forall p | p in pieces
        ensures p.ingredients == Doubled(old(p.ingredients), Count(pieces[..i + 1], p)) && p.side == old(p.side)
      {
        assert pieces[..i + 1][..i] == pieces[..i];
        assert Count(pieces[..i + 1], p) == Count(pieces[..i], p) + (if piece == p then 1 else 0);
        assert old@before(p.ingredients) == Doubled(old(p.ingredients), Count(pieces[..i], p));
        if p == piece {
          assert p.ingredients == old@before(p.ingredients) + old@before(p.ingredients);
        } else {
          assert p.ingredients == old@before(p.ingredients);
        }
      }
    }
    assert pieces[..|pieces|] == pieces;
  }

  /** Names of a list of pizzas, in order. */
  function PizzaNames(s: seq<Pizza>): (r: seq<string>)
    reads s
    ensures |r| == |s|
    ensures forall i :: 0 <= i < |s| ==> r[i] == s[i].name
  {
    if s == [] then [] else PizzaNames(s[..|s| - 1]) + [s[|s| - 1].name]
  }

  /** Every item a lookup returns comes from the searched list. */
  lemma FirstMatchesIn<T>(items: seq<T>, names: seq<string>, requested: seq<string>)
    requires |items| == |names| && AllIn(requested, names)
    ensures forall x :: x in FirstMatches(items, names, requested) ==> x in items
  {
    forall x | x in FirstMatches(items, names, requested)
      ensures x in items
    {
      var k :| 0 <= k < |requested| && FirstMatches(items, names, requested)[k] == x;
    }
  }

  /** For each requested name, in request order, the item under the first
      occurrence of that name. */
  function FirstMatches<T>(items: seq<T>, names: seq<string>, requested: seq<string>): (r: seq<T>)
    requires |items| == |names| && AllIn(requested, names)
    ensures |r| == |requested|
    ensures forall k :: 0 <= k < |requested| ==> r[k] == items[FirstIndex(names, requested[k])]
  {
    if requested == [] then []
    else
      var last := requested[|requested| - 1];
      assert last in names;
      FirstMatches(items, names, requested[..|requested| - 1]) + [items[FirstIndex(names, last)]]
  }

  /** The first component with the given name. */
  function FirstNamed(items: seq<Component>, name: string): Component
    reads items
    requires name in NamesOf(items)
  {
    items[FirstIndex(NamesOf(items), name)]
  }

  /** The last base named `Classic` has a nonzero price, so dividing by it is
      defined (Java's division by zero yields an IEEE infinity or NaN, which
      the model does not follow). */
  predicate ClassicPriceNonzero(bases: seq<Component>)
    reads bases
  {
    Classic in NamesOf(bases) ==> bases[LastIndex(NamesOf(bases), Classic)].price != 0.0
  }

  /** No base, priced in percent of `classicPrice`, exceeds 120. */
  predicate WithinCeiling(bases: seq<Component>, classicPrice: real)
    reads bases
    requires classicPrice != 0.0
  {
    forall j :: 0 <= j < |bases| ==> 100.0 * bases[j].price / classicPrice <= 120.0
  }

  /** The base check of `readIngredientsFromFile`: a base named `Classic`
      exists and no base costs more than 120 percent of the LAST such base. */
  predicate BasesAccepted(bases: seq<Component>)
    reads bases
    requires ClassicPriceNonzero(bases)
  {
    Classic in NamesOf(bases) &&
    WithinCeiling(bases, bases[LastIndex(NamesOf(bases), Classic)].price)
  }

  /** The loop of `readIngredientsFromFile` over the base records: each is
      appended to the menu's base list, and `classic` ends as the last one
      named `Classic`. */
  method ReadBases(parsedBases: seq<Component>) returns (read: seq<Component>, classic: Component?)
    ensures read == parsedBases
    ensures classic == if Classic in NamesOf(parsedBases)
                       then parsedBases[LastIndex(NamesOf(parsedBases), Classic)] else null
  {
    read, classic := [], null;
    ghost var names := NamesOf(parsedBases);
    for i := 0 to |parsedBases|
      invariant read == parsedBases[..i]
      invariant classic == if Classic in names[..i] then parsedBases[LastIndex(names[..i], Classic)] else null
    {
      var newBase := parsedBases[i];
      LastIndexStep(names[..i], names[i], Classic);
      assert names[..i + 1] == names[..i] + [names[i]];
      if newBase.name == Classic {
        classic := newBase;
      }
      read := read + [newBase];
    }
    assert names[..|parsedBases|] == names;
  }

  /** `checkBases(classic)`: every base, priced in percent of the classic
      one, stays at or below 120. */
  method CheckBases(bases: seq<Component>, classic: Component) returns (ok: bool)
    requires classic.price != 0.0
    ensures ok <==> WithinCeiling(bases, classic.price)
  {
    for i := 0 to |bases|
      invariant forall j :: 0 <= j < i ==> 100.0 * bases[j].price / classic.price <= 120.0
    {
      if 100.0 * bases[i].price / classic.price > 120.0 {
        return false;
      }
    }
    return true;
  }

  /** The base list the constructor keeps: the parsed bases when a base
      named `Classic` exists and `checkBases` accepts them against the last
      such base, and `None` (the nulled list) otherwise. */
  method ValidatedBases(parsedBases: seq<Component>) returns (bases: Option<seq<Component>>)
    requires ClassicPriceNonzero(parsedBases)
    ensures bases == if BasesAccepted(parsedBases) then Some(parsedBases) else None
  {
    var read, classic := ReadBases(parsedBases);
    if classic == null {
      return None;
    }
    var ok := CheckBases(read, classic);
    bases := if ok then Some(read) else None;
  }

  /** `Menu`: the catalogue. `pizzaBases` is `null` (here `None`) once the
      base check has failed. */
  class Menu {
    var ingredients: seq<Component>
    var bases: Option<seq<Component>>
    var pizzas: seq<Pizza>
    var sides: seq<Component>

    /** The list behind a shelf, or `None` for the nulled base list. */
    function Shelved(shelf: Shelf): Option<seq<Component>>
      reads this
    {
      match shelf
      case Ingredients => Some(ingredients)
      case Bases => bases
      case Sides => Some(sides)
    }

    function ShelfItems(shelf: Shelf): set<Component>
      reads this
    {
      match Shelved(shelf)
      case None => {}
      case Some(s) => set c | c in s
    }

    function PizzaItems(): set<Pizza>
      reads this
    {
      set p | p in pizzas
    }

    /** The part of the constructor (via `readIngredientsFromFile`) that
        validates the bases, given the records already parsed from the
        files. Each base is appended while `classic` keeps the last one
        named `Classic`; if there is none, or `checkBases` fails, the
        exception handler sets the base list to null. */
    constructor (ingredients: seq<Component>, sides: seq<Component>, parsedBases: seq<Component>)
      requires ClassicPriceNonzero(parsedBases)
      ensures this.ingredients == ingredients && this.sides == sides && pizzas == []
      ensures bases == if BasesAccepted(parsedBases) then Some(parsedBases) else None
    {
      var checked := ValidatedBases(parsedBases);
      this.ingredients := ingredients;
      this.sides := sides;
      pizzas := [];
      bases := checked;
    }

    /** `searchInMenu(list, names...)`: for each requested name, in order, a
        scan of the list from the front that stops at the first element with
        that name; a name with no match throws. */
    method SearchInMenu<T>(items: seq<T>, names: seq<string>, requested: seq<string>) returns (r: Outcome<seq<T>>)
      requires |items| == |names|
      ensures r.Ok? <==> AllIn(requested, names)
      ensures r.Ok? ==> r.value == FirstMatches(items, names, requested)
      ensures r.Err? ==> r.error == IllegalArgument
    {
      var found: seq<T> := [];
      for k := 0 to |requested|
        invariant AllIn(requested[..k], names)
        invariant found == FirstMatches(items, names, requested[..k])
      {
        assert requested[..k + 1][..k] == requested[..k];
        var flag := false;
        var j := 0;
        while j < |items| && !flag
          invariant j <= |items|
          decreases |items| - j, !flag
          invariant forall m :: 0 <= m < j ==> names[m] != requested[k]
          invariant !flag ==> found == FirstMatches(items, names, requested[..k])
          invariant flag ==> j < |items| && names[j] == requested[k]
          invariant flag ==> found == FirstMatches(items, names, requested[..k]) + [items[j]]
        {
          if requested[k] == names[j] {
            found := found + [items[j]];
            flag := true;
          } else {
            j := j + 1;
          }
        }
        if !flag {
          assert requested[k] !in names;
          return Err(IllegalArgument);
        }
        assert FirstIndex(names, requested[k]) == j;
      }
      assert requested[..|requested|] == requested;
      return Ok(found);
    }

    /** `getIngredients(names...)`. */
    method GetIngredients(requested: seq<string>) returns (r: Outcome<seq<Component>>)
      ensures r.Ok? <==> AllIn(requested, NamesOf(ingredients))
      ensures r.Ok? ==> r.value == FirstMatches(ingredients, NamesOf(ingredients), requested)
      ensures r.Err? ==> r.error == IllegalArgument
    {
      r := SearchInMenu(ingredients, NamesOf(ingredients), requested);
    }

    /** `getBases(name)`: a null base list throws before any comparison. */
    method GetBase(name: string) returns (r: Outcome<Component>)
      ensures bases.None? ==> r == Err(NullPointer)
      ensures bases.Some? ==> (r.Ok? <==> name in NamesOf(bases.value))
      ensures bases.Some? && r.Ok? ==> r.value == FirstNamed(bases.value, name)
      ensures bases.Some? && r.Err? ==> r.error == IllegalArgument
    {
      if bases.None? {
        return Err(NullPointer);
      }
      var found := SearchInMenu(bases.value, NamesOf(bases.value), [name]);
      if found.Err? {
        return Err(found.error);
      }
      return Ok(found.value[0]);
    }

    /** `getSides(name)`. */
    method GetSide(name: string) returns (r: Outcome<Component>)
      ensures r.Ok? <==> name in NamesOf(sides)
      ensures r.Ok? ==> r.value == FirstNamed(sides, name)
      ensures r.Err? ==> r.error == IllegalArgument
    {
      var found := SearchInMenu(sides, NamesOf(sides), [name]);
      if found.Err? {
        return Err(found.error);
      }
      return Ok(found.value[0]);
    }

    /** `getPizza(name)`. */
    method GetPizza(name: string) returns (r: Outcome<Pizza>)
      ensures r.Ok? <==> name in PizzaNames(pizzas)
      ensures r.Ok? ==> r.value == pizzas[FirstIndex(PizzaNames(pizzas), name)]
      ensures r.Err? ==> r.error == IllegalArgument
    {
      var found := SearchInMenu(pizzas, PizzaNames(pizzas), [name]);
      if found.Err? {
        return Err(found.error);
      }
      return Ok(found.value[0]);
    }

    /** `change(name, newName, newPrice, list)`: the first component of the
        list with that name is renamed and repriced in place, so every list
        and piece holding that object sees the change. The bases list may be
        null, and a null list fails in the scan. */
    method Change(shelf: Shelf, name: string, newName: string, newPrice: real) returns (r: Outcome<()>)
      modifies ShelfItems(shelf)
      ensures Shelved(shelf) == old(Shelved(shelf))
      ensures Shelved(shelf).None? ==> r == Err(NullPointer)
      ensures Shelved(shelf).Some? ==> (r.Ok? <==> name in old(NamesOf(Shelved(shelf).value)))
      ensures Shelved(shelf).Some? && r.Err? ==> r.error == IllegalArgument
      ensures r.Ok? ==>
        var s := Shelved(shelf).value;
        var c := s[FirstIndex(old(NamesOf(s)), name)];
        c.name == newName && c.price == newPrice && c.pizzasUsed == old(c.pizzasUsed) &&
        forall x :: x in s && x != c ==> x.name == old(x.name) && x.price == old(x.price) && x.pizzasUsed == old(x.pizzasUsed)
      ensures r.Err? ==> unchanged(ShelfItems(shelf))
    {
      if Shelved(shelf).None? {
        return Err(NullPointer);
      }
      var s := Shelved(shelf).value;
      var found := SearchInMenu(s, NamesOf(s), [name]);
      if found.Err? {
        return Err(found.error);
      }
      var c := found.value[0];
      c.SetName(newName);
      c.SetPrice(newPrice);
      return Ok(());
    }

    /** `change(name, newName, newPrice, sides, newListOfPizzasUsed)`: as
        `change`, and also replaces the side's list of pizza names. */
    method ChangeSide(name: string, newName: string, newPrice: real, newList: seq<string>) returns (r: Outcome<()>)
      modifies ShelfItems(Sides)
      ensures r.Ok? <==> name in old(NamesOf(sides))
      ensures r.Err? ==> r.error == IllegalArgument && unchanged(ShelfItems(Sides))
      ensures r.Ok? ==>
        var c := sides[FirstIndex(old(NamesOf(sides)), name)];
        c.name == newName && c.price == newPrice && c.pizzasUsed == newList &&
        forall x :: x in sides && x != c ==> x.name == old(x.name) && x.price == old(x.price) && x.pizzasUsed == old(x.pizzasUsed)
    {
      var found := SearchInMenu(sides, NamesOf(sides), [name]);
      if found.Err? {
        return Err(found.error);
      }
      var c := found.value[0];
      c.SetName(newName);
      c.SetPrice(newPrice);
      c.SetListOfPizzasUsed(newList);
      return Ok(());
    }

    /** The pieces of every pizza on the menu. */
    function PieceItems(): set<Piece>
      reads this, pizzas
    {
      set p, q | p in pizzas && q in p.pieces :: q
    }

    /** `change(name, position, newName, newIngredients, newBase)`: renames
        the first pizza with that name and swaps its base (which reprices
        it), then replaces the ingredients of the piece at `position`. A
        position outside the piece array throws only after the name and
        base have been changed. */
    method ChangePizza(name: string, position: int, newName: string, newIngredients: seq<Component>, newBase: Component)
      returns (r: Outcome<()>)
      modifies PizzaItems(), PieceItems()
      ensures pizzas == old(pizzas)
      ensures name !in old(PizzaNames(pizzas)) ==> r == Err(IllegalArgument)
      ensures name in old(PizzaNames(pizzas)) ==>
        var p := pizzas[FirstIndex(old(PizzaNames(pizzas)), name)];
        p.name == newName && p.pizzaBase == newBase && p.pieces == old(p.pieces) && p.PriceCurrent() &&
        if 0 <= position < |p.pieces| then
          r.Ok? && p.pieces[position].ingredients == newIngredients &&
          p.pieces[position].side == old(p.pieces[position].side) && p.pieces[position].PriceCurrent()
        else
          r == Err(IndexOutOfBounds)
      ensures name !in old(PizzaNames(pizzas)) ==> unchanged(old(PizzaItems())) && unchanged(old(PieceItems()))
      ensures name in old(PizzaNames(pizzas)) ==>
        var p := pizzas[FirstIndex(old(PizzaNames(pizzas)), name)];
        unchanged(old(PizzaItems()) - {p}) &&
        unchanged(old(PieceItems()) - if 0 <= position < |p.pieces| then {p.pieces[position]} else {})
    {
      ghost var items := PieceItems();
      var found := SearchInMenu(pizzas, PizzaNames(pizzas), [name]);
      if found.Err? {
        return Err(found.error);
      }
      var p := found.value[0];
      assert forall q :: q in p.pieces ==> q in items;
      r := p.Revise(position, newName, newIngredients, newBase);
    }

    /** `addPizzaSides`: a new side is appended at the end. */
    method AddPizzaSides(name: string, price: real, pizzasUsed: seq<string>)
      modifies this`sides
      ensures |sides| == |old(sides)| + 1 && sides[..|old(sides)|] == old(sides)
      ensures fresh(sides[|sides| - 1])
      ensures sides[|sides| - 1].name == name && sides[|sides| - 1].price == price
      ensures sides[|sides| - 1].pizzasUsed == pizzasUsed
    {
      var c := new Component(name, price, pizzasUsed);
      sides := sides + [c];
    }

    /** `addIngredient`: a new ingredient is appended at the end. */
    method AddIngredient(name: string, price: real)
      modifies this`ingredients
      ensures |ingredients| == |old(ingredients)| + 1 && ingredients[..|old(ingredients)|] == old(ingredients)
      ensures fresh(ingredients[|ingredients| - 1])
      ensures ingredients[|ingredients| - 1].name == name && ingredients[|ingredients| - 1].price == price
    {
      var c := new Component(name, price, []);
      ingredients := ingredients + [c];
    }

    /** `addBase`: a new base is appended at the end; on a nulled base list
        the call throws. */
    method AddBase(name: string, price: real) returns (r: Outcome<()>)
      modifies this`bases
      ensures old(bases).None? ==> r == Err(NullPointer) && bases == None
      ensures old(bases).Some? ==>
        r == Ok(()) && bases.Some? &&
        |bases.value| == |old(bases).value| + 1 && bases.value[..|old(bases).value|] == old(bases).value &&
        fresh(bases.value[|bases.value| - 1]) &&
        bases.value[|bases.value| - 1].name == name && bases.value[|bases.value| - 1].price == price
    {
      if bases.None? {
        return Err(NullPointer);
      }
      var c := new Component(name, price, []);
      bases := Some(bases.value + [c]);
      return Ok(());
    }

    /** `addPizza`: the given pizza object is appended at the end. */
    method AddPizza(pizza: Pizza)
      modifies this`pizzas
      ensures pizzas == old(pizzas) + [pizza]
    {
      pizzas := pizzas + [pizza];
    }

    /** `delete(name, list)` on any list: the first element with that name
        is looked up, then `LinkedList.remove` drops the first element
        identical to it. Identical elements carry the same name, so that is
        the same slot. */
    method RemoveFirstNamed<T(==)>(items: seq<T>, names: seq<string>, name: string) returns (r: Outcome<seq<T>>)
      requires |items| == |names|
      requires forall i, j :: 0 <= i < |items| && 0 <= j < |items| && items[i] == items[j] ==> names[i] == names[j]
      ensures r.Ok? <==> name in names
      ensures r.Ok? ==> r.value == RemoveAt(items, FirstIndex(names, name))
      ensures r.Err? ==> r.error == IllegalArgument
    {
      var found := SearchInMenu(items, names, [name]);
      if found.Err? {
        return Err(found.error);
      }
      ghost var k := FirstIndex(names, name);
      assert found.value[0] == items[k];
      var i := RemoveIndex(items, found.value[0]);
      assert names[i] == name;
      return Ok(RemoveAt(items, i));
    }

    /** Replaces the list behind a shelf. */
    method Shelve(shelf: Shelf, items: seq<Component>)
      modifies this`ingredients, this`bases, this`sides
      ensures Shelved(shelf) == Some(items)
      ensures shelf != Ingredients ==> ingredients == old(ingredients)
      ensures shelf != Bases ==> bases == old(bases)
      ensures shelf != Sides ==> sides == old(sides)
    {
      match shelf {
        case Ingredients => ingredients := items;
        case Bases => bases := Some(items);
        case Sides => sides := items;
      }
    }

    /** `delete(name, list)` on one of the menu's lists; the nulled base list
        throws. */
    method Delete(shelf: Shelf, name: string) returns (r: Outcome<()>)
      modifies this`ingredients, this`bases, this`sides
      ensures old(Shelved(shelf)).None? ==> r == Err(NullPointer)
      ensures old(Shelved(shelf)).Some? ==> (r.Ok? <==> name in NamesOf(old(Shelved(shelf)).value))
      ensures old(Shelved(shelf)).Some? && r.Err? ==> r.error == IllegalArgument
      ensures Shelved(shelf) ==
        if r.Ok? then Some(RemoveAt(old(Shelved(shelf)).value, FirstIndex(NamesOf(old(Shelved(shelf)).value), name)))
        else old(Shelved(shelf))
      ensures shelf != Ingredients ==> ingredients == old(ingredients)
      ensures shelf != Bases ==> bases == old(bases)
      ensures shelf != Sides ==> sides == old(sides)
    {
      var list := Shelved(shelf);
      if list.None? {
        return Err(NullPointer);
      }
      var rest := RemoveFirstNamed(list.value, NamesOf(list.value), name);
      if rest.Err? {
        return Err(rest.error);
      }
      Shelve(shelf, rest.value);
      return Ok(());
    }

    /** `delete(name, pizzas)`: as `delete`, on the pizza list. */
    method DeletePizza(name: string) returns (r: Outcome<()>)
      modifies this`pizzas
      ensures r.Ok? <==> name in PizzaNames(old(pizzas))
      ensures r.Err? ==> r.error == IllegalArgument && pizzas == old(pizzas)
      ensures r.Ok? ==> pizzas == RemoveAt(old(pizzas), FirstIndex(PizzaNames(old(pizzas)), name))
    {
      var rest := RemoveFirstNamed(pizzas, PizzaNames(pizzas), name);
      if rest.Err? {
        return Err(rest.error);
      }
      pizzas := rest.value;
      return Ok(());
    }
  }

  /** The scan of `LinkedList.remove(Object)`: the index of the first element
      equal to `x`; without an `equals` override that is identity. */
  method RemoveIndex<T(==)>(s: seq<T>, x: T) returns (i: nat)
    requires x in s
    ensures i == FirstIndex(s, x)
  {
    i := 0;
    while s[i] != x
      invariant i <= FirstIndex(s, x)
      decreases FirstIndex(s, x) - i
    {
      i := i + 1;
    }
  }

  /** Sum of the stored prices of a list of pizzas. */
  function SumPizzaPrices(s: seq<Pizza>): real
    reads s
  {
    if s == [] then 0.0 else SumPizzaPrices(s[..|s| - 1]) + s[|s| - 1].price
  }

  lemma SumPizzaPricesStep(s: seq<Pizza>, i: nat)
    requires i < |s|
    ensures SumPizzaPrices(s[..i + 1]) == SumPizzaPrices(s[..i]) + s[i].price
  {
    assert s[..i + 1][..i] == s[..i];
  }

  /** `Order`: the pizzas, a comment, the day it was placed, an optional
      later day, and an id. `LocalDate.now()` and `UUID.randomUUID()` are
      parameters. */
  class Order {
    var price: real
    var orderNumber: OrderId
    var pizzas: seq<Pizza>
    var comments: string
    var date: Date
    var postponedDate: Option<Date>

    constructor (newPizzas: seq<Pizza>, comments: string, postponedDate: Option<Date>, today: Date, id: OrderId)
      ensures pizzas == newPizzas && this.comments == comments && date == today && orderNumber == id
      ensures this.postponedDate == postponedDate
      ensures price == SumPizzaPrices(newPizzas)
    {
      pizzas := newPizzas;
      this.comments := comments;
      date := today;
      orderNumber := id;
      this.postponedDate := postponedDate;
      new;
      price := GetPrice();
    }

    /** `getPrice`: sums the pizzas' current stored prices on every call;
        the `price` field set by the constructor is never read back. */
    method GetPrice() returns (total: real)
      ensures total == SumPizzaPrices(pizzas)
    {
      total := 0.0;
      for i := 0 to |pizzas|
        invariant total == SumPizzaPrices(pizzas[..i])
      {
        SumPizzaPricesStep(pizzas, i);
        total := total + pizzas[i].price;
      }
      assert pizzas[..|pizzas|] == pizzas;
    }
  }

  /** Every ingredient row names only listed ingredients. */
  predicate RowsResolve(rows: seq<seq<string>>, names: seq<string>)
  {
    forall i :: 0 <= i < |rows| ==> AllIn(rows[i], names)
  }

  /** `PizzaConstructor`: the menu and the log of orders. */
  class PizzaConstructor {
    var savedOrder: seq<Order>
    var menu: Menu

    constructor (menu: Menu)
      ensures this.menu == menu && savedOrder == []
    {
      this.menu := menu;
      savedOrder := [];
    }

    /** `createNewPizza(doubled, numberOfPieces, names...)`: looks the
        pizzas up on the menu and changes the menu's own pizza objects in
        place, one after another, as `ResizeAndDouble` describes. No pizza
        price is recomputed. */
    method CreateNewPizzaFromMenu(doubled: bool, numberOfPieces: int, names: seq<string>) returns (r: Outcome<seq<Pizza>>)
      requires AllIn(names, PizzaNames(menu.pizzas)) ==>
        forall p :: p in FirstMatches(menu.pizzas, PizzaNames(menu.pizzas), names) && numberOfPieces > |p.pieces| ==>
          |p.pieces| > 0
      modifies menu.pizzas, PiecesOf(menu.pizzas)
      ensures menu.pizzas == old(menu.pizzas)
      ensures r.Err? || !doubled ==> unchanged(old(PiecesOf(menu.pizzas)))
      ensures r.Ok? <==> AllIn(names, old(PizzaNames(menu.pizzas))) && (numberOfPieces >= 0 || names == [])
      ensures r.Err? ==> r.error == (if AllIn(names, old(PizzaNames(menu.pizzas))) then NegativeArraySize else IllegalArgument)
      ensures r.Ok? ==> r.value == FirstMatches(menu.pizzas, old(PizzaNames(menu.pizzas)), names)
      ensures r.Ok? ==> forall p :: p in r.value ==>
        p.pieces == Resized(old(p.pieces), numberOfPieces) && p.price == old(p.price) && p.name == old(p.name)
      ensures forall p :: p in menu.pizzas ==> p.pizzaBase == old(p.pizzaBase)
      ensures forall p :: p in menu.pizzas && (r.Err? || p !in r.value) ==>
        p.name == old(p.name) && p.pieces == old(p.pieces) && p.price == old(p.price)
    {
      var found := menu.SearchInMenu(menu.pizzas, PizzaNames(menu.pizzas), names);
      if found.Err? {
        return Err(found.error);
      }
      FirstMatchesIn(menu.pizzas, PizzaNames(menu.pizzas), names);
      r := ResizeOnMenu(menu.pizzas, PiecesOf(menu.pizzas), found.value, doubled, numberOfPieces);
    }

    /** The lookups of the custom `createNewPizza` all succeed: the base list
        is there and has the base, and every side and every ingredient of
        every row is on the menu. */
    predicate CustomResolves(baseName: string, sideNames: seq<string>, rows: seq<seq<string>>)
      reads this, menu, menu.ingredients, menu.sides
      reads if menu.bases.Some? then menu.bases.value else []
    {
      menu.bases.Some? && baseName in NamesOf(menu.bases.value) &&
      AllIn(sideNames, NamesOf(menu.sides)) && RowsResolve(rows, NamesOf(menu.ingredients))
    }

    /** `createNewPizza(name, base, sides, ingredients)`: the base and the
        sides are looked up, then row `i` of ingredient names becomes a new
        piece with the `i`-th side, taken off the front of the looked-up
        list. With more rows than sides the side taken is null and pricing
        the piece throws; with fewer, `toArray` pads the piece array with
        nulls and pricing the pizza throws. */
    method CreateNewPizza(namePizza: string, baseName: string, sideNames: seq<string>, rows: seq<seq<string>>)
      returns (r: Outcome<Pizza>)
      ensures old(menu.bases).None? ==> r == Err(NullPointer)
      ensures old(menu.bases.Some? && baseName !in NamesOf(menu.bases.value)) ==> r == Err(IllegalArgument)
      ensures old(menu.bases.Some? && baseName in NamesOf(menu.bases.value) && !AllIn(sideNames, NamesOf(menu.sides))) ==>
        r == Err(IllegalArgument)
      ensures r.Ok? <==> old(CustomResolves(baseName, sideNames, rows)) && |rows| == |sideNames|
      ensures old(CustomResolves(baseName, sideNames, rows)) && |rows| != |sideNames| ==> r == Err(NullPointer)
      ensures r.Ok? ==>
        var p := r.value;
        fresh(p) && p.name == namePizza && p.pizzaBase == old(FirstNamed(menu.bases.value, baseName)) &&
        |p.pieces| == |rows| && p.PriceCurrent()
      ensures r.Ok? ==> forall i :: 0 <= i < |rows| ==>
        fresh(r.value.pieces[i]) &&
        r.value.pieces[i].side == old(FirstMatches(menu.sides, NamesOf(menu.sides), sideNames))[i] &&
        r.value.pieces[i].ingredients == old(FirstMatches(menu.ingredients, NamesOf(menu.ingredients), rows[i]))
    {
      var base := menu.GetBase(baseName);
      if base.Err? {
        return Err(base.error);
      }
      var sides := menu.SearchInMenu(menu.sides, NamesOf(menu.sides), sideNames);
      if sides.Err? {
        return Err(sides.error);
      }
      var newPieces := NewPieces(sides.value, rows);
      if newPieces.Err? {
        return Err(newPieces.error);
      }
      if |newPieces.value| < |sideNames| {
        return Err(NullPointer);
      }
      var pizza := new Pizza(namePizza, base.value, newPieces.value);
      return Ok(pizza);
    }

    /** The loop of the custom `createNewPizza`: row `i` is looked up and
        becomes a new piece with the `i`-th side; a row beyond the last side
        gets a null side, which the piece's price update dereferences. The
        lookups are done first (`LookUpRows`) and the pieces made after
        (`MakePieces`); making a piece has no effect that a later lookup
        could observe, so the outcome is the same. */
    method NewPieces(sides: seq<Component>, rows: seq<seq<string>>) returns (r: Outcome<seq<Piece>>)
      ensures r.Ok? <==> old(RowsResolve(rows, NamesOf(menu.ingredients))) && |rows| <= |sides|
      ensures r.Err? ==> r.error == IllegalArgument || r.error == NullPointer
      ensures old(RowsResolve(rows, NamesOf(menu.ingredients))) && |rows| > |sides| ==> r == Err(NullPointer)
      ensures r.Ok? ==> |r.value| == |rows|
      ensures r.Ok? ==> forall i :: 0 <= i < |rows| ==>
        fresh(r.value[i]) && r.value[i].side == sides[i] && r.value[i].PriceCurrent() &&
        r.value[i].ingredients == old(FirstMatches(menu.ingredients, NamesOf(menu.ingredients), rows[i]))
    {
      var lists := LookUpRows(|sides|, rows);
      if lists.Err? {
        return Err(lists.error);
      }
      var pieces := MakePieces(sides[..|rows|], lists.value);
      return Ok(pieces);
    }

    /** The lookups of the loop of the custom `createNewPizza`, in row order;
        row `i` fails first on a missing ingredient, then on a missing side. */
    method LookUpRows(sideCount: nat, rows: seq<seq<string>>) returns (r: Outcome<seq<seq<Component>>>)
      ensures r.Ok? <==> RowsResolve(rows, NamesOf(menu.ingredients)) && |rows| <= sideCount
      ensures r.Err? ==> r.error == IllegalArgument || r.error == NullPointer
      ensures RowsResolve(rows, NamesOf(menu.ingredients)) && |rows| > sideCount ==> r == Err(NullPointer)
      ensures r.Ok? ==> |r.value| == |rows| && forall i :: 0 <= i < |rows| ==>
        r.value[i] == FirstMatches(menu.ingredients, NamesOf(menu.ingredients), rows[i])
    {
      var all, names := menu.ingredients, NamesOf(menu.ingredients);
      var lists: seq<seq<Component>> := [];
      for i := 0 to |rows|
        invariant |lists| == i <= sideCount
        invariant forall j :: 0 <= j < i ==> AllIn(rows[j], names) && lists[j] == FirstMatches(all, names, rows[j])
      {
        var ingredients := menu.SearchInMenu(all, names, rows[i]);
        if ingredients.Err? {
          assert !AllIn(rows[i], names);
          return Err(ingredients.error);
        }
        if i == sideCount {
          return Err(NullPointer);
        }
        lists := lists + [ingredients.value];
      }
      return Ok(lists);
    }

    /** `createOrder`: a new order is appended to the log and returned. */
    method CreateOrder(pizzas: seq<Pizza>, comments: string, postponedDate: Option<Date>, today: Date, id: OrderId)
      returns (order: Order)
      modifies this`savedOrder
      ensures fresh(order) && savedOrder == old(savedOrder) + [order]
      ensures order.pizzas == pizzas && order.comments == comments && order.date == today
      ensures order.postponedDate == postponedDate && order.orderNumber == id
      ensures order.price == SumPizzaPrices(pizzas)
    {
      order := new Order(pizzas, comments, postponedDate, today, id);
      savedOrder := savedOrder + [order];
    }
  }

  /** Every piece of every pizza in the list. */
  function PiecesOf(pizzas: seq<Pizza>): set<Piece>
    reads pizzas
  {
    set p, q | p in pizzas && q in p.pieces :: q
  }

  /** The body of the loop of `createNewPizza(doubled, ...)` for one pizza:
      `setNumberOfPieces`, then, if `doubled`, `DoubleEachPiece` over the new
      slots. After growing a pizza of distinct pieces from `m` to `n` slots,
      the old last piece fills `n - m + 1` of them (`ResizedLastCount`), so
      it is doubled that many times. */
  method ResizeAndDouble(pizza: Pizza, ghost items: set<Piece>, doubled: bool, numberOfPieces: int)
    returns (r: Outcome<()>)
    requires numberOfPieces > |pizza.pieces| ==> |pizza.pieces| > 0
    requires forall q :: q in pizza.pieces ==> q in items
    modifies pizza`pieces, items
    ensures r.Err? <==> numberOfPieces < 0
    ensures r.Err? ==> r.error == NegativeArraySize && pizza.pieces == old(pizza.pieces)
    ensures r.Ok? ==> pizza.pieces == Resized(old(pizza.pieces), numberOfPieces)
    ensures forall q :: q in pizza.pieces ==> q in old(pizza.pieces)
    ensures r.Ok? && doubled ==> forall q :: q in pizza.pieces ==>
      q.ingredients == Doubled(old(q.ingredients), Count(pizza.pieces, q)) && q.PriceCurrent()
    ensures r.Ok? && !doubled ==> forall q :: q in old(pizza.pieces) ==> q.ingredients == old(q.ingredients)
    ensures r.Err? || !doubled ==> unchanged(items)
    ensures r.Ok? && doubled ==> forall q :: q in items && q !in pizza.pieces ==> unchanged(q)
    ensures r.Ok? && doubled ==> forall q :: q in pizza.pieces ==> q.side == old(q.side)
  {
    r := pizza.SetNumberOfPieces(numberOfPieces);
    if r.Err? {
      return;
    }
    forall q | q in pizza.pieces
      ensures q in old(pizza.pieces)
    {
      ResizedElements(old(pizza.pieces), numberOfPieces, q);
    }
    if doubled {
      DoubleEachPiece(pizza.pieces);
    }
  }

  /** The loop of `createNewPizza(doubled, ...)` over the looked-up pizzas,
      which may repeat a pizza; resizing twice to the same count is resizing
      once. A negative count fails on the first pizza, before any change. */
  method ResizeAll(pizzas: seq<Pizza>, ghost items: set<Piece>, doubled: bool, numberOfPieces: int) returns (r: Outcome<()>)
    requires forall p :: p in pizzas && numberOfPieces > |p.pieces| ==> |p.pieces| > 0
    requires forall p, q :: p in pizzas && q in p.pieces ==> q in items
    modifies pizzas, items
    ensures r.Err? <==> numberOfPieces < 0 && pizzas != []
    ensures r.Err? ==> r.error == NegativeArraySize
    ensures r.Ok? ==> forall p :: p in pizzas ==>
      p.pieces == Resized(old(p.pieces), numberOfPieces) && p.price == old(p.price) && p.name == old(p.name)
    ensures forall p :: p in pizzas ==> p.pizzaBase == old(p.pizzaBase)
    ensures r.Err? ==> forall p :: p in pizzas ==> p.pieces == old(p.pieces) && p.price == old(p.price) && p.name == old(p.name)
    ensures r.Err? || !doubled ==> unchanged(items)
  {
    ghost var done: set<Pizza> := {};
    ghost var count: nat := if numberOfPieces < 0 then 0 else numberOfPieces;
    for k := 0 to |pizzas|
      invariant forall p, q :: p in pizzas && q in p.pieces ==> q in items
      invariant k > 0 ==> numberOfPieces >= 0
      invariant numberOfPieces >= 0 ==> count == numberOfPieces
      invariant forall i :: 0 <= i < k ==> pizzas[i] in done
      invariant forall p :: p in pizzas ==> p.name == old(p.name) && p.price == old(p.price) && p.pizzaBase == old(p.pizzaBase)
      invariant forall p :: p in done ==> p in pizzas && p.pieces == Resized(old(p.pieces), count)
      invariant forall p :: p in pizzas && p !in done ==> p.pieces == old(p.pieces)
      invariant k == 0 ==> done == {}
      invariant k == 0 ==> unchanged(items)
      invariant !doubled ==> unchanged(items)
    {
      var pizza := pizzas[k];
      r := ResizeAt(pizzas, pizza, items, doubled, numberOfPieces);
      if r.Err? {
        return;
      }
      if pizza in done {
        ResizedTwice(old(pizza.pieces), count);
      }
      done := done + {pizza};
    }
    r := Ok(());
  }

  /** One round of `ResizeAll`: `ResizeAndDouble` on one of the pizzas,
      seen from the whole list: no other pizza and no other field changes. */
  method ResizeAt(pizzas: seq<Pizza>, pizza: Pizza, ghost items: set<Piece>, doubled: bool, numberOfPieces: int)
    returns (r: Outcome<()>)
    requires pizza in pizzas
    requires numberOfPieces > |pizza.pieces| ==> |pizza.pieces| > 0
    requires forall p, q :: p in pizzas && q in p.pieces ==> q in items
    modifies pizza`pieces, items
    ensures r.Err? <==> numberOfPieces < 0
    ensures r.Err? ==> r.error == NegativeArraySize
    ensures r.Ok? ==> pizza.pieces == Resized(old(pizza.pieces), numberOfPieces)
    ensures forall p :: p in pizzas && (p != pizza || r.Err?) ==> p.pieces == old(p.pieces)
    ensures forall p, q :: p in pizzas && q in p.pieces ==> q in items
    ensures r.Err? || !doubled ==> unchanged(items)
  {
    r := ResizeAndDouble(pizza, items, doubled, numberOfPieces);
  }

  /** `ResizeAll` over pizzas looked up on a menu's list of pizzas: those
      not looked up and every pizza's base stay as they were, and a failure
      changes nothing; `pieces` is every piece of the menu's pizzas, and
      without doubling none of them changes either. */
  method ResizeOnMenu(menuPizzas: seq<Pizza>, ghost pieces: set<Piece>, pizzas: seq<Pizza>, doubled: bool, numberOfPieces: int)
    returns (r: Outcome<seq<Pizza>>)
    requires pieces == PiecesOf(menuPizzas)
    requires forall i :: 0 <= i < |pizzas| ==> pizzas[i] in menuPizzas
    requires forall p :: p in pizzas && numberOfPieces > |p.pieces| ==> |p.pieces| > 0
    modifies menuPizzas, pieces
    ensures r.Ok? <==> numberOfPieces >= 0 || pizzas == []
    ensures r.Err? ==> r.error == NegativeArraySize
    ensures r.Ok? ==> r.value == pizzas
    ensures r.Ok? ==> forall p :: p in pizzas ==>
      p.pieces == Resized(old(p.pieces), numberOfPieces) && p.price == old(p.price) && p.name == old(p.name)
    ensures forall p :: p in menuPizzas ==> p.pizzaBase == old(p.pizzaBase)
    ensures forall p :: p in menuPizzas && (r.Err? || p !in pizzas) ==>
      p.name == old(p.name) && p.pieces == old(p.pieces) && p.price == old(p.price)
    ensures r.Err? || !doubled ==> unchanged(pieces)
  {
    var step := ResizeAll(pizzas, pieces, doubled, numberOfPieces);
    if step.Err? {
      return Err(step.error);
    }
    return Ok(pizzas);
  }

  /** `new PieceOfPizza(side, ingredients)` for each pair, in order. */
  method MakePieces(sides: seq<Component>, lists: seq<seq<Component>>) returns (pieces: seq<Piece>)
    requires |sides| == |lists|
    ensures |pieces| == |lists|
    ensures forall i :: 0 <= i < |lists| ==>
      fresh(pieces[i]) && pieces[i].side == sides[i] && pieces[i].ingredients == lists[i] && pieces[i].PriceCurrent()
  {
    pieces := [];
    for i := 0 to |lists|
      invariant |pieces| == i
      invariant forall j :: 0 <= j < i ==>
        fresh(pieces[j]) && pieces[j].side == sides[j] && pieces[j].ingredients == lists[j] && pieces[j].PriceCurrent()
    {
      var piece := new Piece(sides[i], lists[i]);
      pieces := pieces + [piece];
    }
  }
}
