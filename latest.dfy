/** The latest version of the program (src/BasicLogic/Constructor.java),
    catalogue side: components compare equal by name, a pizza is refused
    unless every piece's side lists the pizza's name, doubling a piece's
    ingredients leaves its stored price alone, the base check measures
    against the FIRST classic base, and menu lookups go through a name map
    that throws on duplicate names and yields null for a missing one. */
module Latest {
  import opened Outcomes
  import opened Seqs
  import opened Components
  import Early

  /** `AbstractComponent.equals` between two components: the same object,
      or another one with the same name. Identity already implies equal
      names, so the answer depends on the names alone. */
  function SameName(a: Component, b: Component): (r: bool)
    reads a, b
    ensures r <==> a.name == b.name
  {
    a == b || a.name == b.name
  }

  /** `PizzaSides(String[])`: a side read from one line of tokens. The name
      comes first and the price second (the result of `Double.parseDouble`
      is the parameter `price`); every further token names a pizza the side
      may go with, and a line with no such token is refused. */
  method NewSide(tokens: seq<string>, price: real) returns (r: Outcome<Component>)
    ensures |tokens| < 2 ==> r == Err(IndexOutOfBounds)
    ensures |tokens| == 2 ==> r == Err(IllegalArgument)
    ensures r.Ok? <==> |tokens| >= 3
    ensures r.Ok? ==> fresh(r.value) && r.value.name == tokens[0] && r.value.price == price
    ensures r.Ok? ==> r.value.pizzasUsed == tokens[2..]
  {
    if |tokens| < 2 {
      return Err(IndexOutOfBounds);
    }
    if |tokens| < 3 {
      return Err(IllegalArgument);
    }
    var side := new Component(tokens[0], price, tokens[2..]);
    return Ok(side);
  }

  /** `PieceOfPizza`: a side with its ingredients and a stored price. */
  class Piece {
    var price: real
    var side: Component
    var ingredients: seq<Component>

    /** The stored price agrees with the side and ingredient prices. */
    predicate PriceCurrent()
      reads this, side, ingredients
    {
      price == side.price + SumPrices(ingredients)
    }

    constructor (side: Component, ingredients: seq<Component>)
      ensures this.side == side && this.ingredients == ingredients
      ensures PriceCurrent()
    {
      this.side := side;
      this.ingredients := ingredients;
      new;
      UpdatePrice();
    }

    /** `updatePrice`: the side price plus every ingredient price. */
    method UpdatePrice()
      modifies this`price
      ensures PriceCurrent()
    {
      price := side.price;
      for i := 0 to |ingredients|
        invariant price == side.price + SumPrices(ingredients[..i])
      {
        SumPricesStep(ingredients, i);
        price := price + ingredients[i].price;
      }
      assert ingredients[..|ingredients|] == ingredients;
    }

    method SetIngredients(newIngredients: seq<Component>)
      modifies this`ingredients, this`price
      ensures ingredients == newIngredients && side == old(side)
      ensures PriceCurrent()
    {
      ingredients := newIngredients;
      UpdatePrice();
    }

    method SetSides(newSide: Component)
      modifies this`side, this`price
      ensures side == newSide && ingredients == old(ingredients)
      ensures PriceCurrent()
    {
      side := newSide;
      UpdatePrice();
    }

    /** `doubleIngredients`: a copy of the list is appended to it, and the
        price is NOT recomputed, so a piece whose ingredients cost anything
        keeps the price of the undoubled piece. */
    method DoubleIngredients()
      modifies this`ingredients
      ensures ingredients == old(ingredients) + old(ingredients)
      ensures price == old(price) && side == old(side)
      ensures old(PriceCurrent()) && SumPrices(old(ingredients)) != 0.0 ==> !PriceCurrent()
    {
      ingredients := ingredients + ingredients;
      SumPricesAppend(old(ingredients), old(ingredients));
    }
  }

  /** Sum of the stored prices of a list of pieces. */
  function SumPiecePrices(s: seq<Piece>): real
    reads s
  {
    if s == [] then 0.0 else SumPiecePrices(s[..|s| - 1]) + s[|s| - 1].price
  }

  lemma SumPiecePricesStep(s: seq<Piece>, i: nat)
    requires i < |s|
    ensures SumPiecePrices(s[..i + 1]) == SumPiecePrices(s[..i]) + s[i].price
  {
    assert s[..i + 1][..i] == s[..i];
  }

  /** Every piece's side lists the pizza's name. */
  predicate SidesAllow(name: string, pieces: seq<Piece>)
    reads pieces, set p | p in pieces :: p.side
  {
    forall i :: 0 <= i < |pieces| ==> name in pieces[i].side.pizzasUsed
  }

  /** `Pizza`: a base and an array of pieces, priced from the pieces'
      stored prices. */
  class Pizza {
    var name: string
    var price: real
    var pizzaBase: Component
    var pieces: seq<Piece>

    /** The stored price agrees with the base and the pieces' stored prices. */
    predicate PriceCurrent()
      reads this, pizzaBase, pieces
    {
      price == pizzaBase.price + SumPiecePrices(pieces)
    }

    /** The part of `Pizza(name, base, pieces)` that runs once the side
        check has passed: the pizza is priced. */
    constructor (name: string, pizzaBase: Component, pieces: seq<Piece>)
      requires SidesAllow(name, pieces)
      ensures this.name == name && this.pizzaBase == pizzaBase && this.pieces == pieces
      ensures PriceCurrent()
    {
      this.name := name;
      this.pizzaBase := pizzaBase;
      this.pieces := pieces;
      new;
      PriceUpdate();
    }

    /** `Pizza(name, base, pieces)`: `checkSides` throws
        `IllegalArgumentException` unless every piece's side lists the name,
        so no pizza with a foreign side is ever made. */
    static method Create(name: string, pizzaBase: Component, pieces: seq<Piece>) returns (r: Outcome<Pizza>)
      ensures r.Ok? <==> SidesAllow(name, pieces)
      ensures r.Err? ==> r.error == IllegalArgument
      ensures r.Ok? ==> fresh(r.value) && r.value.name == name && r.value.pizzaBase == pizzaBase
      ensures r.Ok? ==> r.value.pieces == pieces && r.value.PriceCurrent()
    {
      var ok := CheckSides(name, pieces);
      if !ok {
        return Err(IllegalArgument);
      }
      var pizza := new Pizza(name, pizzaBase, pieces);
      return Ok(pizza);
    }

    /** `checkSides`: scans the pieces and stops at the first side that does
        not list the name. */
    static method CheckSides(name: string, pieces: seq<Piece>) returns (ok: bool)
      ensures ok <==> SidesAllow(name, pieces)
    {
      for i := 0 to |pieces|
        invariant forall j :: 0 <= j < i ==> name in pieces[j].side.pizzasUsed
      {
        if name !in pieces[i].side.pizzasUsed {
          return false;
        }
      }
      return true;
    }

    /** `priceUpdate`. */
    method PriceUpdate()
      modifies this`price
      ensures PriceCurrent()
    {
      price := pizzaBase.price;
      for i := 0 to |pieces|
        invariant price == pizzaBase.price + SumPiecePrices(pieces[..i])
      {
        SumPiecePricesStep(pieces, i);
        price := price + pieces[i].price;
      }
      assert pieces[..|pieces|] == pieces;
    }

    /** `setName`: the sides are not checked against the new name. */
    method SetName(newName: string)
      modifies this`name
      ensures name == newName
    {
      name := newName;
    }

    /** `setIngredients(position, list)`: one piece's ingredients are
        replaced, and that piece and the pizza are repriced. */
    method SetIngredients(position: int, newIngredients: seq<Component>) returns (r: Outcome<()>)
      modifies this`price, if 0 <= position < |pieces| then {pieces[position]} else {}
      ensures pieces == old(pieces)
      ensures r.Ok? <==> 0 <= position < |pieces|
      ensures r.Err? ==> r.error == IndexOutOfBounds && price == old(price)
      ensures r.Ok? ==>
        pieces[position].ingredients == newIngredients && pieces[position].side == old(pieces[position].side) &&
        pieces[position].PriceCurrent() && PriceCurrent()
    {
      if position < 0 || position >= |pieces| {
        return Err(IndexOutOfBounds);
      }
      pieces[position].SetIngredients(newIngredients);
      PriceUpdate();
      return Ok(());
    }

    method SetPizzaBase(newPizzaBase: Component)
      modifies this`pizzaBase, this`price
      ensures pizzaBase == newPizzaBase && pieces == old(pieces)
      ensures PriceCurrent()
    {
      pizzaBase := newPizzaBase;
      PriceUpdate();
    }

    /** `setSides(position, side)`: the piece gets the new side and both are
        repriced, but the side is not checked against the pizza's name, so
        a pizza that passed the side check can stop passing it. */
    method SetSides(position: int, newSide: Component) returns (r: Outcome<()>)
      modifies this`price, if 0 <= position < |pieces| then {pieces[position]} else {}
      ensures pieces == old(pieces)
      ensures r.Ok? <==> 0 <= position < |pieces|
      ensures r.Err? ==> r.error == IndexOutOfBounds && price == old(price)
      ensures r.Ok? ==>
        pieces[position].side == newSide && pieces[position].ingredients == old(pieces[position].ingredients) &&
        pieces[position].PriceCurrent() && PriceCurrent()
      ensures r.Ok? && name !in newSide.pizzasUsed ==> !SidesAllow(name, pieces)
    {
      if position < 0 || position >= |pieces| {
        return Err(IndexOutOfBounds);
      }
      pieces[position].SetSides(newSide);
      PriceUpdate();
      return Ok(());
    }

    /** `setNumberOfPieces(n)`: a count that is not positive is refused;
        otherwise `Arrays.copyOf` to the new length, and the grown slots
        are filled with the old last piece object. The price is not
        recomputed. Growing an empty pizza would index slot -1, which
        callers must avoid. */
    method SetNumberOfPieces(numberOfPieces: int) returns (r: Outcome<()>)
      requires numberOfPieces > |pieces| ==> |pieces| > 0
      modifies this`pieces
      ensures numberOfPieces <= 0 ==> r == Err(IllegalArgument) && pieces == old(pieces)
      ensures 0 < numberOfPieces ==> r == Ok(()) && pieces == Resized(old(pieces), numberOfPieces)
    {
      if numberOfPieces <= 0 {
        return Err(IllegalArgument);
      }
      var current, oldSize := pieces, |pieces|;
      var copy := current[..if numberOfPieces < oldSize then numberOfPieces else oldSize];
      var i := oldSize;
      while i < numberOfPieces
        invariant numberOfPieces <= oldSize ==> copy == current[..numberOfPieces]
        invariant numberOfPieces > oldSize ==>
          0 < oldSize <= i <= numberOfPieces && copy == Resized(current, i)
      {
        copy := copy + [current[oldSize - 1]];
        i := i + 1;
      }
      pieces := copy;
      return Ok(());
    }

    /** `setPieces(position, piece)`: one slot of the array is overwritten;
        nothing is checked or repriced. */
    method SetPieces(position: int, piece: Piece) returns (r: Outcome<()>)
      modifies this`pieces
      ensures r.Ok? <==> 0 <= position < |old(pieces)|
      ensures r.Err? ==> r.error == IndexOutOfBounds && pieces == old(pieces)
      ensures r.Ok? ==> pieces == old(pieces)[position := piece]
    {
      if position < 0 || position >= |pieces| {
        return Err(IndexOutOfBounds);
      }
      pieces := pieces[position := piece];
      return Ok(());
    }
  }

  /** Names of a list of pizzas, in order. */
  function PizzaNames(s: seq<Pizza>): (r: seq<string>)
    reads s
    ensures |r| == |s|
    ensures forall i :: 0 <= i < |s| ==> r[i] == s[i].name
  {
    if s == [] then [] else PizzaNames(s[..|s| - 1]) + [s[|s| - 1].name]
  }

  /** `stream().filter(b -> name.equals(b.getName())).findFirst()`. */
  function FindFirstNamed(items: seq<Component>, name: string): (r: Option<Component>)
    reads items
    ensures r.Some? <==> name in NamesOf(items)
    ensures r.Some? ==> r.value == items[FirstIndex(NamesOf(items), name)]
  {
    if items == [] then None
    else
      assert NamesOf(items)[0] == items[0].name;
      assert NamesOf(items)[1..] == NamesOf(items[1..]);
      if items[0].name == name then Some(items[0]) else FindFirstNamed(items[1..], name)
  }

  /** `stream().anyMatch(b -> b.getPrice() > limit)`. */
  function AnyAbove(items: seq<Component>, limit: real): (r: bool)
    reads items
    ensures r <==> exists i :: 0 <= i < |items| && items[i].price > limit
  {
    if items == [] then false
    else
      assert forall i :: 0 < i < |items| ==> items[i] == items[1..][i - 1];
      items[0].price > limit || AnyAbove(items[1..], limit)
  }

  /** `FileLoader.checkBases`: the bases are refused unless one is named
      `Classic` and no base costs more than 1.2 times the FIRST such base. */
  function CheckBases(bases: seq<Component>): (r: Outcome<()>)
    reads bases
    ensures r.Ok? <==> (Classic in NamesOf(bases) &&
      forall b :: b in bases ==> b.price <= bases[FirstIndex(NamesOf(bases), Classic)].price * 1.2)
    ensures r.Err? ==> r.error == IllegalArgument
  {
    match FindFirstNamed(bases, Classic)
    case None => Err(IllegalArgument)
    case Some(classic) => if AnyAbove(bases, classic.price * 1.2) then Err(IllegalArgument) else Ok(())
  }

  /** The middle version's percentage test and this version's product test
      agree when the classic price is positive. */
  lemma CeilingTestsAgree(price: real, classicPrice: real)
    requires classicPrice > 0.0
    ensures 100.0 * price / classicPrice <= 120.0 <==> price <= classicPrice * 1.2
  {
    assert 100.0 * price / classicPrice * classicPrice == 100.0 * price;
  }

  /** For a positive classic price, no base exceeds the middle version's
      percentage ceiling exactly when no base costs more than 1.2 times the
      classic price. */
  lemma CeilingsAgree(bases: seq<Component>, classicPrice: real)
    requires classicPrice > 0.0
    ensures Early.WithinCeiling(bases, classicPrice) <==> forall b :: b in bases ==> b.price <= classicPrice * 1.2
  {
    forall j | 0 <= j < |bases|
      ensures 100.0 * bases[j].price / classicPrice <= 120.0 <==> bases[j].price <= classicPrice * 1.2
    {
      CeilingTestsAgree(bases[j].price, classicPrice);
    }
  }

  /** With exactly one classic base, priced above zero, the middle version
      (measured against the last classic base) and this version (measured
      against the first) accept the same base lists. */
  lemma BaseChecksAgree(bases: seq<Component>)
    requires Classic in NamesOf(bases)
    requires FirstIndex(NamesOf(bases), Classic) == LastIndex(NamesOf(bases), Classic)
    requires bases[FirstIndex(NamesOf(bases), Classic)].price > 0.0
    ensures Early.ClassicPriceNonzero(bases)
    ensures Early.BasesAccepted(bases) <==> CheckBases(bases).Ok?
  {
    CeilingsAgree(bases, bases[FirstIndex(NamesOf(bases), Classic)].price);
  }

  /** `items.stream().collect(Collectors.toMap(T::getName, identity()))`:
      each name maps to its element, entered in list order; a name met a
      second time throws `IllegalStateException`. */
  function ToMap<T>(items: seq<T>, names: seq<string>): (r: Outcome<map<string, T>>)
    requires |items| == |names|
    ensures r.Ok? <==> Distinct(names)
    ensures r.Err? ==> r.error == IllegalState
    ensures r.Ok? ==> r.value.Keys == set n | n in names
    ensures r.Ok? ==> forall i :: 0 <= i < |names| ==> r.value[names[i]] == items[i]
  {
    if items == [] then Ok(map[])
    else
      var n := |items| - 1;
      assert names == names[..n] + [names[n]];
      match ToMap(items[..n], names[..n])
      case Err(e) => Err(e)
      case Ok(m) => if names[n] in m then Err(IllegalState) else Ok(m[names[n] := items[n]])
  }

  /** `map.get(name)` for each requested name in turn, null on a miss. */
  function LookUpAll<T>(m: map<string, T>, requested: seq<string>): (r: seq<Option<T>>)
    ensures |r| == |requested|
    ensures forall k :: 0 <= k < |requested| ==>
      r[k] == if requested[k] in m then Some(m[requested[k]]) else None
  {
    if requested == [] then []
    else
      var last := requested[|requested| - 1];
      LookUpAll(m, requested[..|requested| - 1]) + [if last in m then Some(m[last]) else None]
  }

  /** `searchInMenu(list, names...)`: the name map of the list, then one
      entry per requested name, in request order: the element with that
      name, or null. Duplicate names in the list throw whatever is asked. */
  function SearchInMenu<T>(items: seq<T>, names: seq<string>, requested: seq<string>): (r: Outcome<seq<Option<T>>>)
    requires |items| == |names|
    ensures r.Ok? <==> Distinct(names)
    ensures r.Err? ==> r.error == IllegalState
    ensures r.Ok? ==> |r.value| == |requested|
    ensures r.Ok? ==> forall k :: 0 <= k < |requested| ==>
      r.value[k] == if requested[k] in names then Some(items[FirstIndex(names, requested[k])]) else None
  {
    match ToMap(items, names)
    case Err(e) => Err(e)
    case Ok(m) => Ok(LookUpAll(m, requested))
  }

  /** The map lookup against the middle version's first-match scan: with
      distinct names and every requested name present they return the same
      elements; a missing name is null here where the scan throws, and a
      duplicate name throws here where the scan takes the first. */
  lemma SearchAgreesWithScan<T>(items: seq<T>, names: seq<string>, requested: seq<string>)
    requires |items| == |names|
    ensures Distinct(names) && AllIn(requested, names) ==>
      SearchInMenu(items, names, requested).Ok? &&
      forall k :: 0 <= k < |requested| ==>
        SearchInMenu(items, names, requested).value[k] == Some(Early.FirstMatches(items, names, requested)[k])
    ensures Distinct(names) && !AllIn(requested, names) ==>
      exists k :: 0 <= k < |requested| && SearchInMenu(items, names, requested).value[k] == None
    ensures !Distinct(names) ==> SearchInMenu(items, names, requested) == Err(IllegalState)
  {
    var r := SearchInMenu(items, names, requested);
    if Distinct(names) {
      if AllIn(requested, names) {
        var scan := Early.FirstMatches(items, names, requested);
        forall k | 0 <= k < |requested|
          ensures r.value[k] == Some(scan[k])
        {
        }
      } else {
        var k :| 0 <= k < |requested| && requested[k] !in names;
        assert r.value[k] == None;
      }
    }
  }

  /** `LinkedList.remove(o)` for a component `o`: the first element that
      `o` equals, that is the first one carrying `o`'s name, is dropped; a
      list without one is left as it is. */
  method RemoveEqual(s: seq<Component>, o: Component) returns (r: seq<Component>)
    ensures o.name in NamesOf(s) ==> r == RemoveAt(s, FirstIndex(NamesOf(s), o.name))
    ensures o.name !in NamesOf(s) ==> r == s
  {
    var i := 0;
    while i < |s| && !SameName(o, s[i])
      invariant i <= |s|
      invariant forall j :: 0 <= j < i ==> s[j].name != o.name
    {
      i := i + 1;
    }
    if i == |s| {
      assert forall j :: 0 <= j < |s| ==> NamesOf(s)[j] != o.name;
      return s;
    }
    assert NamesOf(s)[i] == o.name;
    assert FirstIndex(NamesOf(s), o.name) == i;
    return RemoveAt(s, i);
  }

  /** `remove(searchInMenu(list, name).getFirst())` on a component list. */
  method RemoveNamed(s: seq<Component>, name: string) returns (r: Outcome<seq<Component>>)
    ensures r.Ok? <==> Distinct(NamesOf(s))
    ensures r.Err? ==> r.error == IllegalState
    ensures r.Ok? ==> r.value == if name in NamesOf(s) then RemoveAt(s, FirstIndex(NamesOf(s), name)) else s
  {
    var found := SearchInMenu(s, NamesOf(s), [name]);
    if found.Err? {
      return Err(found.error);
    }
    if found.value[0].None? {
      return Ok(s);
    }
    var rest := RemoveEqual(s, found.value[0].value);
    return Ok(rest);
  }

  /** `Menu`: the catalogue, loaded from three parsed lists. */
  class Menu {
    var ingredients: seq<Component>
    var bases: seq<Component>
    var pizzas: seq<Pizza>
    var sides: seq<Component>

    /** One of the three component lists. */
    function Shelved(shelf: Shelf): seq<Component>
      reads this
    {
      match shelf
      case Ingredients => ingredients
      case Bases => bases
      case Sides => sides
    }

    function ShelfItems(shelf: Shelf): set<Component>
      reads this
    {
      set c | c in Shelved(shelf)
    }

    /** The part of `Menu(files)` that runs once the base check passed. */
    constructor (ingredients: seq<Component>, bases: seq<Component>, sides: seq<Component>)
      requires CheckBases(bases).Ok?
      ensures this.ingredients == ingredients && this.bases == bases && this.sides == sides
      ensures pizzas == []
    {
      this.ingredients := ingredients;
      this.bases := bases;
      this.sides := sides;
      pizzas := [];
    }

    /** `Menu(files)`: the lists as read, refused with
        `IllegalArgumentException` by the base check. */
    static method Load(ingredients: seq<Component>, bases: seq<Component>, sides: seq<Component>)
      returns (r: Outcome<Menu>)
      ensures r.Ok? <==> CheckBases(bases).Ok?
      ensures r.Err? ==> r.error == IllegalArgument
      ensures r.Ok? ==> fresh(r.value) && r.value.pizzas == []
      ensures r.Ok? ==> r.value.ingredients == ingredients && r.value.bases == bases && r.value.sides == sides
    {
      if CheckBases(bases).Err? {
        return Err(IllegalArgument);
      }
      var menu := new Menu(ingredients, bases, sides);
      return Ok(menu);
    }

    /** `getIngredients(names...)`. */
    function GetIngredients(requested: seq<string>): (r: Outcome<seq<Option<Component>>>)
      reads this, ingredients
      ensures r.Ok? <==> Distinct(NamesOf(ingredients))
      ensures r.Ok? ==> |r.value| == |requested|
      ensures r.Ok? ==> forall k :: 0 <= k < |requested| ==>
        (r.value[k].Some? <==> requested[k] in NamesOf(ingredients)) &&
        (r.value[k].Some? ==> r.value[k].value == ingredients[FirstIndex(NamesOf(ingredients), requested[k])])
    {
      SearchInMenu(ingredients, NamesOf(ingredients), requested)
    }

    /** `getBases(name)`: `getFirst` of a one-name search. */
    function GetBase(name: string): (r: Outcome<Option<Component>>)
      reads this, bases
      ensures r.Ok? <==> Distinct(NamesOf(bases))
      ensures r.Ok? ==> (r.value.Some? <==> name in NamesOf(bases))
      ensures r.Ok? && r.value.Some? ==> r.value.value == bases[FirstIndex(NamesOf(bases), name)]
    {
      match SearchInMenu(bases, NamesOf(bases), [name])
      case Err(e) => Err(e)
      case Ok(found) => Ok(found[0])
    }

    /** `getSides(name)`. */
    function GetSide(name: string): (r: Outcome<Option<Component>>)
      reads this, sides
      ensures r.Ok? <==> Distinct(NamesOf(sides))
      ensures r.Ok? ==> (r.value.Some? <==> name in NamesOf(sides))
      ensures r.Ok? && r.value.Some? ==> r.value.value == sides[FirstIndex(NamesOf(sides), name)]
    {
      match SearchInMenu(sides, NamesOf(sides), [name])
      case Err(e) => Err(e)
      case Ok(found) => Ok(found[0])
    }

    /** `getPizza(name)`. */
    function GetPizza(name: string): (r: Outcome<Option<Pizza>>)
      reads this, pizzas
      ensures r.Ok? <==> Distinct(PizzaNames(pizzas))
      ensures r.Ok? ==> (r.value.Some? <==> name in PizzaNames(pizzas))
      ensures r.Ok? && r.value.Some? ==> r.value.value == pizzas[FirstIndex(PizzaNames(pizzas), name)]
    {
      match SearchInMenu(pizzas, PizzaNames(pizzas), [name])
      case Err(e) => Err(e)
      case Ok(found) => Ok(found[0])
    }

    /** `changeComponent(name, list, updater)` with an updater that renames
        and reprices the component it is handed: the lookup throws on
        duplicate names, and a missing name hands the updater null. */
    method ChangeComponent(shelf: Shelf, name: string, newName: string, newPrice: real) returns (r: Outcome<()>)
      modifies ShelfItems(shelf)
      ensures Shelved(shelf) == old(Shelved(shelf))
      ensures !old(Distinct(NamesOf(Shelved(shelf)))) ==> r == Err(IllegalState)
      ensures old(Distinct(NamesOf(Shelved(shelf)))) ==> (r.Ok? <==> name in old(NamesOf(Shelved(shelf))))
      ensures old(Distinct(NamesOf(Shelved(shelf)))) && r.Err? ==> r.error == NullPointer
      ensures r.Err? ==> unchanged(ShelfItems(shelf))
      ensures r.Ok? ==>
        var s := Shelved(shelf);
        var c := s[FirstIndex(old(NamesOf(s)), name)];
        c.name == newName && c.price == newPrice && c.pizzasUsed == old(c.pizzasUsed) &&
        forall x :: x in s && x != c ==> x.name == old(x.name) && x.price == old(x.price) && x.pizzasUsed == old(x.pizzasUsed)
    {
      var s := Shelved(shelf);
      var found := SearchInMenu(s, NamesOf(s), [name]);
      if found.Err? {
        return Err(found.error);
      }
      if found.value[0].None? {
        return Err(NullPointer);
      }
      var c := found.value[0].value;
      c.SetName(newName);
      c.SetPrice(newPrice);
      return Ok(());
    }

    /** `addComponent(name, price, list, creator)`: the element the creator
        makes is appended. */
    method AddComponent(shelf: Shelf, item: Component)
      modifies this`ingredients, this`bases, this`sides
      ensures Shelved(shelf) == old(Shelved(shelf)) + [item]
      ensures shelf != Ingredients ==> ingredients == old(ingredients)
      ensures shelf != Bases ==> bases == old(bases)
      ensures shelf != Sides ==> sides == old(sides)
    {
      match shelf {
        case Ingredients => ingredients := ingredients + [item];
        case Bases => bases := bases + [item];
        case Sides => sides := sides + [item];
      }
    }

    /** `addComponent` on the pizza list. */
    method AddPizza(pizza: Pizza)
      modifies this`pizzas
      ensures pizzas == old(pizzas) + [pizza]
    {
      pizzas := pizzas + [pizza];
    }

    /** `deleteComponent(name, list)`: the element found under the name is
        passed to `LinkedList.remove`. A missing name passes null, which
        matches nothing, so the list stays as it is. */
    method DeleteComponent(shelf: Shelf, name: string) returns (r: Outcome<()>)
      modifies this`ingredients, this`bases, this`sides
      ensures r.Ok? <==> old(Distinct(NamesOf(Shelved(shelf))))
      ensures r.Err? ==> r.error == IllegalState
      ensures Shelved(shelf) ==
        if r.Ok? && name in old(NamesOf(Shelved(shelf)))
        then RemoveAt(old(Shelved(shelf)), FirstIndex(old(NamesOf(Shelved(shelf))), name))
        else old(Shelved(shelf))
      ensures shelf != Ingredients ==> ingredients == old(ingredients)
      ensures shelf != Bases ==> bases == old(bases)
      ensures shelf != Sides ==> sides == old(sides)
    {
      var rest := RemoveNamed(Shelved(shelf), name);
      if rest.Err? {
        return Err(rest.error);
      }
      match shelf {
        case Ingredients => ingredients := rest.value;
        case Bases => bases := rest.value;
        case Sides => sides := rest.value;
      }
      return Ok(());
    }

    /** `deleteComponent(name, pizzas)`: a pizza equals only itself, so
        `remove` drops the found pizza's first slot. */
    method DeletePizza(name: string) returns (r: Outcome<()>)
      modifies this`pizzas
      ensures r.Ok? <==> old(Distinct(PizzaNames(pizzas)))
      ensures r.Err? ==> r.error == IllegalState
      ensures pizzas ==
        if r.Ok? && name in old(PizzaNames(pizzas))
        then RemoveAt(old(pizzas), FirstIndex(old(PizzaNames(pizzas)), name))
        else old(pizzas)
    {
      ghost var names := PizzaNames(pizzas);
      var found := SearchInMenu(pizzas, PizzaNames(pizzas), [name]);
      if found.Err? {
        return Err(found.error);
      }
      if found.value[0].Some? {
        ghost var k := FirstIndex(names, name);
        assert found.value[0].value == pizzas[k];
        var i := Early.RemoveIndex(pizzas, found.value[0].value);
        assert names[i] == name;
        pizzas := RemoveAt(pizzas, i);
      }
      return Ok(());
    }
  }

  /** Sum of the stored prices of a list of pizzas. */
  function SumPizzaPrices(s: seq<Pizza>): real
    reads s
  {
    if s == [] then 0.0 else SumPizzaPrices(s[..|s| - 1]) + s[|s| - 1].price
  }

  lemma SumPizzaPricesStep(s: seq<Pizza>, i: nat)
    requires i < |s|
    ensures SumPizzaPrices(s[..i + 1]) == SumPizzaPrices(s[..i]) + s[i].price
  {
    assert s[..i + 1][..i] == s[..i];
  }

  /** `Order`: the pizzas, a comment, the number of guests, the day it was
      placed, an optional later day, an id, and a price fixed when the order
      is made. `LocalDate.now()` and `UUID.randomUUID()` are parameters. */
  class Order {
    var price: real
    var numberOfGuests: int
    var orderId: OrderId
    var pizzas: seq<Pizza>
    var comments: string
    var date: Date
    var postponedDate: Option<Date>

    constructor (newPizzas: seq<Pizza>, comments: string, numberOfGuests: int, postponedDate: Option<Date>,
                 today: Date, id: OrderId)
      ensures pizzas == newPizzas && this.comments == comments && this.numberOfGuests == numberOfGuests
      ensures date == today && orderId == id && this.postponedDate == postponedDate
      ensures price == SumPizzaPrices(newPizzas)
    {
      pizzas := newPizzas;
      this.numberOfGuests := numberOfGuests;
      this.comments := comments;
      date := today;
      orderId := id;
      this.postponedDate := postponedDate;
      new;
      price := PriceCalculation();
    }

    /** `priceCalculation`: the pizzas' stored prices, summed by a loop. */
    method PriceCalculation() returns (total: real)
      ensures total == SumPizzaPrices(pizzas)
    {
      total := 0.0;
      for i := 0 to |pizzas|
        invariant total == SumPizzaPrices(pizzas[..i])
      {
        SumPizzaPricesStep(pizzas, i);
        total := total + pizzas[i].price;
      }
      assert pizzas[..|pizzas|] == pizzas;
    }

    /** `getPriceForEachGuests`: the share of each guest, which multiplied
        back by the number of guests gives the order's price. */
    function PriceForEachGuest(): (r: real)
      reads this
      requires numberOfGuests != 0
      ensures r * (numberOfGuests as real) == price
    {
      price / (numberOfGuests as real)
    }
  }
}
