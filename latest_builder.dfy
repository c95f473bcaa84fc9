/** The latest version of the program (src/BasicLogic/Constructor.java),
    assembly side: the pizza builder and the three ways the constructor
    makes a pizza with it, and the order log. */
module LatestBuilder {
  import opened Outcomes
  import opened Seqs
  import opened Components
  import opened Latest

  /** The elements of a lookup result, when none of them is null. */
  function Present<T>(s: seq<Option<T>>): (r: Option<seq<T>>)
    ensures r.Some? <==> forall k :: 0 <= k < |s| ==> s[k].Some?
    ensures r.Some? ==> |r.value| == |s| && forall k :: 0 <= k < |s| ==> r.value[k] == s[k].value
  {
    if s == [] then Some([])
    else match Present(s[..|s| - 1])
      case None => None
      case Some(front) =>
        if s[|s| - 1].None? then None else Some(front + [s[|s| - 1].value])
  }

  /** Java's `/` on `int`, which truncates toward zero. */
  function JavaDiv(a: int, b: int): (q: int)
    requires b > 0
    ensures a >= 0 ==> q == a / b
    ensures a < 0 ==> q <= 0
  {
    if a >= 0 then a / b else -((-a) / b)
  }

  /** Java's `String.length()`: the number of UTF-16 code units, so a
      character outside the Basic Multilingual Plane counts twice. */
  function JavaLength(s: string): (n: nat)
    ensures |s| <= n <= 2 * |s|
    ensures n == |s| <==> forall i :: 0 <= i < |s| ==> (s[i] as int) < 0x1_0000
  {
    if s == [] then 0
    else JavaLength(s[..|s| - 1]) + (if (s[|s| - 1] as int) < 0x1_0000 then 1 else 2)
  }

  /** How many pieces a combined pizza takes from each of its `n` sources:
      the copying loop runs while `i < slices / n`, so a quotient that is
      not positive copies nothing. When the division is exact, `n` sources
      of `count` pieces give `slices` pieces. */
  function SliceCount(slices: int, n: int): (count: nat)
    requires n > 0 && slices % n == 0
    ensures count == if slices > 0 then slices / n else 0
    ensures count > 0 ==> slices == n * count
  {
    var q := JavaDiv(slices, n);
    assert slices == n * (slices / n) + slices % n;
    if q < 0 then 0 else q
  }

  /** Each made piece copies the template in the same slot: the same side
      and the same ingredients, held in a list of its own. */
  predicate CopiesOf(made: seq<Piece>, templates: seq<Piece>)
    reads made, templates
  {
    |made| == |templates| &&
    forall i :: 0 <= i < |made| ==> made[i].side == templates[i].side && made[i].ingredients == templates[i].ingredients
  }

  /** The template pieces of a combined pizza: the first `q` pieces of each
      source pizza, source after source. */
  function Slices(sources: seq<Pizza>, q: nat): (r: seq<Piece>)
    reads sources
    requires forall j :: 0 <= j < |sources| ==> q <= |sources[j].pieces|
  {
    if sources == [] then []
    else Slices(sources[..|sources| - 1], q) + sources[|sources| - 1].pieces[..q]
  }

  lemma {:induction false} SlicesLength(sources: seq<Pizza>, q: nat)
    requires forall j :: 0 <= j < |sources| ==> q <= |sources[j].pieces|
    ensures |Slices(sources, q)| == |sources| * q
  {
    if sources != [] {
      SlicesLength(sources[..|sources| - 1], q);
    }
  }

  /** The stored prices of a list of pieces. */
  function PricesOf(s: seq<Piece>): (r: seq<real>)
    reads s
    ensures |r| == |s| && forall i :: 0 <= i < |s| ==> r[i] == s[i].price
  {
    if s == [] then [] else PricesOf(s[..|s| - 1]) + [s[|s| - 1].price]
  }

  function SumReals(s: seq<real>): real
  {
    if s == [] then 0.0 else SumReals(s[..|s| - 1]) + s[|s| - 1]
  }

  /** The sum of the pieces' prices depends on their prices alone. */
  lemma {:induction false} SumPiecePricesOfPrices(s: seq<Piece>)
    ensures SumPiecePrices(s) == SumReals(PricesOf(s))
  {
    if s != [] {
      SumPiecePricesOfPrices(s[..|s| - 1]);
      assert PricesOf(s)[..|s| - 1] == PricesOf(s[..|s| - 1]);
    }
  }

  /** The doubling loop of `build`: every piece doubles its ingredients in
      turn, and no price changes. */
  method DoubleEach(pieces: seq<Piece>)
    requires Distinct(pieces)
    modifies set p | p in pieces
    ensures forall i :: 0 <= i < |pieces| ==>
      pieces[i].ingredients == old(pieces[i].ingredients) + old(pieces[i].ingredients)
    ensures forall i :: 0 <= i < |pieces| ==>
      pieces[i].side == old(pieces[i].side) && pieces[i].price == old(pieces[i].price)
  {
    for i := 0 to |pieces|
      invariant forall j :: 0 <= j < i ==>
        pieces[j].ingredients == old(pieces[j].ingredients) + old(pieces[j].ingredients)
      invariant forall j :: i <= j < |pieces| ==> pieces[j].ingredients == old(pieces[j].ingredients)
      invariant forall j :: 0 <= j < |pieces| ==>
        pieces[j].side == old(pieces[j].side) && pieces[j].price == old(pieces[j].price)
    {
      pieces[i].DoubleIngredients();
    }
  }

  /** Made pieces copy templates slot by slot: `CopiesOf(a, s)` and
      `CopiesOf(b, t)` give `CopiesOf(a + b, s + t)`. */
  lemma CopiesOfAppend(a: seq<Piece>, b: seq<Piece>, s: seq<Piece>, t: seq<Piece>)
    requires CopiesOf(a, s) && CopiesOf(b, t)
    ensures CopiesOf(a + b, s + t)
  {
    forall i | |a| <= i < |a + b|
      ensures (a + b)[i] == b[i - |a|] && (s + t)[i] == t[i - |a|]
    {
    }
  }

  /** Copies list a pizza's name on their sides exactly when their
      templates do. */
  lemma CopiesAllowSame(name: string, made: seq<Piece>, templates: seq<Piece>)
    requires CopiesOf(made, templates)
    ensures SidesAllow(name, made) <==> SidesAllow(name, templates)
  {
    if SidesAllow(name, templates) {
      forall i | 0 <= i < |made|
        ensures name in made[i].side.pizzasUsed
      {
        assert made[i].side == templates[i].side;
      }
    }
    if SidesAllow(name, made) {
      forall i | 0 <= i < |templates|
        ensures name in templates[i].side.pizzasUsed
      {
        assert made[i].side == templates[i].side;
      }
    }
  }

  /** Each made piece has the given piece's side, its ingredients (twice
      over when `doubled`), and the price of the undoubled piece. */
  predicate FirstPieceCopies(made: seq<Piece>, piece: Piece, doubled: bool)
    reads made, piece, piece.side, piece.ingredients
  {
    forall i :: 0 <= i < |made| ==>
      made[i].side == piece.side &&
      made[i].ingredients == (if doubled then piece.ingredients + piece.ingredients else piece.ingredients) &&
      made[i].price == piece.side.price + SumPrices(piece.ingredients)
  }

  /** Each made piece has the side and the ingredients of its parts. */
  predicate MadeOf(made: seq<Piece>, parts: seq<(Component, seq<Component>)>)
    reads made
  {
    |made| == |parts| &&
    forall i :: 0 <= i < |made| ==> made[i].side == parts[i].0 && made[i].ingredients == parts[i].1
  }

  /** What `createCustomPizza` collects for its sides in order: slot `i`
      needs a row of ingredient names and the parts `PieceParts` finds; the
      first slot that fails decides the error. */
  function PartsOf(menu: Menu, sideNames: seq<string>, rows: seq<seq<string>>)
    : (r: Outcome<seq<(Component, seq<Component>)>>)
    reads menu, menu.sides, menu.ingredients
    ensures r.Ok? ==> |r.value| == |sideNames|
  {
    if sideNames == [] then Ok([])
    else
      var i := |sideNames| - 1;
      match PartsOf(menu, sideNames[..i], rows)
      case Err(e) => Err(e)
      case Ok(prev) =>
        if i >= |rows| then Err(IndexOutOfBounds)
        else match PieceParts(menu, sideNames[i], rows[i])
          case Err(e) => Err(e)
          case Ok(part) => Ok(prev + [part])
  }

  /** `PartsOf` succeeds exactly when every side has a row and every slot
      finds its parts. */
  lemma {:induction false} PartsOfFound(menu: Menu, sideNames: seq<string>, rows: seq<seq<string>>)
    ensures PartsOf(menu, sideNames, rows).Ok? <==>
      |sideNames| <= |rows| && forall i :: 0 <= i < |sideNames| ==> PieceParts(menu, sideNames[i], rows[i]).Ok?
    decreases |sideNames|
  {
    if sideNames != [] {
      var n := |sideNames| - 1;
      var front := sideNames[..n];
      PartsOfFound(menu, front, rows);
      assert forall i :: 0 <= i < n ==> front[i] == sideNames[i];
      if PartsOf(menu, sideNames, rows).Ok? {
        assert PartsOf(menu, front, rows).Ok? && n < |rows| && PieceParts(menu, sideNames[n], rows[n]).Ok?;
      }
    }
  }

  /** When `PartsOf` succeeds, slot `i` holds what `PieceParts` finds for
      side `i` and row `i`. */
  lemma {:induction false} PartsOfSlots(menu: Menu, sideNames: seq<string>, rows: seq<seq<string>>)
    requires PartsOf(menu, sideNames, rows).Ok?
    ensures |sideNames| <= |rows|
    ensures forall i :: 0 <= i < |sideNames| ==>
      PieceParts(menu, sideNames[i], rows[i]) == Ok(PartsOf(menu, sideNames, rows).value[i])
    decreases |sideNames|
  {
    if sideNames != [] {
      var n := |sideNames| - 1;
      var front := sideNames[..n];
      var prev := PartsOf(menu, front, rows).value;
      PartsOfSlots(menu, front, rows);
      assert forall i :: 0 <= i < n ==> front[i] == sideNames[i];
      assert PartsOf(menu, sideNames, rows).value == prev + [PieceParts(menu, sideNames[n], rows[n]).value];
    }
  }

  /** The source pizzas of the corrected `createCombinedPizza`, looked up
      name by name: duplicate pizza names throw, a missing pizza is null and
      throws, a base with another name than the first source's is refused,
      and a source with fewer than `count` pieces fails on its first missing
      piece. The first failure decides the error. */
  function SourcesOf(menu: Menu, names: seq<string>, count: nat): (r: Outcome<seq<Pizza>>)
    reads menu, menu.pizzas, set p | p in menu.pizzas :: p.pizzaBase
    ensures r.Ok? ==> |r.value| == |names|
    ensures r.Ok? ==> forall j :: 0 <= j < |names| ==> r.value[j] in menu.pizzas && count <= |r.value[j].pieces|
    ensures r.Ok? ==> forall j :: 0 <= j < |names| ==> r.value[j].pizzaBase.name == r.value[0].pizzaBase.name
    decreases |names|
  {
    if names == [] then Ok([])
    else
      var n := |names| - 1;
      match SourcesOf(menu, names[..n], count)
      case Err(e) => Err(e)
      case Ok(prev) =>
        if !Distinct(PizzaNames(menu.pizzas)) then Err(IllegalState)
        else if names[n] !in PizzaNames(menu.pizzas) then Err(NullPointer)
        else
          var pizza := menu.pizzas[FirstIndex(PizzaNames(menu.pizzas), names[n])];
          if n > 0 && pizza.pizzaBase.name != prev[0].pizzaBase.name then Err(IllegalArgument)
          else if count > |pizza.pieces| then Err(IndexOutOfBounds)
          else Ok(prev + [pizza])
  }

  /** How many pieces `createCombinedPizza` as written takes from each of
      its `n` sources: its loop runs while `i < slices / n`, with no test
      that `n` divides `slices`, so the quotient is truncated and a
      quotient that is not positive copies nothing. */
  function PerSource(slices: int, n: nat): nat
  {
    if n > 0 && JavaDiv(slices, n) > 0 then JavaDiv(slices, n) else 0
  }

  /** The source pizzas of `createCombinedPizza` as written: the lookups of
      `SourcesOf` in the same order, except that a source whose base has the
      SAME name as the first source's base is refused. */
  function SourcesAsWritten(menu: Menu, names: seq<string>, count: nat): (r: Outcome<seq<Pizza>>)
    reads menu, menu.pizzas, set p | p in menu.pizzas :: p.pizzaBase
    ensures r.Ok? ==> |r.value| == |names|
    ensures r.Ok? ==> forall j :: 0 <= j < |names| ==> r.value[j] in menu.pizzas && count <= |r.value[j].pieces|
    ensures r.Ok? ==> forall j :: 0 < j < |names| ==> r.value[j].pizzaBase.name != r.value[0].pizzaBase.name
    decreases |names|
  {
    if names == [] then Ok([])
    else
      var n := |names| - 1;
      match SourcesAsWritten(menu, names[..n], count)
      case Err(e) => Err(e)
      case Ok(prev) =>
        if !Distinct(PizzaNames(menu.pizzas)) then Err(IllegalState)
        else if names[n] !in PizzaNames(menu.pizzas) then Err(NullPointer)
        else
          var pizza := menu.pizzas[FirstIndex(PizzaNames(menu.pizzas), names[n])];
          if n > 0 && pizza.pizzaBase.name == prev[0].pizzaBase.name then Err(IllegalArgument)
          else if count > |pizza.pieces| then Err(IndexOutOfBounds)
          else Ok(prev + [pizza])
  }

  /** The inverted base test refuses every combination the intended method
      accepts: when two or more sources pass `SourcesOf`, which demands one
      base name for all, the loop as written throws
      `IllegalArgumentException` at the second source. */
  lemma {:induction false} SourcesInverted(menu: Menu, names: seq<string>, count: nat)
    requires |names| >= 2 && SourcesOf(menu, names, count).Ok?
    ensures SourcesAsWritten(menu, names, count) == Err(IllegalArgument)
    decreases |names|
  {
    var n := |names| - 1;
    if n == 1 {
      assert names[..n][..0] == names[..0];
      var first := SourcesOf(menu, names[..n], count);
      assert first.Ok?;
      assert SourcesAsWritten(menu, names[..n], count) == first;
    } else {
      SourcesInverted(menu, names[..n], count);
    }
  }

  /** A slot that fails decides the error of every longer list of slots. */
  lemma {:induction false} PartsOfPrefixes(menu: Menu, sideNames: seq<string>, rows: seq<seq<string>>)
    ensures forall i :: 0 <= i <= |sideNames| && PartsOf(menu, sideNames[..i], rows).Err? ==>
      PartsOf(menu, sideNames, rows) == PartsOf(menu, sideNames[..i], rows)
  {
    forall i | 0 <= i <= |sideNames| && PartsOf(menu, sideNames[..i], rows).Err?
      ensures PartsOf(menu, sideNames, rows) == PartsOf(menu, sideNames[..i], rows)
    {
      PartsOfFailedPrefix(menu, sideNames, rows, i);
    }
  }

  /** The same for one failed prefix of length `n`. */
  lemma {:induction false} PartsOfFailedPrefix(menu: Menu, sideNames: seq<string>, rows: seq<seq<string>>, n: nat)
    requires n <= |sideNames| && PartsOf(menu, sideNames[..n], rows).Err?
    ensures PartsOf(menu, sideNames, rows) == PartsOf(menu, sideNames[..n], rows)
    decreases |sideNames|
  {
    if n < |sideNames| {
      var m := |sideNames| - 1;
      assert sideNames[..m][..n] == sideNames[..n];
      PartsOfFailedPrefix(menu, sideNames[..m], rows, n);
    } else {
      assert sideNames[..n] == sideNames;
    }
  }

  /** Slot `i` fails, after the slots before it succeeded: its error is
      the error of the whole loop. */
  lemma SlotFails(menu: Menu, sideNames: seq<string>, rows: seq<seq<string>>, i: nat,
                  parts: seq<(Component, seq<Component>)>, e: Error)
    requires i < |sideNames| && PartsOf(menu, sideNames[..i], rows) == Ok(parts)
    requires i >= |rows| ==> e == IndexOutOfBounds
    requires i < |rows| ==> PieceParts(menu, sideNames[i], rows[i]) == Err(e)
    ensures PartsOf(menu, sideNames, rows) == Err(e)
  {
    assert sideNames[..i + 1][..i] == sideNames[..i];
    PartsOfFailedPrefix(menu, sideNames, rows, i + 1);
  }

  /** Slot `i` finds its parts, after the slots before it did: they extend
      the parts found so far. */
  lemma SlotFound(menu: Menu, sideNames: seq<string>, rows: seq<seq<string>>, i: nat,
                  parts: seq<(Component, seq<Component>)>)
    requires i < |sideNames| && i < |rows| && PartsOf(menu, sideNames[..i], rows) == Ok(parts)
    requires PieceParts(menu, sideNames[i], rows[i]).Ok?
    ensures PartsOf(menu, sideNames[..i + 1], rows) == Ok(parts + [PieceParts(menu, sideNames[i], rows[i]).value])
  {
    assert sideNames[..i + 1][..i] == sideNames[..i];
  }

  /** What `createPizzaFromMenu` needs of its template to succeed: at least
      one slice, a first piece to copy, and that piece's side listing the
      new pizza's name. */
  predicate TemplateUsable(template: Pizza, pizzaName: string, slices: int)
    reads template, template.pieces, set p | p in template.pieces :: p.side
  {
    slices > 0 && |template.pieces| > 0 && pizzaName in template.pieces[0].side.pizzasUsed
  }

  /** The components named, each the first of its name on the shelf. */
  function Picked(items: seq<Component>, requested: seq<string>): (r: seq<Component>)
    reads items
    requires AllIn(requested, NamesOf(items))
    ensures |r| == |requested|
    ensures forall k :: 0 <= k < |requested| ==> r[k] == items[FirstIndex(NamesOf(items), requested[k])]
  {
    if requested == [] then []
    else Picked(items, requested[..|requested| - 1]) + [items[FirstIndex(NamesOf(items), requested[|requested| - 1])]]
  }

  /** What `addPieces` finds for a side name and a list of ingredient
      names: duplicate names on either shelf throw `IllegalStateException`,
      a side or an ingredient that is not there is null and throws
      `NullPointerException` when the piece is made, and otherwise the
      piece gets the first side and the first ingredients of those names. */
  function PieceParts(menu: Menu, sideName: string, ingredientNames: seq<string>)
    : Outcome<(Component, seq<Component>)>
    reads menu, menu.sides, menu.ingredients
  {
    if !Distinct(NamesOf(menu.sides)) || !Distinct(NamesOf(menu.ingredients)) then Err(IllegalState)
    else if sideName !in NamesOf(menu.sides) || !AllIn(ingredientNames, NamesOf(menu.ingredients)) then Err(NullPointer)
    else Ok((menu.sides[FirstIndex(NamesOf(menu.sides), sideName)], Picked(menu.ingredients, ingredientNames)))
  }

  /** `PizzaBuilder`: collects a base, pieces and the doubling flag for one
      pizza. `pieces` is `None` where the Java list is null. */
  class PizzaBuilder {
    var name: string
    var base: Component?
    var pieces: Option<seq<Piece>>
    var doubleIngredients: bool
    var menu: Menu

    /** No piece is collected twice. */
    predicate Valid()
      reads this
    {
      pieces.Some? ==> Distinct(pieces.value)
    }

    /** The builder with its piece list created empty, as every other
        member of the builder expects. */
    constructor (name: string, menu: Menu)
      ensures this.name == name && this.menu == menu
      ensures base == null && pieces == Some([]) && !doubleIngredients
      ensures Valid()
    {
      this.name := name;
      this.menu := menu;
      base := null;
      pieces := Some([]);
      doubleIngredients := false;
    }

    /** `PizzaBuilder(name, menu)` as written: the piece list is never
        created and stays null. */
    constructor AsWritten(name: string, menu: Menu)
      ensures this.name == name && this.menu == menu
      ensures base == null && pieces == None && !doubleIngredients
      ensures Valid()
    {
      this.name := name;
      this.menu := menu;
      base := null;
      pieces := None;
      doubleIngredients := false;
    }

    /** `withBase(name)`: the base the menu finds under the name, or null
        when there is none; duplicate base names throw. */
    method WithBase(baseName: string) returns (r: Outcome<()>)
      modifies this`base
      ensures r.Ok? <==> old(Distinct(NamesOf(menu.bases)))
      ensures r.Err? ==> r.error == IllegalState && base == old(base)
      ensures r.Ok? ==> (base != null <==> old(baseName in NamesOf(menu.bases)))
      ensures r.Ok? && base != null ==> base == old(menu.bases[FirstIndex(NamesOf(menu.bases), baseName)])
    {
      var found := menu.GetBase(baseName);
      if found.Err? {
        return Err(found.error);
      }
      base := if found.value.Some? then found.value.value else null;
      return Ok(());
    }

    method WithDoubleIngredients(flag: bool)
      modifies this`doubleIngredients
      ensures doubleIngredients == flag
    {
      doubleIngredients := flag;
    }

    /** `addPieceFromTemplate(piece)`: a new piece with the template's side
        and a copy of its ingredient list, priced from them, is appended.
        The new piece is returned so that callers can speak about it. */
    method AddPieceFromTemplate(template: Piece) returns (r: Outcome<Piece>)
      requires Valid()
      modifies this`pieces
      ensures Valid()
      ensures old(pieces).None? ==> r == Err(NullPointer) && pieces == old(pieces)
      ensures old(pieces).Some? ==> r.Ok? && fresh(r.value) && pieces == Some(old(pieces).value + [r.value])
      ensures r.Ok? ==> r.value.side == template.side && r.value.ingredients == template.ingredients
      ensures r.Ok? ==> r.value.PriceCurrent()
    {
      var piece := new Piece(template.side, template.ingredients);
      if pieces.None? {
        return Err(NullPointer);
      }
      pieces := Some(pieces.value + [piece]);
      return Ok(piece);
    }

    /** `addPieces(sideName, ingredientNames...)`: the parts are looked up
        and dereferenced as `PieceParts` says, then a piece made of them is
        appended to the list. */
    method AddPieces(sideName: string, ingredientNames: seq<string>) returns (r: Outcome<Piece>)
      requires Valid()
      modifies this`pieces
      ensures Valid()
      ensures r.Err? ==> pieces == old(pieces)
      ensures old(PieceParts(menu, sideName, ingredientNames)).Err? ==>
        r == Err(old(PieceParts(menu, sideName, ingredientNames)).error)
      ensures old(PieceParts(menu, sideName, ingredientNames)).Ok? && old(pieces).None? ==> r == Err(NullPointer)
      ensures r.Ok? <==> old(PieceParts(menu, sideName, ingredientNames)).Ok? && old(pieces).Some?
      ensures r.Ok? ==> fresh(r.value) && pieces == Some(old(pieces).value + [r.value])
      ensures r.Ok? ==> r.value.side == old(PieceParts(menu, sideName, ingredientNames)).value.0
      ensures r.Ok? ==> r.value.ingredients == old(PieceParts(menu, sideName, ingredientNames)).value.1
      ensures r.Ok? ==> r.value.PriceCurrent()
    {
      var parts := LookUpParts(sideName, ingredientNames);
      if parts.Err? {
        return Err(parts.error);
      }
      if pieces.None? {
        return Err(NullPointer);
      }
      var piece := AddPiece(parts.value.0, parts.value.1);
      return Ok(piece);
    }

    /** The lookups that open `addPieces`: the side, then the ingredients,
        and the null check of the new piece. */
    method LookUpParts(sideName: string, ingredientNames: seq<string>)
      returns (r: Outcome<(Component, seq<Component>)>)
      ensures r == PieceParts(menu, sideName, ingredientNames)
    {
      var side := menu.GetSide(sideName);
      if side.Err? {
        return Err(side.error);
      }
      var found := menu.GetIngredients(ingredientNames);
      if found.Err? {
        return Err(found.error);
      }
      var list := Present(found.value);
      if side.value.None? || list.None? {
        return Err(NullPointer);
      }
      assert list.value == Picked(menu.ingredients, ingredientNames);
      return Ok((side.value.value, list.value));
    }

    /** The append that ends `addPieces`. */
    method AddPiece(side: Component, ingredients: seq<Component>) returns (piece: Piece)
      requires Valid() && pieces.Some?
      modifies this`pieces
      ensures Valid() && fresh(piece) && pieces == Some(old(pieces).value + [piece])
      ensures piece.side == side && piece.ingredients == ingredients && piece.PriceCurrent()
    {
      piece := new Piece(side, ingredients);
      pieces := Some(pieces.value + [piece]);
    }

    /** `addPieceFromTemplate` once per template, in order. */
    method CopyAll(templates: seq<Piece>)
      requires Valid() && pieces.Some?
      modifies this`pieces
      ensures Valid() && pieces.Some?
      ensures |pieces.value| == |old(pieces.value)| + |templates|
      ensures pieces.value[..|old(pieces.value)|] == old(pieces.value)
      ensures forall k :: |old(pieces.value)| <= k < |pieces.value| ==>
        fresh(pieces.value[k]) && pieces.value[k].PriceCurrent()
      ensures CopiesOf(pieces.value[|old(pieces.value)|..], templates)
    {
      ghost var before := pieces.value;
      for i := 0 to |templates|
        invariant Valid() && pieces.Some?
        invariant |pieces.value| == |before| + i && pieces.value[..|before|] == before
        invariant forall k :: |before| <= k < |pieces.value| ==>
          fresh(pieces.value[k]) && pieces.value[k].PriceCurrent()
        invariant CopiesOf(pieces.value[|before|..], templates[..i])
      {
        ghost var prev := pieces.value;
        var added := AddPieceFromTemplate(templates[i]);
        assert pieces.value[|before|..] == prev[|before|..] + [added.value];
        assert templates[..i + 1] == templates[..i] + [templates[i]];
      }
    }

    /** The pieces `build` may double. */
    function Collected(): set<Piece>
      reads this
    {
      if pieces.Some? then set p | p in pieces.value else {}
    }

    /** `build()`: refused without a base or without pieces; otherwise each
        piece doubles its ingredients if the flag is set, leaving its price
        as it was, and the pizza is made from the pieces in order, which
        checks every side against the name. */
    method Build() returns (r: Outcome<Pizza>)
      requires Valid()
      modifies Collected()
      ensures !doubleIngredients ==> unchanged(Collected())
      ensures base == null ==> r == Err(IllegalArgument)
      ensures base != null && pieces.None? ==> r == Err(NullPointer)
      ensures base != null && pieces == Some([]) ==> r == Err(IllegalArgument)
      ensures pieces.Some? ==> forall i :: 0 <= i < |pieces.value| ==>
        pieces.value[i].side == old(pieces.value[i].side) && pieces.value[i].price == old(pieces.value[i].price)
      ensures pieces.Some? ==> forall i :: 0 <= i < |pieces.value| ==>
        pieces.value[i].ingredients ==
          if base != null && doubleIngredients then old(pieces.value[i].ingredients) + old(pieces.value[i].ingredients)
          else old(pieces.value[i].ingredients)
      ensures base != null && pieces.Some? && pieces.value != [] ==>
        (r.Ok? <==> SidesAllow(name, pieces.value)) && (r.Err? ==> r.error == IllegalArgument)
      ensures r.Ok? ==> fresh(r.value) && r.value.name == name && r.value.pizzaBase == base
      ensures r.Ok? ==> pieces.Some? && r.value.pieces == pieces.value && r.value.PriceCurrent()
      ensures r.Ok? ==> r.value.price == base.price + old(SumPiecePrices(pieces.value))
    {
      if base == null {
        return Err(IllegalArgument);
      }
      if pieces.None? {
        return Err(NullPointer);
      }
      var collected := pieces.value;
      if collected == [] {
        return Err(IllegalArgument);
      }
      if doubleIngredients {
        SumPiecePricesOfPrices(collected);
        ghost var prices := PricesOf(collected);
        DoubleEach(collected);
        SumPiecePricesOfPrices(collected);
        assert PricesOf(collected) == prices;
      }
      r := Pizza.Create(name, base, collected);
    }
  }

  /** `PizzaConstructor`: the menu and the log of orders. */
  class PizzaConstructor {
    var savedOrder: seq<Order>
    var menu: Menu

    /** `PizzaConstructor(files)`, with the menu already loaded. */
    constructor (menu: Menu)
      ensures savedOrder == [] && this.menu == menu
    {
      savedOrder := [];
      this.menu := menu;
    }

    /** `createPizzaFromMenu(name, slices, doubled)`: the menu pizza of that
        name is the template (duplicate names throw, a missing one is null
        and throws), and the new pizza is made from it as `FromTemplate`
        says. */
    method CreatePizzaFromMenu(pizzaName: string, slices: int, doubled: bool) returns (r: Outcome<Pizza>)
      ensures old(menu.GetPizza(pizzaName)).Err? ==> r == Err(IllegalState)
      ensures old(menu.GetPizza(pizzaName)) == Ok(None) ==> r == Err(NullPointer)
      ensures old(menu.GetPizza(pizzaName)).Ok? && old(menu.GetPizza(pizzaName)).value.Some? ==>
        var template := old(menu.GetPizza(pizzaName)).value.value;
        (old(!Distinct(NamesOf(menu.bases))) ==> r == Err(IllegalState)) &&
        (r.Ok? <==> old(Distinct(NamesOf(menu.bases)) && template.pizzaBase.name in NamesOf(menu.bases)) &&
                    TemplateUsable(template, pizzaName, slices)) &&
        (r.Ok? ==> r.value.pizzaBase == old(menu.bases[FirstIndex(NamesOf(menu.bases), template.pizzaBase.name)]) &&
                   FirstPieceCopies(r.value.pieces, template.pieces[0], doubled))
      ensures old(menu.GetPizza(pizzaName)).Ok? && old(menu.GetPizza(pizzaName)).value.Some? && old(Distinct(NamesOf(menu.bases))) ==>
        var template := old(menu.GetPizza(pizzaName)).value.value;
        (slices > 0 && |template.pieces| == 0 ==> r == Err(IndexOutOfBounds)) &&
        (!(slices > 0 && |template.pieces| == 0) ==> r.Ok? || r == Err(IllegalArgument))
      ensures r.Ok? ==> fresh(r.value) && r.value.name == pizzaName && |r.value.pieces| == slices
      ensures r.Ok? ==> (forall i :: 0 <= i < slices ==> fresh(r.value.pieces[i])) && r.value.PriceCurrent()
    {
      var found := menu.GetPizza(pizzaName);
      if found.Err? {
        return Err(found.error);
      }
      if found.value.None? {
        return Err(NullPointer);
      }
      r := FromTemplate(menu, pizzaName, found.value.value, slices, doubled);
    }

    /** The rest of `createPizzaFromMenu`: the template's base is looked up
        again by name, the flag is set, and `slices` copies of the
        template's FIRST piece are built into the pizza. A template without
        pieces fails when the loop first reads its first piece, and a slice
        count that is not positive runs no pass and leaves `build` nothing. */
    static method FromTemplate(menu: Menu, pizzaName: string, template: Pizza, slices: int, doubled: bool)
      returns (r: Outcome<Pizza>)
      ensures old(!Distinct(NamesOf(menu.bases))) ==> r == Err(IllegalState)
      ensures old(Distinct(NamesOf(menu.bases))) && slices > 0 && |template.pieces| == 0 ==> r == Err(IndexOutOfBounds)
      ensures old(Distinct(NamesOf(menu.bases))) && !(slices > 0 && |template.pieces| == 0) ==>
        r.Ok? || r == Err(IllegalArgument)
      ensures r.Ok? <==>
        old(Distinct(NamesOf(menu.bases)) && template.pizzaBase.name in NamesOf(menu.bases)) &&
        TemplateUsable(template, pizzaName, slices)
      ensures r.Ok? ==> fresh(r.value) && r.value.name == pizzaName && |r.value.pieces| == slices
      ensures r.Ok? ==> forall i :: 0 <= i < slices ==> fresh(r.value.pieces[i])
      ensures r.Ok? ==> r.value.pizzaBase == old(menu.bases[FirstIndex(NamesOf(menu.bases), template.pizzaBase.name)])
      ensures r.Ok? ==> FirstPieceCopies(r.value.pieces, template.pieces[0], doubled)
      ensures r.Ok? ==> r.value.PriceCurrent()
    {
      var builder := new PizzaBuilder(pizzaName, menu);
      var withBase := builder.WithBase(template.pizzaBase.name);
      if withBase.Err? {
        return Err(withBase.error);
      }
      builder.WithDoubleIngredients(doubled);
      assert builder.name == pizzaName && builder.doubleIngredients == doubled;
      ghost var base := builder.base;
      r := CopyFirstPiece(builder, template, slices);
      assert builder.base == base;
    }

    /** The copying loop and `build` of `createPizzaFromMenu`. */
    static method CopyFirstPiece(builder: PizzaBuilder, template: Pizza, slices: int) returns (r: Outcome<Pizza>)
      requires builder.Valid() && builder.pieces == Some([])
      modifies builder`pieces
      ensures slices > 0 && |template.pieces| == 0 ==> r == Err(IndexOutOfBounds)
      ensures !(slices > 0 && |template.pieces| == 0) ==> r.Ok? || r == Err(IllegalArgument)
      ensures r.Ok? <==> builder.base != null && TemplateUsable(template, builder.name, slices)
      ensures r.Ok? ==> fresh(r.value) && r.value.name == builder.name && r.value.pizzaBase == builder.base
      ensures r.Ok? ==> |r.value.pieces| == slices && forall i :: 0 <= i < slices ==> fresh(r.value.pieces[i])
      ensures r.Ok? ==> FirstPieceCopies(r.value.pieces, template.pieces[0], builder.doubleIngredients)
      ensures r.Ok? ==> r.value.PriceCurrent()
    {
      if slices <= 0 {
        r := builder.Build();
        return;
      }
      if |template.pieces| == 0 {
        return Err(IndexOutOfBounds);
      }
      var piece := template.pieces[0];
      builder.CopyAll(Fill(slices, piece));
      r := BuildCopies(builder, piece);
    }

    /** The `build()` of `createPizzaFromMenu`, once the builder holds
        copies of one piece. */
    static method BuildCopies(builder: PizzaBuilder, piece: Piece) returns (r: Outcome<Pizza>)
      requires builder.Valid() && builder.pieces.Some? && |builder.pieces.value| > 0
      requires CopiesOf(builder.pieces.value, Fill(|builder.pieces.value|, piece))
      requires forall k :: 0 <= k < |builder.pieces.value| ==> builder.pieces.value[k].PriceCurrent()
      requires piece !in builder.pieces.value
      modifies builder.Collected()
      ensures r.Ok? || r == Err(IllegalArgument)
      ensures r.Ok? <==> builder.base != null && builder.name in piece.side.pizzasUsed
      ensures r.Ok? ==> fresh(r.value) && r.value.name == builder.name && r.value.pizzaBase == builder.base
      ensures r.Ok? ==> r.value.pieces == builder.pieces.value
      ensures r.Ok? ==> FirstPieceCopies(r.value.pieces, piece, builder.doubleIngredients)
      ensures r.Ok? ==> r.value.PriceCurrent()
    {
      ghost var made := builder.pieces.value;
      assert forall i :: 0 <= i < |made| ==>
        made[i].side == piece.side && made[i].ingredients == piece.ingredients &&
        made[i].price == piece.side.price + SumPrices(piece.ingredients);
      assert SidesAllow(builder.name, made) <==> builder.name in piece.side.pizzasUsed by {
        assert made[0].side == piece.side;
      }
      ghost var name := builder.name;
      ghost var base := builder.base;
      ghost var unitPrice := piece.side.price + SumPrices(piece.ingredients);
      r := builder.Build();
      assert builder.name == name && builder.base == base && builder.pieces.value == made;
      assert piece.side.price + SumPrices(piece.ingredients) == unitPrice;
      if r.Ok? {
        forall i | 0 <= i < |made|
          ensures made[i].side == piece.side && made[i].price == unitPrice
          ensures made[i].ingredients ==
            if builder.doubleIngredients then piece.ingredients + piece.ingredients else piece.ingredients
        {
        }
      }
    }

    /** `createCombinedPizza(name, slices, names...)` as written: the slice
        count is tested against the length of the NEW pizza's name, a
        source whose base has the SAME name as the first source's base is
        refused, and the builder is never given a base, so `build` refuses
        every pizza that gets that far. */
    method CreateCombinedPizza(pizzaName: string, slices: int, names: seq<string>) returns (r: Outcome<Pizza>)
      ensures r.Err?
      ensures |pizzaName| == 0 ==> r == Err(Arithmetic)
      ensures |pizzaName| > 0 && slices % JavaLength(pizzaName) != 0 ==> r == Err(IllegalArgument)
      ensures |pizzaName| > 0 && slices % JavaLength(pizzaName) == 0 ==>
        var sources := old(SourcesAsWritten(menu, names, PerSource(slices, |names|)));
        (sources.Err? ==> r == Err(sources.error)) && (sources.Ok? ==> r == Err(IllegalArgument))
    {
      var builder := new PizzaBuilder(pizzaName, menu);
      var nameLength := JavaLength(pizzaName);
      if nameLength == 0 {
        return Err(Arithmetic);
      }
      if slices % nameLength != 0 {
        return Err(IllegalArgument);
      }
      var copied := CopySourcesAsWritten(builder, slices, names);
      if copied.Err? {
        return Err(copied.error);
      }
      r := builder.Build();
    }

    /** The loop of `createCombinedPizza` as written: each source is looked
        up, a source whose base has the first source's base name is refused,
        and the first `slices / names` pieces of the source are copied,
        source after source. The lookups are made before the copying; the
        builder is local to the method and thrown away on failure, so the
        order is not observable. The builder is never given a base. */
    static method CopySourcesAsWritten(builder: PizzaBuilder, slices: int, names: seq<string>) returns (r: Outcome<()>)
      requires builder.Valid() && builder.base == null && builder.pieces == Some([])
      modifies builder`pieces
      ensures builder.Valid() && builder.base == null && builder.pieces.Some?
      ensures fresh(builder.Collected())
      ensures var sources := old(SourcesAsWritten(builder.menu, names, PerSource(slices, |names|)));
        (r.Ok? <==> sources.Ok?) && (r.Err? ==> r.error == sources.error) &&
        (r.Ok? ==> CopiesOf(builder.pieces.value, Slices(sources.value, PerSource(slices, |names|))))
    {
      var count := PerSource(slices, |names|);
      var found := SourcesAsWritten(builder.menu, names, count);
      if found.Err? {
        return Err(found.error);
      }
      if names != [] {
        CopyEachSliceAsWritten(builder, found.value, JavaDiv(slices, |names|), count);
      }
      return Ok(());
    }

    /** The copying of the loop of `createCombinedPizza` as written, over
        the sources found: the first pieces of each, below `bound`. */
    static method CopyEachSliceAsWritten(builder: PizzaBuilder, sources: seq<Pizza>, bound: int, ghost count: nat)
      requires builder.Valid() && builder.base == null && builder.pieces == Some([])
      requires count == if bound > 0 then bound else 0
      requires forall j :: 0 <= j < |sources| ==> count <= |sources[j].pieces|
      modifies builder`pieces
      ensures builder.Valid() && builder.base == null && builder.pieces.Some?
      ensures fresh(builder.Collected())
      ensures CopiesOf(builder.pieces.value, Slices(sources, count))
    {
      for j := 0 to |sources|
        invariant builder.Valid() && builder.base == null && builder.pieces.Some?
        invariant fresh(builder.Collected())
        invariant CopiesOf(builder.pieces.value, Slices(sources[..j], count))
      {
        var copied := CopySliceAsWritten(builder, sources[j], bound, count, sources[..j]);
        assert sources[..j + 1] == sources[..j] + [sources[j]];
      }
      assert sources[..|sources|] == sources;
    }

    /** One pass of the copying of `createCombinedPizza` as written: the
        first pieces of `pizza`, below `bound`, are copied after the pieces
        already made from the sources before it; an index past its pieces
        fails. */
    static method CopySliceAsWritten(builder: PizzaBuilder, pizza: Pizza, bound: int, ghost count: nat,
                                     ghost sources: seq<Pizza>)
      returns (r: Outcome<()>)
      requires builder.Valid() && builder.base == null && builder.pieces.Some?
      requires count == if bound > 0 then bound else 0
      requires forall j :: 0 <= j < |sources| ==> count <= |sources[j].pieces|
      requires CopiesOf(builder.pieces.value, Slices(sources, count))
      modifies builder`pieces
      ensures builder.Valid() && builder.base == null && builder.pieces.Some?
      ensures fresh(builder.Collected() - old(builder.Collected()))
      ensures r.Ok? <==> count <= |pizza.pieces|
      ensures r.Err? ==> r.error == IndexOutOfBounds
      ensures r.Ok? ==> CopiesOf(builder.pieces.value, Slices(sources + [pizza], count))
    {
      ghost var before := builder.pieces.value;
      ghost var done := Slices(sources, count);
      assert CopiesOf(before, done);
      r := CopyPrefixAsWritten(builder, pizza, bound);
      if r.Err? {
        return;
      }
      assert CopiesOf(before, done);
      assert (sources + [pizza])[..|sources|] == sources;
      assert Slices(sources + [pizza], count) == done + pizza.pieces[..count];
      assert builder.pieces.value == before + builder.pieces.value[|before|..];
      CopiesOfAppend(before, builder.pieces.value[|before|..], done, pizza.pieces[..count]);
    }

    /** The inner loop of `createCombinedPizza`: the pieces of `pizza` below
        `bound` are copied in order after the pieces already made, and the
        first index past its pieces fails. */
    static method CopyPrefixAsWritten(builder: PizzaBuilder, pizza: Pizza, bound: int) returns (r: Outcome<()>)
      requires builder.Valid() && builder.base == null && builder.pieces.Some?
      modifies builder`pieces
      ensures builder.Valid() && builder.base == null && builder.pieces.Some?
      ensures fresh(builder.Collected() - old(builder.Collected()))
      ensures r.Ok? <==> bound <= |pizza.pieces|
      ensures r.Err? ==> r.error == IndexOutOfBounds
      ensures |old(builder.pieces.value)| <= |builder.pieces.value|
      ensures builder.pieces.value[..|old(builder.pieces.value)|] == old(builder.pieces.value)
      ensures r.Ok? ==>
        CopiesOf(builder.pieces.value[|old(builder.pieces.value)|..], pizza.pieces[..if bound > 0 then bound else 0])
    {
      ghost var start := builder.pieces.value;
      var i := 0;
      while i < bound
        invariant 0 <= i <= |pizza.pieces| && (bound >= 0 ==> i <= bound) && (bound <= 0 ==> i == 0)
        invariant builder.Valid() && builder.base == null && builder.pieces.Some?
        invariant fresh(builder.Collected() - old(builder.Collected()))
        invariant |builder.pieces.value| == |start| + i && builder.pieces.value[..|start|] == start
        invariant forall k :: 0 <= k < i ==>
          builder.pieces.value[|start| + k].side == pizza.pieces[k].side &&
          builder.pieces.value[|start| + k].ingredients == pizza.pieces[k].ingredients
      {
        if i >= |pizza.pieces| {
          return Err(IndexOutOfBounds);
        }
        var added := builder.AddPieceFromTemplate(pizza.pieces[i]);
        i := i + 1;
      }
      assert i == if bound > 0 then bound else 0;
      assert forall k :: 0 <= k < i ==> builder.pieces.value[|start|..][k] == builder.pieces.value[|start| + k];
      assert CopiesOf(builder.pieces.value[|start|..], pizza.pieces[..i]);
      return Ok(());
    }

    /** `createCombinedPizza` as evidently intended: the slice count must
        divide evenly among the source pizzas, every source must have a base
        with the first source's base name, the builder takes that base from
        the menu, and the pizza gets the first `slices / names` pieces of
        each source, source after source. */
    method CreateCombinedPizzaCorrected(pizzaName: string, slices: int, names: seq<string>) returns (r: Outcome<Pizza>)
      ensures |names| == 0 ==> r == Err(Arithmetic)
      ensures |names| > 0 && slices % |names| != 0 ==> r == Err(IllegalArgument)
      ensures |names| > 0 && slices % |names| == 0 ==>
        var count := if slices > 0 then slices / |names| else 0;
        var sources := old(SourcesOf(menu, names, count));
        (sources.Err? ==> r == Err(sources.error)) &&
        (sources.Ok? && old(!Distinct(NamesOf(menu.bases))) ==> r == Err(IllegalState)) &&
        (sources.Ok? && old(Distinct(NamesOf(menu.bases))) ==> r.Ok? || r == Err(IllegalArgument)) &&
        (r.Ok? <==>
          sources.Ok? && slices > 0 &&
          old(Distinct(NamesOf(menu.bases)) && sources.value[0].pizzaBase.name in NamesOf(menu.bases) &&
              SidesAllow(pizzaName, Slices(sources.value, count)))) &&
        (r.Ok? ==>
          r.value.pizzaBase == old(menu.bases[FirstIndex(NamesOf(menu.bases), sources.value[0].pizzaBase.name)]) &&
          CopiesOf(r.value.pieces, old(Slices(sources.value, count))))
      ensures r.Ok? ==> fresh(r.value) && r.value.name == pizzaName && |r.value.pieces| == slices
      ensures r.Ok? ==> forall i :: 0 <= i < slices ==> fresh(r.value.pieces[i]) && r.value.pieces[i].PriceCurrent()
      ensures r.Ok? ==> r.value.PriceCurrent()
    {
      if |names| == 0 {
        return Err(Arithmetic);
      }
      if slices % |names| != 0 {
        return Err(IllegalArgument);
      }
      var count := SliceCount(slices, |names|);
      r := Combine(menu, pizzaName, names, count);
    }

    /** The corrected `createCombinedPizza` once the count of pieces taken
        from each source is known. */
    static method Combine(menu: Menu, pizzaName: string, names: seq<string>, count: nat) returns (r: Outcome<Pizza>)
      requires |names| > 0
      ensures old(SourcesOf(menu, names, count)).Err? ==> r == Err(old(SourcesOf(menu, names, count)).error)
      ensures old(SourcesOf(menu, names, count)).Ok? && old(!Distinct(NamesOf(menu.bases))) ==> r == Err(IllegalState)
      ensures old(SourcesOf(menu, names, count)).Ok? && old(Distinct(NamesOf(menu.bases))) ==>
        r.Ok? || r == Err(IllegalArgument)
      ensures r.Ok? <==>
        old(SourcesOf(menu, names, count)).Ok? && count > 0 &&
        old(Distinct(NamesOf(menu.bases)) &&
            SourcesOf(menu, names, count).value[0].pizzaBase.name in NamesOf(menu.bases) &&
            SidesAllow(pizzaName, Slices(SourcesOf(menu, names, count).value, count)))
      ensures r.Ok? ==>
        r.value.pizzaBase ==
          old(menu.bases[FirstIndex(NamesOf(menu.bases), SourcesOf(menu, names, count).value[0].pizzaBase.name)])
      ensures r.Ok? ==> CopiesOf(r.value.pieces, old(Slices(SourcesOf(menu, names, count).value, count)))
      ensures r.Ok? ==> fresh(r.value) && r.value.name == pizzaName && |r.value.pieces| == |names| * count
      ensures r.Ok? ==> forall i :: 0 <= i < |r.value.pieces| ==>
        fresh(r.value.pieces[i]) && r.value.pieces[i].PriceCurrent()
      ensures r.Ok? ==> r.value.PriceCurrent()
    {
      var found := SourcesOf(menu, names, count);
      if found.Err? {
        return Err(found.error);
      }
      r := CombineSources(menu, pizzaName, found.value, count, Slices(found.value, count));
    }

    /** The corrected `createCombinedPizza` once its source pizzas are found:
        the first `count` pieces of each source, then the first source's base. */
    static method CombineSources(menu: Menu, pizzaName: string, sources: seq<Pizza>, count: nat,
                                 ghost templates: seq<Piece>)
      returns (r: Outcome<Pizza>)
      requires |sources| > 0
      requires forall j :: 0 <= j < |sources| ==> count <= |sources[j].pieces|
      requires templates == Slices(sources, count)
      ensures old(!Distinct(NamesOf(menu.bases))) ==> r == Err(IllegalState)
      ensures old(Distinct(NamesOf(menu.bases))) ==> r.Ok? || r == Err(IllegalArgument)
      ensures r.Ok? <==>
        count > 0 &&
        old(Distinct(NamesOf(menu.bases)) && sources[0].pizzaBase.name in NamesOf(menu.bases) &&
            SidesAllow(pizzaName, Slices(sources, count)))
      ensures r.Ok? ==> r.value.pizzaBase == old(menu.bases[FirstIndex(NamesOf(menu.bases), sources[0].pizzaBase.name)])
      ensures r.Ok? ==> CopiesOf(r.value.pieces, old(Slices(sources, count)))
      ensures r.Ok? ==> fresh(r.value) && r.value.name == pizzaName && |r.value.pieces| == |sources| * count
      ensures r.Ok? ==> forall i :: 0 <= i < |r.value.pieces| ==>
        fresh(r.value.pieces[i]) && r.value.pieces[i].PriceCurrent()
      ensures r.Ok? ==> r.value.PriceCurrent()
    {
      var builder := CopiedBuilder(menu, pizzaName, sources, count);
      ghost var made := builder.pieces.value;
      assert forall i :: 0 <= i < |made| ==> made[i] in builder.Collected();
      assert CopiesOf(made, templates);
      assert forall i :: 0 <= i < |templates| ==> templates[i] !in builder.Collected();
      r := BaseAndBuild(builder, sources[0].pizzaBase.name, templates);
      assert r.Ok? ==> r.value.pieces == made;
    }

    /** A fresh builder holding copies of the first `count` pieces of each
        source, source after source. */
    static method CopiedBuilder(menu: Menu, pizzaName: string, sources: seq<Pizza>, count: nat)
      returns (builder: PizzaBuilder)
      requires forall j :: 0 <= j < |sources| ==> count <= |sources[j].pieces|
      ensures fresh(builder) && builder.name == pizzaName && builder.menu == menu
      ensures builder.Valid() && builder.pieces.Some? && !builder.doubleIngredients
      ensures fresh(builder.Collected())
      ensures forall p :: p in builder.pieces.value ==> p.PriceCurrent()
      ensures CopiesOf(builder.pieces.value, old(Slices(sources, count)))
      ensures |builder.pieces.value| == |sources| * count
      ensures SidesAllow(pizzaName, builder.pieces.value) == old(SidesAllow(pizzaName, Slices(sources, count)))
    {
      ghost var templates := Slices(sources, count);
      ghost var allowed := SidesAllow(pizzaName, templates);
      SlicesLength(sources, count);
      builder := new PizzaBuilder(pizzaName, menu);
      CopySlices(builder, sources, count);
      assert Slices(sources, count) == templates;
      assert SidesAllow(pizzaName, templates) == allowed;
      CopiesAllowSame(pizzaName, builder.pieces.value, templates);
    }

    /** The copying loop of the corrected `createCombinedPizza`, over the
        sources `SourcesOf` found. Java looks each source up just before
        copying from it; as a failed lookup throws and drops the builder,
        looking them all up first gives the same outcome. */
    static method CopySlices(builder: PizzaBuilder, sources: seq<Pizza>, count: nat)
      requires builder.Valid() && builder.pieces == Some([])
      requires forall j :: 0 <= j < |sources| ==> count <= |sources[j].pieces|
      modifies builder`pieces
      ensures builder.Valid() && builder.pieces.Some? && fresh(builder.Collected())
      ensures forall p :: p in builder.pieces.value ==> p.PriceCurrent()
      ensures CopiesOf(builder.pieces.value, Slices(sources, count))
    {
      for j := 0 to |sources|
        invariant builder.Valid() && builder.pieces.Some? && fresh(builder.Collected())
        invariant forall p :: p in builder.pieces.value ==> p.PriceCurrent()
        invariant CopiesOf(builder.pieces.value, Slices(sources[..j], count))
      {
        CopySlice(builder, sources[j], count, sources[..j]);
        assert sources[..j + 1] == sources[..j] + [sources[j]];
      }
      assert sources[..|sources|] == sources;
    }

    /** One pass of `CopySlices`: the first `count` pieces of `pizza` are
        copied after the pieces already made. */
    static method CopySlice(builder: PizzaBuilder, pizza: Pizza, count: nat, ghost sources: seq<Pizza>)
      requires builder.Valid() && builder.pieces.Some? && count <= |pizza.pieces|
      requires forall j :: 0 <= j < |sources| ==> count <= |sources[j].pieces|
      requires CopiesOf(builder.pieces.value, Slices(sources, count))
      requires forall p :: p in builder.pieces.value ==> p.PriceCurrent()
      modifies builder`pieces
      ensures builder.Valid() && builder.pieces.Some?
      ensures fresh(builder.Collected() - old(builder.Collected()))
      ensures forall p :: p in builder.pieces.value ==> p.PriceCurrent()
      ensures CopiesOf(builder.pieces.value, Slices(sources + [pizza], count))
    {
      ghost var before := builder.pieces.value;
      ghost var done := Slices(sources, count);
      assert CopiesOf(before, done);
      builder.CopyAll(pizza.pieces[..count]);
      assert CopiesOf(before, done);
      assert (sources + [pizza])[..|sources|] == sources;
      assert Slices(sources + [pizza], count) == done + pizza.pieces[..count];
      assert builder.pieces.value == before + builder.pieces.value[|before|..];
      CopiesOfAppend(before, builder.pieces.value[|before|..], done, pizza.pieces[..count]);
    }

    /** `withBase(name)` and `build()` on a builder that holds its pieces,
        copied from `templates`, and does not double them. */
    static method BaseAndBuild(builder: PizzaBuilder, baseName: string, ghost templates: seq<Piece>)
      returns (r: Outcome<Pizza>)
      requires builder.Valid() && builder.pieces.Some? && !builder.doubleIngredients
      requires forall p :: p in builder.pieces.value ==> p.PriceCurrent()
      requires CopiesOf(builder.pieces.value, templates)
      requires forall i :: 0 <= i < |templates| ==> templates[i] !in builder.Collected()
      modifies builder`base, builder.Collected()
      ensures CopiesOf(builder.pieces.value, templates)
      ensures unchanged(old(builder.Collected())) && builder.pieces == old(builder.pieces)
      ensures old(!Distinct(NamesOf(builder.menu.bases))) ==> r == Err(IllegalState)
      ensures old(Distinct(NamesOf(builder.menu.bases))) ==> r.Ok? || r == Err(IllegalArgument)
      ensures r.Ok? <==>
        old(Distinct(NamesOf(builder.menu.bases)) && baseName in NamesOf(builder.menu.bases)) &&
        builder.pieces.value != [] && old(SidesAllow(builder.name, builder.pieces.value))
      ensures r.Ok? ==> fresh(r.value) && r.value.name == builder.name && r.value.pieces == builder.pieces.value
      ensures r.Ok? ==> r.value.pizzaBase == old(builder.menu.bases[FirstIndex(NamesOf(builder.menu.bases), baseName)])
      ensures r.Ok? ==> r.value.PriceCurrent()
      ensures r.Ok? ==> forall i :: 0 <= i < |r.value.pieces| ==> r.value.pieces[i].PriceCurrent()
    {
      var withBase := builder.WithBase(baseName);
      if withBase.Err? {
        return Err(withBase.error);
      }
      r := BuildUndoubled(builder);
    }

    /** `build()` on a builder that holds priced pieces and does not double
        them: nothing is changed, and the pizza is made unless the base is
        missing, there are no pieces, or a side does not list the name. */
    static method BuildUndoubled(builder: PizzaBuilder) returns (r: Outcome<Pizza>)
      requires builder.Valid() && builder.pieces.Some? && !builder.doubleIngredients
      requires forall p :: p in builder.pieces.value ==> p.PriceCurrent()
      modifies builder.Collected()
      ensures unchanged(builder.Collected())
      ensures r.Ok? <==> builder.base != null && builder.pieces.value != [] && SidesAllow(builder.name, builder.pieces.value)
      ensures r.Err? ==> r.error == IllegalArgument
      ensures r.Ok? ==> fresh(r.value) && r.value.name == builder.name && r.value.pizzaBase == builder.base
      ensures r.Ok? ==> r.value.pieces == builder.pieces.value && r.value.PriceCurrent()
      ensures r.Ok? ==> forall i :: 0 <= i < |r.value.pieces| ==> r.value.pieces[i].PriceCurrent()
    {
      r := builder.Build();
    }

    /** `createCustomPizza(name, base, sides, rows)`: the base is looked up
        first (a missing one is null and refused by `build`), then slot `i`
        gets a piece with side `sides[i]` and the ingredients named in
        `rows[i]`; a slot without a row throws, and rows past the last side
        are ignored. */
    method CreateCustomPizza(pizzaName: string, baseName: string, sideNames: seq<string>, rows: seq<seq<string>>)
      returns (r: Outcome<Pizza>)
      ensures old(!Distinct(NamesOf(menu.bases))) ==> r == Err(IllegalState)
      ensures old(Distinct(NamesOf(menu.bases))) && old(PartsOf(menu, sideNames, rows)).Err? ==>
        r == Err(old(PartsOf(menu, sideNames, rows)).error)
      ensures old(Distinct(NamesOf(menu.bases))) && old(PartsOf(menu, sideNames, rows)).Ok? ==>
        r.Ok? || r == Err(IllegalArgument)
      ensures r.Ok? <==>
        old(Distinct(NamesOf(menu.bases)) && baseName in NamesOf(menu.bases)) && |sideNames| > 0 &&
        old(PartsOf(menu, sideNames, rows)).Ok? &&
        forall i :: 0 <= i < |sideNames| ==> pizzaName in old(PartsOf(menu, sideNames, rows)).value[i].0.pizzasUsed
      ensures r.Ok? ==> fresh(r.value) && r.value.name == pizzaName
      ensures r.Ok? ==> r.value.pizzaBase == old(menu.bases[FirstIndex(NamesOf(menu.bases), baseName)])
      ensures r.Ok? ==> MadeOf(r.value.pieces, old(PartsOf(menu, sideNames, rows)).value)
      ensures r.Ok? ==> forall i :: 0 <= i < |sideNames| ==>
        fresh(r.value.pieces[i]) && r.value.pieces[i].PriceCurrent()
      ensures r.Ok? ==> r.value.PriceCurrent()
    {
      var builder := new PizzaBuilder(pizzaName, menu);
      var withBase := builder.WithBase(baseName);
      if withBase.Err? {
        return Err(withBase.error);
      }
      assert PartsOf(menu, sideNames, rows) == old(PartsOf(menu, sideNames, rows));
      r := AddAllAndBuild(builder, sideNames, rows);
    }

    /** The loop and the `build()` of `createCustomPizza`, for a builder
        that already has its base. */
    static method AddAllAndBuild(builder: PizzaBuilder, sideNames: seq<string>, rows: seq<seq<string>>)
      returns (r: Outcome<Pizza>)
      requires builder.Valid() && builder.pieces == Some([]) && !builder.doubleIngredients
      modifies builder`pieces
      ensures old(PartsOf(builder.menu, sideNames, rows)).Err? ==>
        r == Err(old(PartsOf(builder.menu, sideNames, rows)).error)
      ensures old(PartsOf(builder.menu, sideNames, rows)).Ok? ==> r.Ok? || r == Err(IllegalArgument)
      ensures r.Ok? <==>
        builder.base != null && |sideNames| > 0 && old(PartsOf(builder.menu, sideNames, rows)).Ok? &&
        forall i :: 0 <= i < |sideNames| ==>
          builder.name in old(PartsOf(builder.menu, sideNames, rows)).value[i].0.pizzasUsed
      ensures r.Ok? ==> fresh(r.value) && r.value.name == builder.name && r.value.pizzaBase == builder.base
      ensures r.Ok? ==> MadeOf(r.value.pieces, old(PartsOf(builder.menu, sideNames, rows)).value)
      ensures r.Ok? ==> forall i :: 0 <= i < |sideNames| ==>
        fresh(r.value.pieces[i]) && r.value.pieces[i].PriceCurrent()
      ensures r.Ok? ==> r.value.PriceCurrent()
    {
      ghost var expected := PartsOf(builder.menu, sideNames, rows);
      var added := AddEachPiece(builder, sideNames, rows);
      assert PartsOf(builder.menu, sideNames, rows) == expected;
      if added.Err? {
        return Err(added.error);
      }
      assert forall k :: 0 <= k < |sideNames| ==> builder.pieces.value[k] in builder.Collected();
      r := BuildCustom(builder, expected.value);
    }

    /** The `build()` that ends `createCustomPizza`: the pieces are made of
        `parts` and are not doubled. */
    static method BuildCustom(builder: PizzaBuilder, ghost parts: seq<(Component, seq<Component>)>)
      returns (r: Outcome<Pizza>)
      requires builder.Valid() && builder.pieces.Some? && !builder.doubleIngredients
      requires MadeOf(builder.pieces.value, parts)
      requires forall k :: 0 <= k < |parts| ==> builder.pieces.value[k].PriceCurrent()
      modifies builder.Collected()
      ensures builder.base == null ==> r == Err(IllegalArgument)
      ensures builder.base != null ==>
        (r.Ok? <==> |parts| > 0 && forall i :: 0 <= i < |parts| ==> builder.name in parts[i].0.pizzasUsed)
      ensures r.Err? ==> r.error == IllegalArgument
      ensures r.Ok? ==> fresh(r.value) && r.value.name == builder.name && r.value.pizzaBase == builder.base
      ensures r.Ok? ==> r.value.pieces == builder.pieces.value && MadeOf(r.value.pieces, parts)
      ensures r.Ok? ==> (forall i :: 0 <= i < |parts| ==> r.value.pieces[i].PriceCurrent()) && r.value.PriceCurrent()
    {
      ghost var made := builder.pieces.value;
      assert SidesAllow(builder.name, made) <==>
        forall i :: 0 <= i < |parts| ==> builder.name in parts[i].0.pizzasUsed;
      ghost var name := builder.name;
      ghost var base := builder.base;
      r := builder.Build();
      assert builder.name == name && builder.base == base && builder.pieces.value == made;
    }

    /** The loop of `createCustomPizza`: one `addPieces(sides[i], rows[i])`
        per side name, in order, stated over the menu as it stands, which
        adding pieces does not change. */
    static method AddEachPiece(builder: PizzaBuilder, sideNames: seq<string>, rows: seq<seq<string>>)
      returns (r: Outcome<()>)
      requires builder.Valid() && builder.pieces == Some([])
      modifies builder`pieces
      ensures builder.Valid() && builder.pieces.Some? && fresh(builder.Collected())
      ensures forall p :: p in builder.pieces.value ==> p.PriceCurrent()
      ensures r.Err? ==> PartsOf(builder.menu, sideNames, rows) == Err(r.error)
      ensures r.Ok? ==> PartsOf(builder.menu, sideNames, rows).Ok?
      ensures r.Ok? ==> MadeOf(builder.pieces.value, PartsOf(builder.menu, sideNames, rows).value)
    {
      ghost var parts: seq<(Component, seq<Component>)> := [];
      for i := 0 to |sideNames|
        invariant builder.Valid() && builder.pieces.Some? && fresh(builder.Collected())
        invariant forall p :: p in builder.pieces.value ==> p.PriceCurrent()
        invariant PartsOf(builder.menu, sideNames[..i], rows) == Ok(parts)
        invariant MadeOf(builder.pieces.value, parts)
      {
        r, parts := AddPiecesStep(builder, sideNames, rows, i, parts);
        if r.Err? {
          return;
        }
      }
      assert sideNames[..|sideNames|] == sideNames;
      return Ok(());
    }

    /** One round of that loop: slot `i` adds one piece made of the parts
        `PieceParts` finds, after the pieces made for the slots before it;
        a slot that fails decides the error of the whole loop. */
    static method AddPiecesStep(builder: PizzaBuilder, sideNames: seq<string>, rows: seq<seq<string>>, i: nat,
                                ghost parts: seq<(Component, seq<Component>)>)
      returns (r: Outcome<()>, ghost next: seq<(Component, seq<Component>)>)
      requires builder.Valid() && builder.pieces.Some?
      requires i < |sideNames|
      requires PartsOf(builder.menu, sideNames[..i], rows) == Ok(parts)
      requires MadeOf(builder.pieces.value, parts)
      requires forall p :: p in builder.pieces.value ==> p.PriceCurrent()
      modifies builder`pieces
      ensures builder.Valid() && builder.pieces.Some?
      ensures fresh(builder.Collected() - old(builder.Collected()))
      ensures forall p :: p in builder.pieces.value ==> p.PriceCurrent()
      ensures r.Err? ==> PartsOf(builder.menu, sideNames, rows) == Err(r.error)
      ensures r.Ok? ==> PartsOf(builder.menu, sideNames[..i + 1], rows) == Ok(next) && MadeOf(builder.pieces.value, next)
    {
      if i >= |rows| {
        SlotFails(builder.menu, sideNames, rows, i, parts, IndexOutOfBounds);
        return Err(IndexOutOfBounds), parts;
      }
      ghost var now := PieceParts(builder.menu, sideNames[i], rows[i]);
      r, next := AddSlot(builder, sideNames[i], rows[i], parts);
      assert PieceParts(builder.menu, sideNames[i], rows[i]) == now;
      assert PartsOf(builder.menu, sideNames[..i], rows) == Ok(parts);
      if r.Err? {
        SlotFails(builder.menu, sideNames, rows, i, parts, r.error);
      } else {
        SlotFound(builder.menu, sideNames, rows, i, parts);
      }
    }

    /** `addPieces(side, row)` for one slot, after the pieces made of
        `parts`. */
    static method AddSlot(builder: PizzaBuilder, sideName: string, row: seq<string>,
                          ghost parts: seq<(Component, seq<Component>)>)
      returns (r: Outcome<()>, ghost next: seq<(Component, seq<Component>)>)
      requires builder.Valid() && builder.pieces.Some? && MadeOf(builder.pieces.value, parts)
      requires forall p :: p in builder.pieces.value ==> p.PriceCurrent()
      modifies builder`pieces
      ensures builder.Valid() && builder.pieces.Some?
      ensures fresh(builder.Collected() - old(builder.Collected()))
      ensures forall p :: p in builder.pieces.value ==> p.PriceCurrent()
      ensures r.Err? ==> old(PieceParts(builder.menu, sideName, row)) == Err(r.error)
      ensures r.Ok? ==> old(PieceParts(builder.menu, sideName, row)).Ok?
      ensures r.Ok? ==> next == parts + [old(PieceParts(builder.menu, sideName, row)).value] && MadeOf(builder.pieces.value, next)
    {
      ghost var now := PieceParts(builder.menu, sideName, row);
      ghost var before := builder.pieces.value;
      var added := builder.AddPieces(sideName, row);
      if added.Err? {
        return Err(added.error), parts;
      }
      next := parts + [now.value];
      assert builder.pieces.value == before + [added.value];
      return Ok(()), next;
    }

    /** `createOrder(pizzas, comments, guests, date)`: the new order is
        appended to the log. */
    method CreateOrder(pizzas: seq<Pizza>, comments: string, numberOfGuests: int, postponedDate: Option<Date>,
                       today: Date, id: OrderId) returns (order: Order)
      modifies this`savedOrder
      ensures fresh(order) && savedOrder == old(savedOrder) + [order]
      ensures order.pizzas == pizzas && order.comments == comments && order.numberOfGuests == numberOfGuests
      ensures order.postponedDate == postponedDate && order.date == today && order.orderId == id
      ensures order.price == SumPizzaPrices(pizzas)
    {
      order := new Order(pizzas, comments, numberOfGuests, postponedDate, today, id);
      savedOrder := savedOrder + [order];
    }
  }

  /** The builder as written cannot take a single piece: its list was never
      created. */
  method FirstCopyAsWritten(name: string, menu: Menu, template: Piece) returns (r: Outcome<Piece>)
    ensures r == Err(NullPointer)
  {
    var builder := new PizzaBuilder.AsWritten(name, menu);
    r := builder.AddPieceFromTemplate(template);
  }

  /** With the list created, the first copy of a template is taken, priced
      from the template's side and ingredients. */
  method FirstCopy(name: string, menu: Menu, template: Piece) returns (r: Outcome<Piece>)
    ensures r.Ok? && r.value.side == template.side && r.value.ingredients == template.ingredients
    ensures r.Ok? && r.value.price == template.side.price + SumPrices(template.ingredients)
  {
    var builder := new PizzaBuilder(name, menu);
    r := builder.AddPieceFromTemplate(template);
  }
}
