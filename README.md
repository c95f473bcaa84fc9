# Pizza composition and pricing, three versions

This project models the in-memory core of a pizza-ordering program. The
program exists in three successive versions, and each one is its own Dafny
module:

- **Flat** (`src/Main.java`) is the earliest version. A pizza is a base plus
  a list of ingredients. Its price is a stored field. The constructor and
  `setIngredients` recompute it; `setPizzaBase` and a component's
  `setPrice` leave it stale.
- **Early** (`src/BasicLogic/Main.java`) is the middle version. A pizza is
  a base plus an array of pieces, and each piece is a side plus
  ingredients. Pieces and pizzas keep stored prices that their setters
  recompute by running sums. The menu looks names up with a first-match scan
  that throws on a miss. The bases are validated against the last base named
  `Классическое`, and a failed check nulls the base list. Growing a pizza
  makes the new slots share the old last piece, so doubling the pizza's
  pieces doubles that shared piece once per slot it fills.
- **Latest** and **LatestBuilder** (`src/BasicLogic/Constructor.java`) are the
  latest version:
  - Components are equal when their names are equal.
  - A pizza is refused unless every piece's side lists the pizza's name.
  - Doubling a piece's ingredients does not reprice it.
  - The base check measures against the first `Классическое` base.
  - Lookups go through a name map. It throws on duplicate names and yields
    null for a missing one.
  - A `PizzaBuilder` stages a base, pieces and a doubling flag. A
    `PizzaConstructor` uses it to make a pizza in three ways: from a menu
    template, combined from several menu pizzas, or custom.

Shared modules:
- `Outcomes` holds `Outcome`/`Option` and the error kinds that stand for
  Java's exceptions. A `NullPointerException` becomes `Err(NullPointer)`.
- `Seqs` holds the sequence vocabulary: first and last match, removal at an
  index, the array resize, occurrence counts and repeated doubling.
- `Components` holds the one mutable component class that stands for
  ingredients, bases and sides.

Modelling choices:
- Prices are `real`.
- Pieces, pizzas, components, the menus, builders and orders are classes, so
  the sharing of piece objects between slots is visible.
- A Java array or `LinkedList` held in a field is a `seq` field that the
  methods reassign.
- A value the Java code may see as `null` is an `Option`, or a nullable class
  type (`Component?`).
- Exceptions the code throws, or crashes it runs into, are `Err` results with
  the exception's kind.

Where the code and the written design of the program disagree, the model
follows the code:
- The design asks combined pizzas to share an identical base. The code
  refuses a later source whose base has the same name as the first one (see
  Findings).
- The design says a failed base check aborts loading the catalogue. The
  middle version instead nulls the base list and keeps the menu, and
  `Early.Menu.constructor` models that.

## Model

| member | source | states |
|---|---|---|
| Seqs.FirstIndex | src/BasicLogic/Main.java:267-275 | the index a left-to-right scan stops at holds the name, and no earlier index does |
| Seqs.LastIndex | src/BasicLogic/Main.java:241-248 | the candidate a scan keeps overwriting ends at the last match: it matches and no later index does |
| Seqs.LastIndexStep | src/BasicLogic/Main.java:244-246 | scanning one more element makes it the last match exactly when it matches, and leaves the last match alone otherwise |
| Seqs.RemoveAt | src/BasicLogic/Main.java:353-355 | `LinkedList.remove` at an index: one shorter, the prefix kept, the rest shifted down by one |
| Seqs.Resized | src/BasicLogic/Main.java:185-192 | the resized piece array has exactly the requested length |
| Seqs.ResizedGrown | src/BasicLogic/Main.java:187-191 | growing keeps the old array and appends copies of the old last piece |
| Seqs.ResizedShape | src/BasicLogic/Constructor.java:248-253 | after a resize: the new length, the entries below both lengths unchanged, and every grown slot holding the old last piece |
| Seqs.ResizedElements | src/BasicLogic/Main.java:187-191 | a resize introduces no piece that was not there before |
| Seqs.ResizedTwice | src/BasicLogic/Main.java:419-421 | resizing twice to the same count equals resizing once, so a pizza requested twice ends the same |
| Seqs.ResizedLastCount | src/BasicLogic/Main.java:189-191 | after growing an array of distinct pieces from m to n slots, the old last piece fills n - m + 1 slots and every other old piece fills one |
| Seqs.DoubledLength | src/BasicLogic/Main.java:124-127 | k in-place doublings `addAll` of a list multiply its length by 2^k |
| Seqs.CountAppend | src/BasicLogic/Main.java:423-425 | slot counts of pieces add up over concatenation |
| Seqs.CountDistinct | src/BasicLogic/Main.java:423-425 | a piece in a list of distinct pieces fills exactly one slot |
| Components.Component.constructor | src/BasicLogic/Main.java:72-75 | a new component has the given name, price and list of pizzas it may go with |
| Components.Component.SetName | src/Main.java:21-23 | `setName` sets the name and leaves the price and the pizza list unchanged |
| Components.Component.SetPrice | src/Main.java:25-27 | `setPrice` sets the price and leaves the name and the pizza list unchanged |
| Components.Component.SetListOfPizzasUsed | src/BasicLogic/Constructor.java:124-126 | replaces the side's pizza list and nothing else |
| Components.NamesOf | src/BasicLogic/Constructor.java:315 | the names of a component list, slot by slot (`T::getName`) |
| Components.SumPricesAppend | src/Main.java:65-67 | the price sum of a concatenation is the sum of the parts' price sums |
| Components.SumPricesStep | src/Main.java:65-67 | one pass of the summing loop adds exactly the next ingredient's price |
| Flat.Pizza.constructor | src/Main.java:54-60 | the pizza keeps the name, base and ingredients in the given order, and its price is base price plus the ingredient prices |
| Flat.Pizza.PriceUpdate | src/Main.java:62-68 | the stored price becomes base price plus the sum of the ingredient prices |
| Flat.Pizza.SetName | src/Main.java:78-80 | only the name changes; price, ingredients and base stay |
| Flat.Pizza.SetIngredients | src/Main.java:82-85 | the list is replaced and the price recomputed from the new list; name and base stay |
| Flat.Pizza.SetPizzaBase | src/Main.java:87-89 | the base changes and the price does not, so a current price goes stale when the new base costs something else |
| Flat.StoredPriceGoesStale | src/Main.java:62-72 | after an ingredient of a priced pizza is repriced, `getPrice` still returns the old sum, which no longer agrees with the components |
| Early.Piece.constructor | src/BasicLogic/Main.java:96-100 | the piece keeps its side and ingredients and is priced from them |
| Early.Piece.UpdatePrice | src/BasicLogic/Main.java:102-108 | the stored price becomes side price plus the ingredient prices |
| Early.Piece.SetIngredients | src/BasicLogic/Main.java:114-117 | the ingredients are replaced and the piece repriced; the side stays |
| Early.Piece.SetSides | src/BasicLogic/Main.java:119-122 | the side is replaced and the piece repriced; the ingredients stay |
| Early.Piece.DoublingIngredients | src/BasicLogic/Main.java:124-127 | the ingredients become `s ++ s`, and the price becomes side price plus twice their price sum |
| Early.SumPiecePricesStep | src/BasicLogic/Main.java:149-151 | one pass of the pizza's summing loop adds exactly the next piece's stored price |
| Early.Pizza.constructor | src/BasicLogic/Main.java:138-144 | any pieces are accepted, with no side check, and the pizza is priced as base plus piece prices |
| Early.Pizza.PriceUpdate | src/BasicLogic/Main.java:146-152 | the stored price becomes base price plus the stored piece prices |
| Early.Pizza.SetName | src/BasicLogic/Main.java:166-168 | the name is replaced |
| Early.Pizza.SetIngredients | src/BasicLogic/Main.java:170-173 | a position outside the array throws, with nothing repriced; otherwise that piece's ingredients are replaced and the piece and the pizza repriced |
| Early.Pizza.SetPizzaBase | src/BasicLogic/Main.java:175-178 | the base is replaced and the pizza repriced; the pieces stay |
| Early.Pizza.SetSides | src/BasicLogic/Main.java:180-183 | a position outside the array throws; otherwise that piece's side is replaced and the piece and the pizza repriced |
| Early.Pizza.SetNumberOfPieces | src/BasicLogic/Main.java:185-192 | a negative count throws and changes nothing; otherwise the pieces become the resized array; the price is not recomputed |
| Early.Pizza.ReplacePieces | src/BasicLogic/Main.java:194-196 | the whole piece array is swapped in, unpriced |
| Early.DoubleEachPiece | src/BasicLogic/Main.java:423-425 | a piece filling k slots has its ingredients doubled k times, keeps its side, and ends with a current price |
| Early.PizzaNames | src/BasicLogic/Main.java:270 | the names of a pizza list, slot by slot |
| Early.FirstMatches | src/BasicLogic/Main.java:264-282 | one element per requested name, in request order, each the first list element carrying that name |
| Early.FirstMatchesIn | src/BasicLogic/Main.java:269-273 | every element a lookup returns comes from the searched list |
| Early.ReadBases | src/BasicLogic/Main.java:239-248 | every parsed base is appended in order, and `classic` ends as the last base named `Классическое`, or null when there is none |
| Early.CheckBases | src/BasicLogic/Main.java:216-224 | true exactly when no base's price is more than 120 percent of the classic price |
| Early.ValidatedBases | src/BasicLogic/Main.java:239-259 | the base list is kept when a classic base exists and passes the check, and is nulled otherwise |
| Early.Menu.constructor | src/BasicLogic/Main.java:206-213 | the menu starts without pizzas, holds the given ingredients and sides, and holds the bases exactly when they pass validation |
| Early.Menu.SearchInMenu | src/BasicLogic/Main.java:264-282 | succeeds exactly when every requested name is on the list and then returns the first matches in request order; a missing name throws `IllegalArgumentException` |
| Early.Menu.GetIngredients | src/BasicLogic/Main.java:288-290 | the first ingredient of each requested name, or `IllegalArgumentException` when one is missing |
| Early.Menu.GetBase | src/BasicLogic/Main.java:297-299 | a nulled base list throws a null pointer; otherwise the first base of the name, or `IllegalArgumentException` |
| Early.Menu.GetSide | src/BasicLogic/Main.java:305-307 | the first side of the name, or `IllegalArgumentException` |
| Early.Menu.GetPizza | src/BasicLogic/Main.java:313-315 | the first pizza of the name, or `IllegalArgumentException` |
| Early.Menu.Change | src/BasicLogic/Main.java:317-321 | the first component of the name is renamed and repriced in place, and every other component of the list keeps its name, price and pizza list; a missing name throws and a nulled list is a null pointer, both changing nothing |
| Early.Menu.ChangeSide | src/BasicLogic/Main.java:323-328 | as `change`, and the side's pizza list is replaced too; every other side is untouched, and a missing name changes nothing |
| Early.Menu.ChangePizza | src/BasicLogic/Main.java:330-335 | the first pizza of the name gets the new name and base and a current price; the piece at the position gets the new ingredients, or a bad position throws after the name and base have changed; every other pizza and every other piece on the menu is untouched, and a missing name changes nothing |
| Early.Pizza.Revise | src/BasicLogic/Main.java:332-334 | the three setter calls of `change`: the new name and base with a current price, then the new ingredients at the position or `IndexOutOfBounds` |
| Early.Menu.AddPizzaSides | src/BasicLogic/Main.java:337-339 | a new side with the given name, price and pizza list is appended, the old list kept as its prefix |
| Early.Menu.AddIngredient | src/BasicLogic/Main.java:341-343 | a new ingredient is appended, the old list kept as its prefix |
| Early.Menu.AddBase | src/BasicLogic/Main.java:345-347 | a new base is appended; on a nulled base list the call throws a null pointer |
| Early.Menu.AddPizza | src/BasicLogic/Main.java:349-351 | the pizza is appended at the end |
| Early.Menu.RemoveFirstNamed | src/BasicLogic/Main.java:353-355 | removes the slot of the first element of the name, or throws `IllegalArgumentException` when the name is missing |
| Early.Menu.Shelve | src/BasicLogic/Main.java:353-355 | the list behind the chosen shelf is replaced and the other two lists stay |
| Early.Menu.Delete | src/BasicLogic/Main.java:353-355 | the first component of the name is dropped from the chosen list and the other lists stay; a missing name throws, and a nulled list is a null pointer |
| Early.Menu.DeletePizza | src/BasicLogic/Main.java:353-355 | the first pizza of the name is dropped, or a missing name throws and the list stays |
| Early.RemoveIndex | src/BasicLogic/Main.java:354 | `LinkedList.remove(Object)` finds the first slot holding the object |
| Early.SumPizzaPricesStep | src/BasicLogic/Main.java:388-390 | one pass of the order's summing loop adds exactly the next pizza's stored price |
| Early.Order.constructor | src/BasicLogic/Main.java:373-383 | the order keeps its pizzas, comment, day, optional later day and id, and its price field is the pizza price sum at creation |
| Early.Order.GetPrice | src/BasicLogic/Main.java:385-392 | every call sums the pizzas' current stored prices |
| Early.PizzaConstructor.constructor | src/BasicLogic/Main.java:407-413 | the constructor holds the menu and an empty order log |
| Early.PizzaConstructor.CreateNewPizzaFromMenu | src/BasicLogic/Main.java:416-430 | succeeds exactly when every name is on the menu and the count is not negative (or nothing was requested); returns the menu's own pizzas, first match per name, each resized in place with its name and price untouched; every menu pizza keeps its base, and the pizzas not returned, or all of them on failure, keep their name, pieces and price; on failure, or without the flag, no piece of the menu's pizzas changes |
| Early.ResizeOnMenu | src/BasicLogic/Main.java:417-427 | the resizing loop over pizzas found on the menu: fails exactly when the count is negative and some pizza was found, then changing no pizza and no piece; otherwise each found pizza is resized with name and price untouched, and the other menu pizzas and every base stay; without the flag no piece changes |
| Early.PizzaConstructor.CreateNewPizza | src/BasicLogic/Main.java:432-443 | a nulled base list, a missing base and a missing side each fail first; the pizza is made exactly when every lookup succeeds and there are as many rows as sides, and then piece i is fresh, has side i and the first ingredients of row i; a row count other than the side count is a null pointer |
| Early.PizzaConstructor.NewPieces | src/BasicLogic/Main.java:437-440 | one fresh, priced piece per row with the i-th side; a missing ingredient throws, and a row past the last side is a null pointer |
| Early.PizzaConstructor.LookUpRows | src/BasicLogic/Main.java:437-439 | the rows' lookups in order: all of them found exactly when every ingredient is on the menu and no row lacks a side |
| Early.PizzaConstructor.CreateOrder | src/BasicLogic/Main.java:445-449 | exactly one fresh order, built from the arguments, is appended at the end of the log |
| Early.ResizeAndDouble | src/BasicLogic/Main.java:419-426 | a negative count throws and changes nothing; otherwise the pieces are resized, and with the flag each piece's ingredients are doubled once per slot it fills and repriced, every piece keeps its side, and the pieces no longer in the pizza are untouched; without the flag no piece changes |
| Early.ResizeAll | src/BasicLogic/Main.java:419-427 | a negative count fails on the first pizza and changes no pizza and no piece; otherwise every pizza is resized, its name and price untouched; every pizza keeps its base; without the flag no piece changes |
| Early.ResizeAt | src/BasicLogic/Main.java:418-424 | one round of the loop: the chosen pizza is resized or, on a negative count, nothing changes; no other pizza's pieces change, every pizza's pieces stay among the pieces given, and without the flag no piece changes |
| Early.MakePieces | src/BasicLogic/Main.java:439 | one fresh, priced piece per side and ingredient list, in order |
| Latest.SameName | src/BasicLogic/Constructor.java:51-59 | two components are equal exactly when their names are equal |
| Latest.NewSide | src/BasicLogic/Constructor.java:112-118 | fewer than two tokens fail when indexed; exactly two are refused; otherwise a side is made with the first token as its name and the tokens from index 2 on as its pizza list |
| Latest.Piece.constructor | src/BasicLogic/Constructor.java:134-138 | the piece keeps its side and ingredients and is priced from them |
| Latest.Piece.UpdatePrice | src/BasicLogic/Constructor.java:140-146 | the stored price becomes side price plus the ingredient prices |
| Latest.Piece.SetIngredients | src/BasicLogic/Constructor.java:160-163 | the ingredients are replaced and the piece repriced; the side stays |
| Latest.Piece.SetSides | src/BasicLogic/Constructor.java:165-168 | the side is replaced and the piece repriced; the ingredients stay |
| Latest.Piece.DoubleIngredients | src/BasicLogic/Constructor.java:170-173 | the ingredients become `s ++ s` while the price stays, so a piece whose ingredients cost anything has a stale price |
| Latest.SumPiecePricesStep | src/BasicLogic/Constructor.java:205-207 | one pass of the summing loop adds exactly the next piece's stored price |
| Latest.Pizza.constructor | src/BasicLogic/Constructor.java:185-192 | once the side check has passed, the pizza keeps its parts and is priced as base plus piece prices |
| Latest.Pizza.Create | src/BasicLogic/Constructor.java:185-192 | a pizza is made exactly when every piece's side lists its name, and otherwise `IllegalArgumentException` is thrown |
| Latest.Pizza.CheckSides | src/BasicLogic/Constructor.java:194-200 | the scan passes exactly when every piece's side lists the name |
| Latest.Pizza.PriceUpdate | src/BasicLogic/Constructor.java:202-208 | the stored price becomes base price plus the stored piece prices |
| Latest.Pizza.SetName | src/BasicLogic/Constructor.java:226-228 | the name is replaced, and the sides are not checked against it |
| Latest.Pizza.SetIngredients | src/BasicLogic/Constructor.java:230-233 | a position outside the array throws; otherwise that piece's ingredients are replaced and the piece and the pizza repriced |
| Latest.Pizza.SetPizzaBase | src/BasicLogic/Constructor.java:235-238 | the base is replaced and the pizza repriced |
| Latest.Pizza.SetSides | src/BasicLogic/Constructor.java:240-243 | a position outside the array throws; otherwise the piece gets the side and everything is repriced, and a side that does not list the pizza's name makes the pizza fail its own side check |
| Latest.Pizza.SetNumberOfPieces | src/BasicLogic/Constructor.java:245-254 | a count of zero or less throws `IllegalArgumentException` and changes nothing; otherwise the pieces become the resized array; the price is not recomputed |
| Latest.Pizza.SetPieces | src/BasicLogic/Constructor.java:256-258 | a position outside the array throws and changes nothing; otherwise exactly that slot is overwritten |
| Latest.PizzaNames | src/BasicLogic/Constructor.java:315 | the names of a pizza list, slot by slot |
| Latest.FindFirstNamed | src/BasicLogic/Constructor.java:286-287 | `findFirst` yields a value exactly when the name is there, and then the first component of that name |
| Latest.AnyAbove | src/BasicLogic/Constructor.java:290 | `anyMatch` is true exactly when some component costs more than the limit |
| Latest.CheckBases | src/BasicLogic/Constructor.java:285-293 | passes exactly when a base named `Классическое` exists and no base costs more than 1.2 times the first such base; otherwise `IllegalArgumentException` |
| Latest.CeilingTestsAgree | src/BasicLogic/Main.java:219 | for a positive classic price, the middle version's percentage test and the latest version's product test agree |
| Latest.CeilingsAgree | src/BasicLogic/Main.java:217-222 | for a positive classic price, no base exceeds the middle version's percentage ceiling exactly when none costs more than 1.2 times the classic price |
| Latest.BaseChecksAgree | src/BasicLogic/Constructor.java:285-293 | with exactly one positive classic base, the middle and the latest base checks accept the same base lists |
| Latest.ToMap | src/BasicLogic/Constructor.java:315 | succeeds exactly when the names are distinct and then maps each name to its element; a duplicate throws `IllegalStateException` |
| Latest.LookUpAll | src/BasicLogic/Constructor.java:317-319 | one entry per requested name, in order: the mapped element or null |
| Latest.SearchInMenu | src/BasicLogic/Constructor.java:313-321 | succeeds exactly when the list's names are distinct; then one entry per requested name in request order, the element of that name or null |
| Latest.SearchAgreesWithScan | src/BasicLogic/Constructor.java:313-321 | against the middle version's scan: the same elements when names are distinct and all present, a null entry where the scan would throw, and an exception on duplicate names |
| Latest.RemoveEqual | src/BasicLogic/Constructor.java:373 | `remove(o)` drops the first element with `o`'s name, or leaves the list as it is |
| Latest.RemoveNamed | src/BasicLogic/Constructor.java:372-374 | duplicate names throw; otherwise the first element of the name is dropped, and a missing name leaves the list as it is |
| Latest.Menu.constructor | src/BasicLogic/Constructor.java:303-310 | a menu that passed the base check holds the loaded lists and no pizzas |
| Latest.Menu.Load | src/BasicLogic/Constructor.java:303-310 | a menu is made exactly when the base check passes, and otherwise `IllegalArgumentException` |
| Latest.Menu.GetIngredients | src/BasicLogic/Constructor.java:327-329 | on distinct names, one entry per requested name: the ingredient of that name, or null exactly when it is missing |
| Latest.Menu.GetBase | src/BasicLogic/Constructor.java:336-338 | on distinct names, the base of the name, or null exactly when it is missing |
| Latest.Menu.GetSide | src/BasicLogic/Constructor.java:344-346 | on distinct names, the side of the name, or null exactly when it is missing |
| Latest.Menu.GetPizza | src/BasicLogic/Constructor.java:352-354 | on distinct names, the pizza of the name, or null exactly when it is missing |
| Latest.Menu.ChangeComponent | src/BasicLogic/Constructor.java:356-360 | duplicate names throw and a missing name hands the updater null, both changing nothing; otherwise the component of the name is renamed and repriced, keeps its pizza list, and every other one keeps its name, price and pizza list |
| Latest.Menu.AddComponent | src/BasicLogic/Constructor.java:363-370 | the created element is appended to the chosen list and the other lists stay |
| Latest.Menu.AddPizza | src/BasicLogic/Constructor.java:363-370 | the pizza is appended at the end |
| Latest.Menu.DeleteComponent | src/BasicLogic/Constructor.java:372-374 | duplicate names throw; otherwise the element of the name is removed and a missing name leaves the list unchanged; the other lists stay |
| Latest.Menu.DeletePizza | src/BasicLogic/Constructor.java:372-374 | as `deleteComponent`, on the pizza list |
| Latest.SumPizzaPricesStep | src/BasicLogic/Constructor.java:403-405 | one pass of the order's summing loop adds exactly the next pizza's stored price |
| Latest.Order.constructor | src/BasicLogic/Constructor.java:387-398 | the order keeps its arguments, and its price is the pizza price sum at creation |
| Latest.Order.PriceCalculation | src/BasicLogic/Constructor.java:400-407 | the sum of the pizzas' stored prices |
| Latest.Order.PriceForEachGuest | src/BasicLogic/Constructor.java:409-411 | the per-guest share times the number of guests gives back the order's price |
| LatestBuilder.JavaDiv | src/BasicLogic/Constructor.java:517 | Java's truncating `int` division: the Euclidean quotient for a non-negative dividend, never positive for a negative one |
| LatestBuilder.JavaLength | src/BasicLogic/Constructor.java:504 | `String.length()` counts UTF-16 units: between one and two per character, and one per character exactly when all lie in the Basic Multilingual Plane |
| LatestBuilder.SliceCount | src/BasicLogic/Constructor.java:517 | the loop bound `slices / n` as a count of pieces per source: zero for a count that is not positive, and when positive n of them make `slices` |
| LatestBuilder.SlicesLength | src/BasicLogic/Constructor.java:508-520 | taking q pieces from each of k sources gives k·q templates |
| LatestBuilder.SumPiecePricesOfPrices | src/BasicLogic/Constructor.java:205-207 | a pizza's price sum depends only on its pieces' stored prices |
| LatestBuilder.DoubleEach | src/BasicLogic/Constructor.java:466-470 | every collected piece doubles its ingredients once and keeps its side and price |
| LatestBuilder.CopiesOfAppend | src/BasicLogic/Constructor.java:456-461 | copies made slot by slot stay copies when lists are concatenated |
| LatestBuilder.CopiesAllowSame | src/BasicLogic/Constructor.java:456-461 | copies pass the side check for a name exactly when their templates do |
| LatestBuilder.PartsOf | src/BasicLogic/Constructor.java:527-529 | the parts found for the custom pizza have one entry per side |
| LatestBuilder.PartsOfFound | src/BasicLogic/Constructor.java:527-529 | the custom lookups succeed exactly when every side has a row and every slot finds its side and ingredients |
| LatestBuilder.PartsOfSlots | src/BasicLogic/Constructor.java:527-529 | when they succeed, slot i holds what the lookup of side i and row i finds |
| LatestBuilder.PartsOfPrefixes | src/BasicLogic/Constructor.java:527-529 | the first slot that fails decides the error of the whole loop |
| LatestBuilder.PartsOfFailedPrefix | src/BasicLogic/Constructor.java:527-529 | a failed prefix of the slots decides the error of the whole loop |
| LatestBuilder.SlotFails | src/BasicLogic/Constructor.java:527-529 | a slot that fails, after the slots before it succeeded, gives the loop its error |
| LatestBuilder.SlotFound | src/BasicLogic/Constructor.java:527-529 | a slot that finds its parts extends the parts found for the slots before it |
| LatestBuilder.SourcesOf | src/BasicLogic/Constructor.java:508-519 | found sources are menu pizzas with enough pieces and all with the first source's base name |
| LatestBuilder.SourcesAsWritten | src/BasicLogic/Constructor.java:508-519 | the lookups of the as-written loop: found sources are menu pizzas with enough pieces, and every later source's base has a name other than the first source's |
| LatestBuilder.SourcesInverted | src/BasicLogic/Constructor.java:510-515 | whenever two or more sources pass the intended lookup, which demands one base name, the as-written test refuses them with `IllegalArgumentException` |
| LatestBuilder.Picked | src/BasicLogic/Constructor.java:446 | the ingredients picked are, in order, the first of each requested name |
| LatestBuilder.PizzaBuilder.constructor | src/BasicLogic/Constructor.java:434-437 | the correction of the first Findings row: a new builder has the name and menu, no base, no doubling, and an empty piece list (as written the list stays null, see `AsWritten`) |
| LatestBuilder.PizzaBuilder.AsWritten | src/BasicLogic/Constructor.java:434-437 | as written, the piece list of a new builder stays null |
| LatestBuilder.PizzaBuilder.WithBase | src/BasicLogic/Constructor.java:439-442 | duplicate base names throw and leave the base; otherwise the base becomes the menu's base of the name, or null when it is missing |
| LatestBuilder.PizzaBuilder.WithDoubleIngredients | src/BasicLogic/Constructor.java:451-454 | the doubling flag is set |
| LatestBuilder.PizzaBuilder.AddPieceFromTemplate | src/BasicLogic/Constructor.java:456-461 | on a null list, a null pointer; otherwise a fresh piece with the template's side and ingredients, priced from them, is appended |
| LatestBuilder.PizzaBuilder.AddPieces | src/BasicLogic/Constructor.java:444-449 | a failed lookup fails with its error; on a null list, a null pointer; otherwise a fresh priced piece of the side and ingredients found is appended |
| LatestBuilder.PizzaBuilder.LookUpParts | src/BasicLogic/Constructor.java:445-446 | the side and ingredient lookups of `addPieces` give exactly the parts `PieceParts` describes, errors included |
| LatestBuilder.PizzaBuilder.AddPiece | src/BasicLogic/Constructor.java:445-446 | a fresh priced piece of the given parts is appended |
| LatestBuilder.PizzaBuilder.CopyAll | src/BasicLogic/Constructor.java:456-461 | one fresh priced copy per template is appended, in order |
| LatestBuilder.PizzaBuilder.Build | src/BasicLogic/Constructor.java:463-473 | no base or no pieces is refused; with the flag every piece's ingredients double while sides and prices stay; the pizza is made exactly when every side lists the name, holds the pieces in insertion order, and costs base price plus the undoubled piece prices |
| LatestBuilder.PizzaConstructor.constructor | src/BasicLogic/Constructor.java:481-485 | the constructor holds the menu and an empty order log |
| LatestBuilder.PizzaConstructor.CreatePizzaFromMenu | src/BasicLogic/Constructor.java:487-498 | duplicate or missing template names fail; the pizza is made exactly when its base is found, the count is positive, and the template's first piece has a side listing the new name; then it has that many fresh copies of the first piece; otherwise a template without pieces and a positive count throw `IndexOutOfBounds`, and every other refusal is `IllegalArgumentException` |
| LatestBuilder.PizzaConstructor.FromTemplate | src/BasicLogic/Constructor.java:490-497 | the template's base is looked up by name and `slices` copies of its first piece are built; a template without pieces fails by index |
| LatestBuilder.PizzaConstructor.CopyFirstPiece | src/BasicLogic/Constructor.java:494-497 | the copying loop and `build`: `slices` fresh copies of the first piece, or the failure of index, base or sides |
| LatestBuilder.PizzaConstructor.BuildCopies | src/BasicLogic/Constructor.java:497 | `build` on copies of one piece succeeds exactly when there is a base and that piece's side lists the name |
| LatestBuilder.PizzaConstructor.CreateCombinedPizza | src/BasicLogic/Constructor.java:500-522 | as written, every call fails: an empty name divides by zero, a count not divisible by the name's UTF-16 length is refused; then the loop's error, if any, is the error of `SourcesAsWritten` (a missing name, a duplicate name, a source too short, or a later source whose base has the first one's name), and otherwise `build` refuses the missing base |
| LatestBuilder.PizzaConstructor.CopySourcesAsWritten | src/BasicLogic/Constructor.java:508-520 | the as-written loop fails exactly when `SourcesAsWritten` does, with its error; otherwise the builder, still without a base, holds fresh copies of the first `slices / n` pieces of each source, source after source |
| LatestBuilder.PizzaConstructor.CopyPrefixAsWritten | src/BasicLogic/Constructor.java:517-519 | fails with `IndexOutOfBounds` exactly when the bound passes the source's pieces; otherwise copies of the source's pieces below the bound are appended after the pieces already there, which stay |
| LatestBuilder.PizzaConstructor.CopyEachSliceAsWritten | src/BasicLogic/Constructor.java:508-520 | the as-written loop over sources already found: the builder ends holding fresh copies of every source's first pieces, in order |
| LatestBuilder.PizzaConstructor.CopySliceAsWritten | src/BasicLogic/Constructor.java:517-519 | one source's first pieces are copied after those already made, or `IndexOutOfBounds` exactly when the source has too few |
| LatestBuilder.PizzaConstructor.CreateCombinedPizzaCorrected | src/BasicLogic/Constructor.java:500-522 | no sources divide by zero and an uneven count is refused; a source lookup fails with its error; otherwise the pizza is made exactly when the count is positive, the common base is on the menu, and every taken piece's side lists the name; then it holds copies of the first `slices / n` pieces of each source, source after source |
| LatestBuilder.PizzaConstructor.Combine | src/BasicLogic/Constructor.java:508-521 | the corrected loop and build for a known per-source count |
| LatestBuilder.PizzaConstructor.CombineSources | src/BasicLogic/Constructor.java:508-521 | the corrected loop and build once the sources are found |
| LatestBuilder.PizzaConstructor.CopiedBuilder | src/BasicLogic/Constructor.java:501-519 | a fresh builder holding priced copies of the templates, which pass the side check exactly when the templates do |
| LatestBuilder.PizzaConstructor.CopySlices | src/BasicLogic/Constructor.java:508-520 | the builder ends holding fresh priced copies of every source's first pieces, in order |
| LatestBuilder.PizzaConstructor.CopySlice | src/BasicLogic/Constructor.java:517-519 | one source's first pieces are copied after those already made |
| LatestBuilder.PizzaConstructor.BaseAndBuild | src/BasicLogic/Constructor.java:439-442 | duplicate base names throw; the pizza is made exactly when the base is found, there are pieces, and every side lists the name |
| LatestBuilder.PizzaConstructor.BuildUndoubled | src/BasicLogic/Constructor.java:530 | `build` without doubling changes no piece, and makes the pizza exactly when there is a base, there are pieces and every side lists the name |
| LatestBuilder.PizzaConstructor.CreateCustomPizza | src/BasicLogic/Constructor.java:524-532 | duplicate base names throw; otherwise the first failing slot decides the error; the pizza is made exactly when the base is found, there is a side, every slot finds its parts and every side lists the name; then piece i is fresh and made of the parts of slot i |
| LatestBuilder.PizzaConstructor.AddAllAndBuild | src/BasicLogic/Constructor.java:527-530 | the loop and `build` of the custom pizza, for a builder that has its base |
| LatestBuilder.PizzaConstructor.BuildCustom | src/BasicLogic/Constructor.java:530 | `build` with the custom parts: refused without a base, and otherwise made exactly when there are pieces and every side lists the name |
| LatestBuilder.PizzaConstructor.AddEachPiece | src/BasicLogic/Constructor.java:527-529 | the loop over the menu as it stands succeeds exactly when the custom lookups do, fails with the first failing slot's error, and otherwise leaves fresh priced pieces made of the parts, slot by slot |
| LatestBuilder.PizzaConstructor.AddPiecesStep | src/BasicLogic/Constructor.java:528 | one round: a slot without a row or with a failed lookup gives the loop its error; otherwise one piece of the slot's parts is added |
| LatestBuilder.PizzaConstructor.AddSlot | src/BasicLogic/Constructor.java:528 | `addPieces` for one slot: fails with the lookup's error, or appends a fresh priced piece made of the parts found |
| LatestBuilder.PizzaConstructor.CreateOrder | src/BasicLogic/Constructor.java:534-538 | exactly one fresh order, built from the arguments, is appended at the end of the log |
| LatestBuilder.FirstCopyAsWritten | src/BasicLogic/Constructor.java:456-461 | with the builder as written, the first `addPieceFromTemplate` is a null pointer |
| LatestBuilder.FirstCopy | src/BasicLogic/Constructor.java:456-461 | with the piece list created, the first copy succeeds and is priced from the template's side and ingredients |

## Left out

- File reading is not modelled. This covers `readIngredientsFromFile`'s scanner loops, `FileLoader.loadMenuData`/`readItem` and `Double.parseDouble`. The parsed component lists are parameters. In the middle version each ingredient line also yields a side; the menu takes both lists as given.
- `Ingredient(String[])`, `PizzaBase(String[])` and the middle version's `PizzaSides(String[])` are not modelled. They are parsing, with no check beyond array indexing.
- Printing is not modelled: `Print`, `Menu.print` and the `System.err` messages are console output.
- `main` methods and the wiring of `PizzaConstructor(files)` are not modelled. The latter passes the ingredients file as the sides file. Both constructors take the loaded menu.
- `LocalDate.now()` and `UUID.randomUUID()` are parameters of the `Order` constructors and of `CreateOrder`.
- Prices are exact `real`s. IEEE rounding of `1.2 *` and `100 * p / c` is not modelled.
- Early.ValidatedBases: division by a zero classic price is excluded by a precondition. Java would compute Infinity or NaN there.
- Early.Menu.constructor: the same precondition applies, for the same reason.
- Latest.Order.PriceForEachGuest: a zero guest count is excluded by a precondition. Java's double division gives Infinity or NaN there.
- The updater, supplier and function plumbing is not modelled. `changeComponent` is modelled with an updater that renames and reprices; `addComponent` appends the element the creator made.
- Getters that return a field (`getPrice`, `getName`, `getPieces`, `getBase`, the list getters) are not members. The model reads the fields directly.
- Early.Pizza.SetNumberOfPieces: growing an empty pizza is excluded by a precondition. Java first reassigns the array and then indexes slot -1, leaving a pizza of nulls.
- Latest.Pizza.SetNumberOfPieces: the same case is excluded, for the same reason.
- Early.ResizeAndDouble: the same precondition applies.
- Early.ResizeAll: the same precondition applies.
- Early.ResizeOnMenu: the same precondition applies, to the looked-up pizzas only.
- Early.ResizeAt: the same precondition applies, to the chosen pizza.
- Early.PizzaConstructor.CreateNewPizzaFromMenu: the same precondition applies, to the looked-up pizzas only.
- Early.PizzaConstructor.CreateNewPizzaFromMenu: the ingredient doubling is not stated. A piece can be shared between slots and between pizzas, and the lookup may repeat a pizza; `ResizeAndDouble` states it for one pizza.
- Early.ResizeAll: the ingredient doubling is not stated either, for the same reason.
- Early.ResizeOnMenu: the ingredient doubling is not stated either, for the same reason.
- Early.ResizeAt: the ingredient doubling is not stated either; `ResizeAndDouble` states it for the chosen pizza.
- Arrays and `LinkedList`s held in fields are `seq` values. Two objects that share one Java list, such as a piece and the caller that handed it the list, are not modelled as sharing it. Piece objects shared between slots are modelled.
- LatestBuilder.PizzaConstructor.CopySlices: the Java loop looks each source up just before copying from it. The model looks all of them up first (`SourcesOf`). A failed lookup throws and drops the builder, so the outcome is the same.
- LatestBuilder.PizzaConstructor.CopySourcesAsWritten: the Java loop looks each source up just before copying from it. The model looks all of them up first (`SourcesAsWritten`). A failure throws and drops the builder, so the outcome is the same.
- LatestBuilder.PizzaConstructor.CreatePizzaFromMenu: it runs on the builder with its piece list created empty, the correction of the first Findings row. As written, the first `addPieceFromTemplate` (line 457) throws `NullPointerException`, or `pieces.isEmpty()` (line 464) does when no piece is copied.
- LatestBuilder.PizzaConstructor.CreateCustomPizza: the same correction is assumed. As written, the first `addPieces` (line 445) throws `NullPointerException`, or `pieces.isEmpty()` (line 464) does when there is no side.
- LatestBuilder.PizzaConstructor.CreateCombinedPizzaCorrected: the same correction is assumed. As written, the first copied piece (line 457) throws `NullPointerException`, or `pieces.isEmpty()` (line 464) does when nothing is copied.
- LatestBuilder.PizzaConstructor.CreateCombinedPizza: the same correction is assumed. As written, the first copied piece (line 457) throws `NullPointerException` in place of a later source's error or of `build`'s refusal.

## Findings

| source | as written | input that shows it | evidently intended | confidence | as-written member | corrected member |
|---|---|---|---|---|---|---|
| src/BasicLogic/Constructor.java:430-437 | the `PizzaBuilder` constructor never creates the `pieces` list, so it stays null | any builder, then `addPieceFromTemplate(p)` or `addPieces(s)`: a `NullPointerException` | the list starts empty, as `build`'s `pieces.isEmpty()` test expects | high, not executed | LatestBuilder.FirstCopyAsWritten | LatestBuilder.FirstCopy |
| src/BasicLogic/Constructor.java:500-522 | three defects. The divisibility test uses `pizzaName.length()`. A source whose base has the SAME name as the first one is refused. `withBase` is never called, so `build` always throws | `createCombinedPizza("abc", 4, "X", "Y")` is refused, although 4 pieces split evenly between 2 sources; every call fails, at `build` at the latest | slices divisible by the number of sources; all sources sharing the first base's name; that base given to the builder | high, not executed | LatestBuilder.PizzaConstructor.CreateCombinedPizza | LatestBuilder.PizzaConstructor.CreateCombinedPizzaCorrected |
