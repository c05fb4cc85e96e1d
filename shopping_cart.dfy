/**
 * `generate_shopping_cart_csv(user)`: the shopping list of a user. It walks
 * the user's cart entries, and for each the ingredient lines of the
 * recipe, parses every line's free-text amount with `float()` and adds it
 * to a running total per ingredient (per ingredient row, not per name).
 * Then it writes one CSV row per ingredient, in the order in which the
 * ingredients were first met: the capitalised name, the total, the unit.
 *
 * Amounts are exact reals. The CSV text and the HTTP response around it
 * are not part of this model: a row is a triple.
 */
module ShoppingCart {
  import opened Wrappers
  import opened Collections
  import opened Text
  import opened Numbers
  import opened Models
  import opened Store

  /** `[ingredient.name.capitalize(), total_amount, ingredient.measurement_unit]` */
  datatype CsvRow = CsvRow(name: string, total: real, unit: string)

  /** The `ValueError` of `float(amount_per_serving)`, with the line that raised it. */
  datatype ExportError = BadAmount(line: IngredientLine)

  /** `ingredient_totals`: the keys in insertion order, and the total of each key. */
  datatype Totals = Totals(order: seq<Id>, sums: map<Id, real>)

  /** `recipe.recipe_ingredients.all()`: the lines of `recipe`, in table order. */
  function LinesOf(lines: seq<IngredientLine>, recipe: Id): (r: seq<IngredientLine>)
    ensures forall l :: l in r <==> l in lines && l.recipe == recipe
  {
    if lines == [] then []
    else (if lines[0].recipe == recipe then [lines[0]] else []) + LinesOf(lines[1..], recipe)
  }

  /** Equal lines are separate rows: a line of the recipe comes out as many times as the
      table holds it, a line of another recipe never. */
  lemma {:induction false} LinesOfCount(lines: seq<IngredientLine>, recipe: Id)
    ensures forall l :: multiset(LinesOf(lines, recipe))[l] == if l.recipe == recipe then multiset(lines)[l] else 0
    decreases |lines|
  {
    if lines != [] {
      LinesOfCount(lines[1..], recipe);
      assert lines == [lines[0]] + lines[1..];
    }
  }

  /** The lines of a recipe keep the table's order: those in an earlier stretch of the table
      come before those in a later one. */
  lemma {:induction false} LinesOfAppend(a: seq<IngredientLine>, b: seq<IngredientLine>, recipe: Id)
    ensures LinesOf(a + b, recipe) == LinesOf(a, recipe) + LinesOf(b, recipe)
    decreases |a|
  {
    if a == [] {
      assert a + b == b;
    } else {
      var head := if a[0].recipe == recipe then [a[0]] else [];
      assert (a + b)[0] == a[0];
      assert (a + b)[1..] == a[1..] + b;
      LinesOfAppend(a[1..], b, recipe);
      calc {
        LinesOf(a + b, recipe);
        head + LinesOf(a[1..] + b, recipe);
        head + (LinesOf(a[1..], recipe) + LinesOf(b, recipe));
        (head + LinesOf(a[1..], recipe)) + LinesOf(b, recipe);
        LinesOf(a, recipe) + LinesOf(b, recipe);
      }
    }
  }

  /** The lines visited for the given cart recipes, in visiting order. */
  function CartLines(recipes: seq<Id>, lines: seq<IngredientLine>): seq<IngredientLine> {
    if recipes == [] then []
    else CartLines(recipes[..|recipes| - 1], lines) + LinesOf(lines, recipes[|recipes| - 1])
  }

  /** `ingredient_totals[ingredient] += value` on a `defaultdict(float)`. The ensures only
      unfold the definition; `AddKeepsDictionary` states what `+=` keeps. */
  function Add(t: Totals, ingredient: Id, value: real): (r: Totals)
    ensures ingredient in t.sums ==> r.order == t.order && r.sums == t.sums[ingredient := t.sums[ingredient] + value]
    ensures ingredient !in t.sums ==> r.order == t.order + [ingredient] && r.sums == t.sums[ingredient := value]
  {
    if ingredient in t.sums then Totals(t.order, t.sums[ingredient := t.sums[ingredient] + value])
    else Totals(t.order + [ingredient], t.sums[ingredient := 0.0 + value])
  }

  /** The dictionary's invariant: every key is listed once in the order, and nothing else is. */
  ghost predicate DictShape(t: Totals) {
    Distinct(t.order) && forall id :: id in t.sums <==> id in t.order
  }

  /** `+=` keeps the dictionary's invariant, lists the key, and adds `value` to its total, starting
      from `0.0` for a new key; the other totals stay. */
  lemma AddKeepsDictionary(t: Totals, ingredient: Id, value: real)
    requires DictShape(t)
    ensures DictShape(Add(t, ingredient, value))
    ensures ingredient in Add(t, ingredient, value).order
    ensures Add(t, ingredient, value).sums[ingredient] == (if ingredient in t.sums then t.sums[ingredient] else 0.0) + value
    ensures forall id | id in t.sums && id != ingredient :: Add(t, ingredient, value).sums[id] == t.sums[id]
  {
    if ingredient !in t.sums {
      AppendKeepsDistinct(t.order, ingredient);
    }
  }

  /** A reading of an amount text: `float()` in the export, `None` where it raises. */
  type AmountParser = string -> Option<real>

  /** The totals after visiting `s` in order; the first amount that does not parse stops everything. */
  function Accumulate(s: seq<IngredientLine>, parse: AmountParser): Result<Totals, ExportError> {
    if s == [] then Success(Totals([], map[]))
    else
      var last := s[|s| - 1];
      match Accumulate(s[..|s| - 1], parse)
      case Failure(e) => Failure(e)
      case Success(t) =>
        match parse(last.amount)
        case None => Failure(BadAmount(last))
        case Some(v) => Success(Add(t, last.ingredient, v))
  }

  /** The row written for one ingredient. */
  function MakeRow(id: Id, sums: map<Id, real>, ingredients: map<Id, IngredientRow>): CsvRow
    requires id in sums && id in ingredients
  {
    CsvRow(Capitalize(ingredients[id].name), sums[id], ingredients[id].measurementUnit)
  }

  /** The rows written for the keys `ids`, in order. The ensures only unfold the definition;
      `ShoppingListRows` relates the rows to the ingredients and their sums. */
  function RowsOf(ids: seq<Id>, sums: map<Id, real>, ingredients: map<Id, IngredientRow>): (r: seq<CsvRow>)
    requires forall k | 0 <= k < |ids| :: ids[k] in sums && ids[k] in ingredients
    ensures |r| == |ids|
    ensures forall k | 0 <= k < |ids| :: r[k] == MakeRow(ids[k], sums, ingredients)
  {
    seq(|ids|, k requires 0 <= k < |ids| => MakeRow(ids[k], sums, ingredients))
  }

  /** The line's ingredient is a stored ingredient. */
  predicate LinesResolve(lines: seq<IngredientLine>, ingredients: map<Id, IngredientRow>) {
    forall l | l in lines :: l.ingredient in ingredients
  }

  /** In valid tables every recipe line names a stored ingredient, so the export can read it. */
  lemma StoredLinesResolve(t: Tables)
    requires TablesValid(t)
    ensures LinesResolve(t.recipeIngredients, t.ingredients)
  {
  }

  /** What the export produces for `user`: the rows, or the error of the first bad amount. */
  function ShoppingList(carts: seq<UserRecipe>, lines: seq<IngredientLine>, ingredients: map<Id, IngredientRow>, user: Id): Result<seq<CsvRow>, ExportError>
    requires LinesResolve(lines, ingredients)
  {
    var visited := CartLines(LinkedRecipes(carts, user), lines);
    CartLinesResolve(LinkedRecipes(carts, user), lines, ingredients);
    match Accumulate(visited, ParseAmount)
    case Failure(e) => Failure(e)
    case Success(t) =>
      AccumulateKeys(visited, ParseAmount, ingredients);
      Success(RowsOf(t.order, t.sums, ingredients))
  }

  /** `generate_shopping_cart_csv(user)` */
  method GenerateShoppingCartCsv(carts: seq<UserRecipe>, lines: seq<IngredientLine>, ingredients: map<Id, IngredientRow>, user: Id)
    returns (r: Result<seq<CsvRow>, ExportError>)
    requires LinesResolve(lines, ingredients)
    ensures r == ShoppingList(carts, lines, ingredients, user)
  {
    var entries := LinkedRecipes(carts, user);
    var totals := Totals([], map[]);
    var i := 0;
    while i < |entries|
      invariant 0 <= i <= |entries|
      invariant Accumulate(CartLines(entries[..i], lines), ParseAmount) == Success(totals)
    {
      var added := AddRecipeLines(CartLines(entries[..i], lines), totals, LinesOf(lines, entries[i]));
      CartLinesNext(entries, lines, i);
      if added.Failure? {
        FailureReachesEnd(entries, lines, i);
        return Failure(added.error);
      }
      totals := added.value;
      i := i + 1;
    }
    assert entries[..i] == entries;
    CartLinesResolve(entries, lines, ingredients);
    AccumulateKeys(CartLines(entries, lines), ParseAmount, ingredients);
    var rows := WriteRows(totals, ingredients);
    return Success(rows);
  }

  /** The inner loop of the export: the lines of one recipe added to the running totals. */
  method AddRecipeLines(ghost visited: seq<IngredientLine>, totals: Totals, recipeLines: seq<IngredientLine>)
    returns (r: Result<Totals, ExportError>)
    requires Accumulate(visited, ParseAmount) == Success(totals)
    ensures r == Accumulate(visited + recipeLines, ParseAmount)
  {
    var current := totals;
    ghost var seen := visited;
    var j := 0;
    while j < |recipeLines|
      invariant 0 <= j <= |recipeLines|
      invariant seen == visited + recipeLines[..j]
      invariant Accumulate(seen, ParseAmount) == Success(current)
    {
      var line := recipeLines[j];
      var amount := ParseAmount(line.amount);
      AccumulateSnoc(seen, line, ParseAmount);
      PrefixSnoc(visited, recipeLines, j);
      seen := seen + [line];
      if amount.None? {
        CutAfter(visited, recipeLines, j);
        FailurePersists(seen, recipeLines[j + 1..], ParseAmount);
        return Failure(BadAmount(line));
      }
      current := Add(current, line.ingredient, amount.value);
      j := j + 1;
    }
    assert recipeLines[..j] == recipeLines;
    return Success(current);
  }

  /** The writing loop of the export: one row per key, in key order. */
  method WriteRows(totals: Totals, ingredients: map<Id, IngredientRow>) returns (rows: seq<CsvRow>)
    requires forall id | id in totals.order :: id in totals.sums && id in ingredients
    ensures rows == RowsOf(totals.order, totals.sums, ingredients)
  {
    rows := [];
    var k := 0;
    while k < |totals.order|
      invariant 0 <= k <= |totals.order|
      invariant rows == RowsOf(totals.order[..k], totals.sums, ingredients)
    {
      var id := totals.order[k];
      rows := rows + [CsvRow(Capitalize(ingredients[id].name), totals.sums[id], ingredients[id].measurementUnit)];
      k := k + 1;
    }
    assert totals.order[..k] == totals.order;
  }

  lemma PrefixSnoc<T>(a: seq<T>, b: seq<T>, j: nat)
    requires j < |b|
    ensures (a + b[..j]) + [b[j]] == a + b[..j + 1]
  {
    assert b[..j + 1] == b[..j] + [b[j]];
  }

  lemma CutAfter<T>(a: seq<T>, b: seq<T>, j: nat)
    requires j < |b|
    ensures a + b == (a + b[..j + 1]) + b[j + 1..]
  {
    assert b == b[..j + 1] + b[j + 1..];
  }

  /** The lines visited for the first `i + 1` cart recipes. */
  lemma CartLinesNext(entries: seq<Id>, lines: seq<IngredientLine>, i: nat)
    requires i < |entries|
    ensures CartLines(entries[..i + 1], lines) == CartLines(entries[..i], lines) + LinesOf(lines, entries[i])
  {
    assert entries[..i + 1][..i] == entries[..i];
  }

  /** Visiting one more line: its amount is added to its ingredient's total, or the walk fails on it. */
  lemma AccumulateSnoc(prefix: seq<IngredientLine>, line: IngredientLine, parse: AmountParser)
    requires Accumulate(prefix, parse).Success?
    ensures parse(line.amount).None? ==> Accumulate(prefix + [line], parse) == Failure(BadAmount(line))
    ensures parse(line.amount).Some? ==>
              Accumulate(prefix + [line], parse) == Success(Add(Accumulate(prefix, parse).value, line.ingredient, parse(line.amount).value))
  {
    assert (prefix + [line])[..|prefix|] == prefix;
  }

  /** A failure within the `i`-th cart recipe is the failure of the whole walk. */
  lemma FailureReachesEnd(entries: seq<Id>, lines: seq<IngredientLine>, i: nat)
    requires i < |entries|
    requires Accumulate(CartLines(entries[..i + 1], lines), ParseAmount).Failure?
    ensures Accumulate(CartLines(entries, lines), ParseAmount) == Accumulate(CartLines(entries[..i + 1], lines), ParseAmount)
  {
    CartLinesAppend(entries[..i + 1], entries[i + 1..], lines);
    assert entries[..i + 1] + entries[i + 1..] == entries;
    FailurePersists(CartLines(entries[..i + 1], lines), CartLines(entries[i + 1..], lines), ParseAmount);
  }

  /** Once the walk has failed, visiting more lines does not change the error. */
  lemma {:induction false} FailurePersists(s: seq<IngredientLine>, t: seq<IngredientLine>, parse: AmountParser)
    requires Accumulate(s, parse).Failure?
    ensures Accumulate(s + t, parse) == Accumulate(s, parse)
    decreases |t|
  {
    if t == [] {
      assert s + t == s;
    } else {
      var init := t[..|t| - 1];
      FailurePersists(s, init, parse);
      assert (s + t)[..|s + t| - 1] == s + init;
    }
  }

  lemma {:induction false} CartLinesAppend(a: seq<Id>, b: seq<Id>, lines: seq<IngredientLine>)
    ensures CartLines(a + b, lines) == CartLines(a, lines) + CartLines(b, lines)
    decreases |b|
  {
    if b == [] {
      assert a + b == a;
    } else {
      var init, x := b[..|b| - 1], b[|b| - 1];
      assert (a + b)[..|a + b| - 1] == a + init && (a + b)[|a + b| - 1] == x;
      assert CartLines(a + b, lines) == CartLines(a + init, lines) + LinesOf(lines, x);
      CartLinesAppend(a, init, lines);
    }
  }

  /** Every visited line is a line of the table, so its ingredient is stored. */
  lemma {:induction false} CartLinesResolve(recipes: seq<Id>, lines: seq<IngredientLine>, ingredients: map<Id, IngredientRow>)
    requires LinesResolve(lines, ingredients)
    ensures LinesResolve(CartLines(recipes, lines), ingredients)
    decreases |recipes|
  {
    if recipes != [] {
      CartLinesResolve(recipes[..|recipes| - 1], lines, ingredients);
    }
  }

  /** The ingredient of every line, in order. */
  function IngredientIds(s: seq<IngredientLine>): (r: seq<Id>)
    ensures |r| == |s|
    ensures forall k | 0 <= k < |s| :: r[k] == s[k].ingredient
  {
    seq(|s|, k requires 0 <= k < |s| => s[k].ingredient)
  }

  /** The parsed amount of a line whose amount parses (0 otherwise). */
  function AmountValue(l: IngredientLine, parse: AmountParser): real {
    match parse(l.amount)
    case Some(v) => v
    case None => 0.0
  }

  /** Reference definition: the sum of the amounts of the lines of `s` that use `ingredient`. */
  function SumFor(s: seq<IngredientLine>, ingredient: Id, parse: AmountParser): real {
    if s == [] then 0.0
    else (if s[0].ingredient == ingredient then AmountValue(s[0], parse) else 0.0) + SumFor(s[1..], ingredient, parse)
  }

  /** Sums over a concatenation add up. */
  lemma {:induction false} SumForAppend(a: seq<IngredientLine>, b: seq<IngredientLine>, ingredient: Id, parse: AmountParser)
    ensures SumFor(a + b, ingredient, parse) == SumFor(a, ingredient, parse) + SumFor(b, ingredient, parse)
    decreases |a|
  {
    if a == [] {
      assert a + b == b;
    } else {
      assert (a + b)[1..] == a[1..] + b;
      SumForAppend(a[1..], b, ingredient, parse);
    }
  }

  /** An ingredient no line uses sums to zero. */
  lemma {:induction false} SumForAbsent(s: seq<IngredientLine>, ingredient: Id, parse: AmountParser)
    requires ingredient !in IngredientIds(s)
    ensures SumFor(s, ingredient, parse) == 0.0
    decreases |s|
  {
    if s != [] {
      assert IngredientIds(s)[0] == s[0].ingredient;
      assert forall k | 0 <= k < |s| - 1 :: IngredientIds(s[1..])[k] == IngredientIds(s)[k + 1];
      SumForAbsent(s[1..], ingredient, parse);
    }
  }

  /** The keys of the totals are the ingredients listed in their order, and each is a stored ingredient. */
  lemma {:induction false} AccumulateKeys(s: seq<IngredientLine>, parse: AmountParser, ingredients: map<Id, IngredientRow>)
    requires LinesResolve(s, ingredients)
    requires Accumulate(s, parse).Success?
    ensures forall id :: id in Accumulate(s, parse).value.sums <==> id in Accumulate(s, parse).value.order
    ensures forall id | id in Accumulate(s, parse).value.order :: id in ingredients
    decreases |s|
  {
    if s != [] {
      var init := s[..|s| - 1];
      var last := s[|s| - 1];
      assert forall l | l in init :: l in s;
      assert last in s;
      AccumulateKeys(init, parse, ingredients);
      var t := Accumulate(init, parse).value;
      assert Accumulate(s, parse).value == Add(t, last.ingredient, parse(last.amount).value);
    }
  }

  /** A successful walk met the ingredients in the order of the keys, without repetition,
      and each total is the sum of that ingredient's amounts. */
  lemma {:induction false} AccumulateTotals(s: seq<IngredientLine>, parse: AmountParser)
    requires Accumulate(s, parse).Success?
    ensures Accumulate(s, parse).value.order == Dedup(IngredientIds(s))
    ensures forall id :: id in Accumulate(s, parse).value.sums <==> id in IngredientIds(s)
    ensures forall id | id in Accumulate(s, parse).value.sums :: Accumulate(s, parse).value.sums[id] == SumFor(s, id, parse)
    decreases |s|
  {
    if s != [] {
      var init := s[..|s| - 1];
      var last := s[|s| - 1];
      assert s == init + [last];
      AccumulateTotals(init, parse);
      DedupMeaning(IngredientIds(init));
      assert IngredientIds(s) == IngredientIds(init) + [last.ingredient];
      DedupSnoc(IngredientIds(init), last.ingredient);
      var t := Accumulate(init, parse).value;
      var v := parse(last.amount).value;
      assert AmountValue(last, parse) == v;
      var t' := Add(t, last.ingredient, v);
      assert Accumulate(s, parse).value == t';
      forall id | id in t'.sums
        ensures t'.sums[id] == SumFor(s, id, parse)
      {
        SumForAppend(init, [last], id, parse);
        assert SumFor([last], id, parse) == (if last.ingredient == id then v else 0.0) + SumFor([], id, parse);
        if id !in t.sums {
          SumForAbsent(init, id, parse);
        }
      }
    }
  }

  /** The walk succeeds exactly when every visited amount parses. */
  lemma {:induction false} AccumulateSucceeds(s: seq<IngredientLine>, parse: AmountParser)
    ensures Accumulate(s, parse).Success? <==> forall k | 0 <= k < |s| :: parse(s[k].amount).Some?
    decreases |s|
  {
    if s != [] {
      var init := s[..|s| - 1];
      AccumulateSucceeds(init, parse);
      assert forall k | 0 <= k < |init| :: init[k] == s[k];
    }
  }

  /** The error names the first line whose amount does not parse. */
  lemma {:induction false} AccumulateFirstFailure(s: seq<IngredientLine>, parse: AmountParser, k: nat)
    requires k < |s| && parse(s[k].amount).None?
    requires forall j | 0 <= j < k :: parse(s[j].amount).Some?
    ensures Accumulate(s, parse) == Failure(BadAmount(s[k]))
    decreases |s|
  {
    var init := s[..|s| - 1];
    if k < |s| - 1 {
      AccumulateFirstFailure(init, parse, k);
    } else {
      AccumulateSucceeds(init, parse);
    }
  }

  /** An empty cart gives an empty list and no error. */
  lemma EmptyCart(carts: seq<UserRecipe>, lines: seq<IngredientLine>, ingredients: map<Id, IngredientRow>, user: Id)
    requires LinesResolve(lines, ingredients)
    requires forall e | e in carts :: e.user != user
    ensures ShoppingList(carts, lines, ingredients, user) == Success([])
  {
    var recipes := LinkedRecipes(carts, user);
    forall x
      ensures UserRecipe(user, x) !in carts
    {
      assert UserRecipe(user, x).user == user;
    }
    assert multiset(recipes) == multiset{};
  }

  /** Row `k` of the list is the `k`-th distinct ingredient met, with the sum of its amounts:
      two ingredients that share a name still get a row each. */
  lemma ShoppingListRows(carts: seq<UserRecipe>, lines: seq<IngredientLine>, ingredients: map<Id, IngredientRow>, user: Id)
    requires LinesResolve(lines, ingredients)
    requires ShoppingList(carts, lines, ingredients, user).Success?
    ensures var visited := CartLines(LinkedRecipes(carts, user), lines);
            var ids := Dedup(IngredientIds(visited));
            var rows := ShoppingList(carts, lines, ingredients, user).value;
            && Distinct(ids)
            && |rows| == |ids|
            && forall k | 0 <= k < |ids| ::
                 ids[k] in ingredients &&
                 rows[k] == CsvRow(Capitalize(ingredients[ids[k]].name), SumFor(visited, ids[k], ParseAmount), ingredients[ids[k]].measurementUnit)
  {
    var visited := CartLines(LinkedRecipes(carts, user), lines);
    AccumulateSucceeds(visited, ParseAmount);
    AccumulateTotals(visited, ParseAmount);
    CartLinesResolve(LinkedRecipes(carts, user), lines, ingredients);
    AccumulateKeys(visited, ParseAmount, ingredients);
    DedupMeaning(IngredientIds(visited));
  }

  /** A cart of user 7 holding recipe 10, which uses 2 g of potato, 1 kg of a second ingredient
      also named potato, and 3 more g of the first potato. */
  const ExampleCarts: seq<UserRecipe> := [UserRecipe(7, 10)]
  const ExampleLines: seq<IngredientLine> := [IngredientLine(1, 10, "2"), IngredientLine(2, 10, "1"), IngredientLine(1, 10, "3")]
  const ExampleIngredients: map<Id, IngredientRow> := map[1 := IngredientRow("potato", "g"), 2 := IngredientRow("potato", "kg")]

  /** The amounts of one ingredient are added up; the namesake gets a row of its own. */
  lemma SameNameExample()
    ensures LinesResolve(ExampleLines, ExampleIngredients)
    ensures ShoppingList(ExampleCarts, ExampleLines, ExampleIngredients, 7)
            == Success([CsvRow("Potato", 5.0, "g"), CsvRow("Potato", 1.0, "kg")])
  {
    ExampleVisited();
    ExampleTotals();
    ExampleRows();
  }

  lemma ExampleRows()
    ensures RowsOf([1, 2], map[1 := 5.0, 2 := 1.0], ExampleIngredients) == [CsvRow("Potato", 5.0, "g"), CsvRow("Potato", 1.0, "kg")]
  {
    CapitalizeExamples();
  }

  lemma ExampleVisited()
    ensures CartLines(LinkedRecipes(ExampleCarts, 7), ExampleLines) == ExampleLines
  {
    var lines := ExampleLines;
    assert LinkedRecipes(ExampleCarts, 7) == [10];
    assert lines[1..] == [lines[1], lines[2]];
    assert lines[1..][1..] == [lines[2]];
    assert LinesOf(lines, 10) == lines;
    assert [10][..0] == [];
  }

  lemma ExampleAmounts()
    ensures ParseAmount("2") == Some(2.0) && ParseAmount("1") == Some(1.0) && ParseAmount("3") == Some(3.0)
  {
    ParseSingleDigit('2');
    ParseSingleDigit('1');
    ParseSingleDigit('3');
  }

  lemma ExampleTotals()
    ensures Accumulate(ExampleLines, ParseAmount) == Success(Totals([1, 2], map[1 := 5.0, 2 := 1.0]))
  {
    ExampleAmounts();
    ExampleTotalsWith(ParseAmount);
  }

  /** The walk over the example lines, for any reading of the three amounts as 2, 1 and 3. */
  lemma ExampleTotalsWith(parse: AmountParser)
    requires parse("2") == Some(2.0) && parse("1") == Some(1.0) && parse("3") == Some(3.0)
    ensures Accumulate(ExampleLines, parse) == Success(Totals([1, 2], map[1 := 5.0, 2 := 1.0]))
  {
    var lines := ExampleLines;
    var t0 := Totals([], map[]);
    var t1 := Totals([1], map[1 := 2.0]);
    var t2 := Totals([1, 2], map[1 := 2.0, 2 := 1.0]);
    var t3 := Totals([1, 2], map[1 := 5.0, 2 := 1.0]);
    AccumulateSnoc([], lines[0], parse);
    assert [] + [lines[0]] == lines[..1];
    assert Add(t0, 1, 2.0) == t1;
    AccumulateSnoc(lines[..1], lines[1], parse);
    assert lines[..1] + [lines[1]] == lines[..2];
    assert Add(t1, 2, 1.0) == t2;
    AccumulateSnoc(lines[..2], lines[2], parse);
    assert lines[..2] + [lines[2]] == lines;
    assert t2.sums[1] + 3.0 == 5.0;
    assert t2.sums[1 := 5.0] == t3.sums;
    assert Add(t2, 1, 3.0) == t3;
  }
}
