/**
 * `RecipeFilter`: the query-string filters of the recipe list.
 *
 * A queryset is the sequence of recipe ids it yields. A `filter` across a
 * to-many relation (`favorites__user`, `ingredients__name`, `tags__slug`) is
 * a join: a recipe comes out once per matching related row, unless the
 * filter applies `distinct()`. An `exclude` across a relation keeps each
 * recipe that has no matching row, once per occurrence in the input.
 */
module Filters {
  import opened Wrappers
  import opened Collections
  import opened Text
  import opened Numbers
  import opened Models

  datatype FilterError =
    | NotANumber(value: string)    // `author` that `int()` rejects
    | InvalidChoice(slug: string)  // a `tags` value that names no tag

  /** A recipe of `qs` repeated once per occurrence of it in `links`: the join of `qs` with a relation. */
  function Join(qs: seq<Id>, links: seq<Id>): seq<Id> {
    if qs == [] then [] else Repeat(qs[0], multiset(links)[qs[0]]) + Join(qs[1..], links)
  }

  /** A recipe comes out of the join as often as it occurs in `qs` times as often as it occurs in `links`. */
  lemma {:induction false} JoinCount(qs: seq<Id>, links: seq<Id>, x: Id)
    ensures multiset(Join(qs, links))[x] == multiset(qs)[x] * multiset(links)[x]
  {
    if qs != [] {
      var c := multiset(links)[x];
      var head: seq<Id> := Repeat(qs[0], multiset(links)[qs[0]]);
      var rest: seq<Id> := Join(qs[1..], links);
      assert Join(qs, links) == head + rest;
      assert multiset(Join(qs, links))[x] == multiset(head)[x] + multiset(rest)[x];
      JoinCount(qs[1..], links, x);
      RepeatCount(qs[0], multiset(links)[qs[0]]);
      assert qs == [qs[0]] + qs[1..];
      assert multiset(qs)[x] == multiset([qs[0]])[x] + multiset(qs[1..])[x];
      var n := multiset(qs[1..])[x];
      if x == qs[0] {
        assert multiset(head)[x] == c;
        assert multiset(qs)[x] == n + 1;
        SuccessorTimes(n, c);
      } else {
        assert multiset(head)[x] == 0;
        assert multiset(qs)[x] == n;
      }
    }
  }

  /** The counting step of `JoinCount`: one more copy of a recipe in `qs` adds its `c` link
      rows once more. Kept apart so the non-linear fact is proved alone. */
  lemma SuccessorTimes(n: nat, c: nat)
    ensures (n + 1) * c == c + n * c
  {
  }

  /** For `JoinMembership`: a recipe occurs in the join (count `a * b`) exactly when it occurs
      in `qs` (`a`) and has a row in `links` (`b`). */
  lemma ProductPositive(a: nat, b: nat)
    ensures a * b > 0 <==> a > 0 && b > 0
  {
    if a > 0 && b > 0 {
      assert a * b >= b;
    }
  }

  /** A recipe is in the join exactly when it is in `qs` and has a row in `links`. */
  lemma JoinMembership(qs: seq<Id>, links: seq<Id>)
    ensures forall x :: x in Join(qs, links) <==> x in qs && x in links
  {
    forall x ensures x in Join(qs, links) <==> x in qs && x in links {
      JoinCount(qs, links, x);
      ProductPositive(multiset(qs)[x], multiset(links)[x]);
    }
  }

  /** The recipes of `qs` that have no row in `links`, in order. */
  function Exclude(qs: seq<Id>, links: seq<Id>): (r: seq<Id>)
    ensures forall x :: x in r <==> x in qs && x !in links
    ensures forall x :: multiset(r)[x] == if x in links then 0 else multiset(qs)[x]
  {
    var keep := (x: Id) => x !in links;
    WhereCount(qs, keep);
    Where(qs, keep)
  }

  /** `queryset.filter(<relation>__user=user)` when `value`, `queryset.exclude(...)` otherwise. */
  function FilterByLink(qs: seq<Id>, rows: seq<UserRecipe>, user: Id, value: bool): (r: seq<Id>)
    ensures forall x :: x in r <==> x in qs && (UserRecipe(user, x) in rows <==> value)
  {
    var links := LinkedRecipes(rows, user);
    JoinMembership(qs, links);
    if value then Join(qs, links) else Exclude(qs, links)
  }

  /** `RecipeFilter.filter_is_favorited` */
  function FilterIsFavorited(qs: seq<Id>, favorites: seq<UserRecipe>, user: Id, value: bool): (r: seq<Id>)
    ensures forall x :: x in r <==> x in qs && (UserRecipe(user, x) in favorites <==> value)
  {
    FilterByLink(qs, favorites, user, value)
  }

  /** `RecipeFilter.filter_is_in_shopping_cart` */
  function FilterIsInShoppingCart(qs: seq<Id>, shoppingCarts: seq<UserRecipe>, user: Id, value: bool): (r: seq<Id>)
    ensures forall x :: x in r <==> x in qs && (UserRecipe(user, x) in shoppingCarts <==> value)
  {
    FilterByLink(qs, shoppingCarts, user, value)
  }

  /** With at most one row per user and recipe, the two answers split `qs` exactly:
      every occurrence of a recipe lands in one of them. */
  lemma FilterByLinkPartition(qs: seq<Id>, rows: seq<UserRecipe>, user: Id)
    requires Distinct(rows)
    ensures multiset(FilterByLink(qs, rows, user, true)) + multiset(FilterByLink(qs, rows, user, false)) == multiset(qs)
  {
    var links := LinkedRecipes(rows, user);
    forall x ensures multiset(links)[x] <= 1 {
      DistinctCount(rows, UserRecipe(user, x));
    }
    var t := FilterByLink(qs, rows, user, true);
    var f := FilterByLink(qs, rows, user, false);
    assert t == Join(qs, links) && f == Exclude(qs, links);
    forall x ensures (multiset(t) + multiset(f))[x] == multiset(qs)[x] {
      JoinCount(qs, links, x);
      var q := multiset(qs)[x];
      if x in links {
        assert multiset(links)[x] == 1;
        assert multiset(t)[x] == q * 1 == q;
        assert multiset(f)[x] == 0;
      } else {
        assert multiset(links)[x] == 0;
        assert multiset(t)[x] == q * 0 == 0;
        assert multiset(f)[x] == q;
      }
    }
    assert multiset(t) + multiset(f) == multiset(qs);
  }

  lemma {:induction false} DistinctCount<T>(s: seq<T>, x: T)
    requires Distinct(s)
    ensures multiset(s)[x] <= 1
    decreases |s|
  {
    if s != [] {
      DistinctCount(s[1..], x);
      assert s == [s[0]] + s[1..];
      if s[0] == x {
        assert x !in s[1..];
      }
    }
  }

  /** Without that uniqueness a recipe the user favourited twice comes out twice. */
  lemma FilterByLinkDuplicates()
    ensures FilterByLink([1], [UserRecipe(7, 1), UserRecipe(7, 1)], 7, true) == [1, 1]
  {
    var links := LinkedRecipes([UserRecipe(7, 1), UserRecipe(7, 1)], 7);
    assert multiset(links)[1] == 2 by {
      assert multiset([UserRecipe(7, 1), UserRecipe(7, 1)])[UserRecipe(7, 1)] == 2;
    }
    assert Join([1], links) == Repeat(1, 2) + Join([], links);
  }

  /** The text a `CharFilter` receives after form cleaning; an empty one leaves the queryset alone. */
  function Cleaned(value: string): string {
    Strip(value)
  }

  /** `author = CharFilter(field_name="author__id")`: recipes whose author id is the given integer. */
  function FilterAuthor(qs: seq<Id>, recipes: map<Id, RecipeRow>, value: string): (r: Result<seq<Id>, FilterError>)
    ensures Cleaned(value) == "" ==> r == Success(qs)
    ensures Cleaned(value) != "" ==> (r.Success? <==> ParseInt(value).Some?)
    ensures Cleaned(value) != "" && r.Success? ==>
              forall x :: x in r.value <==> x in qs && x in recipes && recipes[x].author as int == ParseInt(value).value
  {
    var text := Cleaned(value);
    if text == "" then Success(qs)
    else
      StripIdempotent(value);
      match ParseInt(text)
      case None => Failure(NotANumber(text))
      case Some(n) => Success(Where(qs, (x: Id) => x in recipes && recipes[x].author as int == n))
  }

  lemma StripIdempotent(s: string)
    ensures Strip(Strip(s)) == Strip(s)
  {
    StripLeftStable(s);
    StripRightKeepsLeft(StripLeft(s));
    StripRightStable(StripLeft(s));
  }

  lemma StripLeftStable(s: string)
    ensures StripLeft(s) == [] || !IsSpace(StripLeft(s)[0])
  {
  }

  lemma StripRightStable(s: string)
    ensures StripRight(s) == [] || !IsSpace(StripRight(s)[|StripRight(s)| - 1])
  {
  }

  lemma {:induction false} StripRightKeepsLeft(s: string)
    requires s == [] || !IsSpace(s[0])
    ensures StripLeft(StripRight(s)) == StripRight(s)
    decreases |s|
  {
    if s != [] && IsSpace(s[|s| - 1]) {
      var init := s[..|s| - 1];
      assert init == [] || init[0] == s[0];
      StripRightKeepsLeft(init);
    }
  }

  /** `name__icontains=query`, with the case folding of `str.lower`. */
  predicate NameMatches(name: string, query: string) {
    Contains(ToLower(name), ToLower(query))
  }

  /** The line's ingredient has a name that contains `query`. */
  predicate LineMatches(l: IngredientLine, ingredients: map<Id, IngredientRow>, query: string) {
    l.ingredient in ingredients && NameMatches(ingredients[l.ingredient].name, query)
  }

  /** The recipe of every ingredient line whose ingredient name contains `query`, one entry per line. */
  function IngredientLinks(lines: seq<IngredientLine>, ingredients: map<Id, IngredientRow>, query: string): (r: seq<Id>)
    ensures forall x :: x in r <==> exists l | l in lines :: l.recipe == x && LineMatches(l, ingredients, query)
  {
    if lines == [] then []
    else
      var l := lines[0];
      assert lines == [l] + lines[1..];
      (if LineMatches(l, ingredients, query) then [l.recipe] else []) + IngredientLinks(lines[1..], ingredients, query)
  }

  /** `ingredients = CharFilter(field_name='ingredients__name', lookup_expr='icontains')` */
  function FilterIngredients(qs: seq<Id>, lines: seq<IngredientLine>, ingredients: map<Id, IngredientRow>, value: string): (r: seq<Id>)
    ensures Cleaned(value) == "" ==> r == qs
    ensures Cleaned(value) != "" ==>
              forall x :: x in r <==> x in qs && exists l | l in lines :: l.recipe == x && LineMatches(l, ingredients, Cleaned(value))
  {
    var text := Cleaned(value);
    if text == "" then qs
    else
      JoinMembership(qs, IngredientLinks(lines, ingredients, text));
      Join(qs, IngredientLinks(lines, ingredients, text))
  }

  /** A recipe with two lines of a matching ingredient comes out twice. */
  lemma FilterIngredientsPerLine()
    ensures FilterIngredients([5], [IngredientLine(1, 5, "1"), IngredientLine(1, 5, "2")],
                              map[1 := IngredientRow("Potato", "g")], "tat") == [5, 5]
  {
    var lines := [IngredientLine(1, 5, "1"), IngredientLine(1, 5, "2")];
    var ingredients := map[1 := IngredientRow("Potato", "g")];
    assert Strip("tat") == "tat";
    assert NameMatches("Potato", "tat") by {
      assert ToLower("Potato") == "potato";
      assert ToLower("tat") == "tat";
      assert OccursAt("potato", "tat", 2);
    }
    var links := IngredientLinks(lines, ingredients, "tat");
    assert links == [5, 5] by {
      assert lines[1..] == [IngredientLine(1, 5, "2")];
      assert lines[1..][1..] == [];
    }
    assert multiset(links)[5] == 2;
    assert Join([5], links) == Repeat(5, 2) + Join([], links);
  }

  /** The slug of every tag in `slugs` that no tag carries, in the order given. */
  function UnknownSlugs(slugs: seq<string>, tags: map<Id, TagRow>): (r: seq<string>)
    ensures forall s :: s in r <==> s in slugs && !exists k | k in tags :: tags[k].slug == s
  {
    Where(slugs, (s: string) => !exists k | k in tags :: tags[k].slug == s)
  }

  /** The recipe of every recipe-tag link whose tag has one of `slugs`, one entry per link. */
  function TagLinks(links: seq<RecipeTagRow>, tags: map<Id, TagRow>, slugs: seq<string>): (r: seq<Id>)
    ensures forall x :: x in r ==> exists l | l in links :: l.recipe == x && l.tag in tags && tags[l.tag].slug in slugs
    ensures forall l | l in links && l.tag in tags && tags[l.tag].slug in slugs :: l.recipe in r
  {
    if links == [] then []
    else
      var l := links[0];
      assert links == [l] + links[1..];
      (if l.tag in tags && tags[l.tag].slug in slugs then [l.recipe] else []) + TagLinks(links[1..], tags, slugs)
  }

  /** `tags = ModelMultipleChoiceFilter(field_name='tags__slug', to_field_name='slug')`:
      every value must name a tag; the recipes with any of the tags, each once. */
  function FilterTags(qs: seq<Id>, recipeTags: seq<RecipeTagRow>, tags: map<Id, TagRow>, slugs: seq<string>): (r: Result<seq<Id>, FilterError>)
    ensures r.Failure? <==> UnknownSlugs(slugs, tags) != []
    ensures r.Failure? ==> r.error == InvalidChoice(UnknownSlugs(slugs, tags)[0])
    ensures r.Success? && slugs == [] ==> r.value == qs
    ensures r.Success? && slugs != [] ==>
              Distinct(r.value) &&
              forall x :: x in r.value <==> x in qs && exists l | l in recipeTags :: l.recipe == x && l.tag in tags && tags[l.tag].slug in slugs
  {
    var unknown := UnknownSlugs(slugs, tags);
    if unknown != [] then Failure(InvalidChoice(unknown[0]))
    else if slugs == [] then Success(qs)
    else
      var joined := Join(qs, TagLinks(recipeTags, tags, slugs));
      JoinMembership(qs, TagLinks(recipeTags, tags, slugs));
      DedupMeaning(joined);
      Success(Dedup(joined))
  }
}
