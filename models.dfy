/**
 * The rows of the recipes and users tables, and the two membership
 * queries defined on `Recipe`.
 *
 * Every table row has an integer primary key `Id`; a foreign key is the
 * `Id` of the referenced row. `Favorite` and `ShoppingCart` have the same
 * shape (a user and a recipe) and share the row type `UserRecipe`.
 */
module Models {
  import opened Wrappers

  type Id = nat

  /** `CustomUser` (the fields this model uses). */
  datatype UserRow = UserRow(username: string, email: string, firstName: string, lastName: string)

  /** `AuthorSubscription` */
  datatype SubscriptionRow = SubscriptionRow(subscriber: Id, author: Id)

  /** `Ingredient` */
  datatype IngredientRow = IngredientRow(name: string, measurementUnit: string)

  /** `Tag` */
  datatype TagRow = TagRow(name: string, color: string, slug: string)

  /** `Recipe`. Of the image only whether one is given is kept (not the file); the creation
      date is not kept. */
  datatype RecipeRow = RecipeRow(author: Id, name: string, text: string, hasImage: bool, cookingTime: nat)

  /** A row of the automatic through table of `Recipe.tags`. */
  datatype RecipeTagRow = RecipeTagRow(recipe: Id, tag: Id)

  /** `IngredientRecipe`: the amount is free text. */
  datatype IngredientLine = IngredientLine(ingredient: Id, recipe: Id, amount: string)

  /** A `Favorite` or a `ShoppingCart` row. */
  datatype UserRecipe = UserRecipe(user: Id, recipe: Id)

  /** The recipe of every row of `user`, one entry per row. */
  function LinkedRecipes(rows: seq<UserRecipe>, user: Id): (r: seq<Id>)
    ensures forall x :: multiset(r)[x] == multiset(rows)[UserRecipe(user, x)]
    ensures forall x :: x in r <==> UserRecipe(user, x) in rows
  {
    if rows == [] then []
    else
      assert rows == [rows[0]] + rows[1..];
      (if rows[0].user == user then [rows[0].recipe] else []) + LinkedRecipes(rows[1..], user)
  }

  /** Field lengths declared by the models. */
  const UsernameMaxLength: nat := 150
  const PersonNameMaxLength: nat := 150
  const IngredientNameMaxLength: nat := 250
  const MeasurementUnitMaxLength: nat := 100
  const TagNameMaxLength: nat := 50
  const TagColorMaxLength: nat := 16
  const RecipeNameMaxLength: nat := 250
  const AmountMaxLength: nat := 50

  /** The reverse relations a `Recipe` carries for user-recipe rows, by their `related_name`. */
  const FavoritesName: string := "favorites"
  const ShoppingCartName: string := "shopping_cart"

  datatype AttributeError = NoSuchAttribute(name: string)

  /** `getattr(recipe, name)` for a user-recipe relation: its rows, or `AttributeError`. */
  function RelatedRows(name: string, favorites: seq<UserRecipe>, shoppingCarts: seq<UserRecipe>): (r: Result<seq<UserRecipe>, AttributeError>)
    ensures r.Success? <==> name in {FavoritesName, ShoppingCartName}
    ensures r.Failure? ==> r.error == NoSuchAttribute(name)
  {
    if name == FavoritesName then Success(favorites)
    else if name == ShoppingCartName then Success(shoppingCarts)
    else Failure(NoSuchAttribute(name))
  }

  /** `recipe.<name>.filter(user=user).exists()` */
  function LinkExists(name: string, favorites: seq<UserRecipe>, shoppingCarts: seq<UserRecipe>, recipe: Id, user: Id): Result<bool, AttributeError> {
    var rows :- RelatedRows(name, favorites, shoppingCarts);
    Success(UserRecipe(user, recipe) in rows)
  }

  /** `Recipe.is_favorited(user)` */
  function IsFavorited(favorites: seq<UserRecipe>, shoppingCarts: seq<UserRecipe>, recipe: Id, user: Id): (r: Result<bool, AttributeError>)
    ensures r.Success?
    ensures r.value <==> exists i :: 0 <= i < |favorites| && favorites[i].user == user && favorites[i].recipe == recipe
  {
    var r := LinkExists(FavoritesName, favorites, shoppingCarts, recipe, user);
    assert r.Success? && (r.value <==> UserRecipe(user, recipe) in favorites);
    r
  }

  /** `Recipe.is_in_shopping_cart(user)` as written: it looks up the relation `shopping_carts`. */
  function IsInShoppingCartAsWritten(favorites: seq<UserRecipe>, shoppingCarts: seq<UserRecipe>, recipe: Id, user: Id): Result<bool, AttributeError> {
    LinkExists("shopping_carts", favorites, shoppingCarts, recipe, user)
  }

  /** The written query fails on every recipe and every user, whatever the tables hold. */
  lemma IsInShoppingCartAlwaysFails(favorites: seq<UserRecipe>, shoppingCarts: seq<UserRecipe>, recipe: Id, user: Id)
    ensures IsInShoppingCartAsWritten(favorites, shoppingCarts, recipe, user) == Failure(NoSuchAttribute("shopping_carts"))
  {
    assert "shopping_carts" != FavoritesName;
    assert "shopping_carts" != ShoppingCartName by {
      assert |"shopping_carts"| != |ShoppingCartName|;
    }
  }

  /** `Recipe.is_in_shopping_cart(user)` through the declared relation name `shopping_cart`. */
  function IsInShoppingCart(favorites: seq<UserRecipe>, shoppingCarts: seq<UserRecipe>, recipe: Id, user: Id): (r: Result<bool, AttributeError>)
    ensures r.Success?
    ensures r.value <==> exists i :: 0 <= i < |shoppingCarts| && shoppingCarts[i].user == user && shoppingCarts[i].recipe == recipe
  {
    var r := LinkExists(ShoppingCartName, favorites, shoppingCarts, recipe, user);
    assert r.Success? && (r.value <==> UserRecipe(user, recipe) in shoppingCarts);
    r
  }

  /** Adding a row makes the membership query true, as the recipe tests expect for both queries. */
  lemma MembershipAfterAdd(favorites: seq<UserRecipe>, shoppingCarts: seq<UserRecipe>, recipe: Id, user: Id)
    ensures IsFavorited(favorites + [UserRecipe(user, recipe)], shoppingCarts, recipe, user) == Success(true)
    ensures IsInShoppingCart(favorites, shoppingCarts + [UserRecipe(user, recipe)], recipe, user) == Success(true)
  {
    assert (favorites + [UserRecipe(user, recipe)])[|favorites|] == UserRecipe(user, recipe);
    assert (shoppingCarts + [UserRecipe(user, recipe)])[|shoppingCarts|] == UserRecipe(user, recipe);
  }
}
