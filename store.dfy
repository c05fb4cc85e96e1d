/**
 * The relation store the Django models declare: one table per model, the
 * uniqueness constraints, the foreign keys with their `on_delete=CASCADE`,
 * and `Tag.save`.
 *
 * An insert method stands for `full_clean()` followed by `save()`: the
 * field checks (`blank=False`, `max_length`, field validators), then the
 * unique constraints and the foreign keys. Every insert and every delete
 * is one atomic step. Primary keys come from one counter shared by all
 * tables.
 */
module Store {
  import opened Wrappers
  import opened Collections
  import opened Models
  import opened UserValidators
  import opened Numbers

  datatype StoreError =
    | InvalidField(field: string)          // a `blank=False`, `max_length` or validator failure
    | UniqueViolation(constraint: string)  // a unique field or a `UniqueConstraint`
    | MissingRow(field: string)            // a foreign key naming no row

  /** The content of every table at one moment. */
  datatype Tables = Tables(
    users: map<Id, UserRow>,
    subscriptions: seq<SubscriptionRow>,
    ingredients: map<Id, IngredientRow>,
    tags: map<Id, TagRow>,
    recipes: map<Id, RecipeRow>,
    recipeTags: seq<RecipeTagRow>,
    recipeIngredients: seq<IngredientLine>,
    favorites: seq<UserRecipe>,
    shoppingCarts: seq<UserRecipe>,
    nextId: Id)

  /** A text field with `blank=False` and a `max_length`. */
  predicate FilledWithin(s: string, maxLength: nat) {
    0 < |s| <= maxLength
  }

  const EmailMaxLength: nat := 254

  predicate UserFieldsOk(u: UserRow) {
    && FilledWithin(u.username, UsernameMaxLength)
    && ValidateReservedUsername(u.username).Pass?
    && FilledWithin(u.email, EmailMaxLength)
    && FilledWithin(u.firstName, PersonNameMaxLength)
    && FilledWithin(u.lastName, PersonNameMaxLength)
  }

  predicate IngredientFieldsOk(i: IngredientRow) {
    FilledWithin(i.name, IngredientNameMaxLength) && FilledWithin(i.measurementUnit, MeasurementUnitMaxLength)
  }

  /** The column widths the database enforces for a tag (`Tag.save` runs no form validation). */
  predicate TagColumnsOk(name: string, color: string) {
    |name| <= TagNameMaxLength && |color| <= TagColorMaxLength
  }

  /** The largest value of an `IntegerField` (and so of a `PositiveIntegerField`) that
      `full_clean()` accepts: the range of a 32-bit database integer. */
  const IntegerFieldMax: nat := 2147483647

  /** What `full_clean()` demands of a recipe's own columns. The image may be null in the
      database, but the field is not `blank=True`, so a recipe without one is refused. */
  predicate RecipeFieldsOk(r: RecipeRow) {
    FilledWithin(r.name, RecipeNameMaxLength) && r.text != [] && r.hasImage && r.cookingTime <= IntegerFieldMax
  }

  predicate AmountOk(amount: string) {
    FilledWithin(amount, AmountMaxLength)
  }

  predicate UsernameTaken(users: map<Id, UserRow>, username: string) {
    exists k | k in users :: users[k].username == username
  }

  predicate EmailTaken(users: map<Id, UserRow>, email: string) {
    exists k | k in users :: users[k].email == email
  }

  /** `username` and `email` are each unique. */
  predicate UsersUnique(users: map<Id, UserRow>) {
    forall a, b | a in users && b in users && a != b ::
      users[a].username != users[b].username && users[a].email != users[b].email
  }

  /** A slug used by a tag other than the row `self`. */
  predicate SlugTaken(tags: map<Id, TagRow>, slug: string, self: Option<Id>) {
    exists k | k in tags :: Some(k) != self && tags[k].slug == slug
  }

  predicate SlugsUnique(tags: map<Id, TagRow>) {
    forall a, b | a in tags && b in tags && a != b :: tags[a].slug != tags[b].slug
  }

  predicate KeysBelow<V>(m: map<Id, V>, bound: Id) {
    forall k | k in m :: k < bound
  }

  /** Every stored row is valid, every unique constraint holds, every foreign key resolves. */
  ghost predicate TablesValid(t: Tables) {
    && KeysBelow(t.users, t.nextId) && KeysBelow(t.ingredients, t.nextId)
    && KeysBelow(t.tags, t.nextId) && KeysBelow(t.recipes, t.nextId)
    && (forall k | k in t.users :: UserFieldsOk(t.users[k]))
    && UsersUnique(t.users)
    && (forall k | k in t.ingredients :: IngredientFieldsOk(t.ingredients[k]))
    && (forall k | k in t.tags :: TagColumnsOk(t.tags[k].name, t.tags[k].color))
    && SlugsUnique(t.tags)
    && (forall k | k in t.recipes :: RecipeFieldsOk(t.recipes[k]) && t.recipes[k].author in t.users)
    && (forall s | s in t.subscriptions :: s.subscriber in t.users && s.author in t.users)
    && Distinct(t.subscriptions)
    && (forall x | x in t.recipeTags :: x.recipe in t.recipes && x.tag in t.tags)
    && Distinct(t.recipeTags)
    && (forall l | l in t.recipeIngredients :: l.recipe in t.recipes && l.ingredient in t.ingredients && AmountOk(l.amount))
    && (forall f | f in t.favorites :: f.user in t.users && f.recipe in t.recipes)
    && (forall f | f in t.shoppingCarts :: f.user in t.users && f.recipe in t.recipes)
  }

  /** The `UniqueConstraint(username, email)` holds whenever each field is unique on its own. */
  lemma PairConstraintImplied(users: map<Id, UserRow>, a: Id, b: Id)
    requires UsersUnique(users)
    requires a in users && b in users && a != b
    ensures (users[a].username, users[a].email) != (users[b].username, users[b].email)
  {
  }

  function KeepSubscription(user: Id): SubscriptionRow -> bool {
    (s: SubscriptionRow) => s.subscriber != user && s.author != user
  }

  function KeepRecipeTag(doomed: set<Id>): RecipeTagRow -> bool {
    (x: RecipeTagRow) => x.recipe !in doomed
  }

  function KeepLine(doomedRecipes: set<Id>, doomedIngredient: Option<Id>): IngredientLine -> bool {
    (l: IngredientLine) => l.recipe !in doomedRecipes && Some(l.ingredient) != doomedIngredient
  }

  function KeepUserRecipe(doomedUser: Option<Id>, doomedRecipes: set<Id>): UserRecipe -> bool {
    (f: UserRecipe) => Some(f.user) != doomedUser && f.recipe !in doomedRecipes
  }

  /** The rows of a keyed table whose keys are not in `doomed`. */
  function RemoveKeys<V>(m: map<Id, V>, doomed: set<Id>): (r: map<Id, V>)
    ensures forall k :: k in r <==> k in m && k !in doomed
    ensures forall k | k in r :: r[k] == m[k]
  {
    map k | k in m && k !in doomed :: m[k]
  }

  /** The recipes written by `user`. */
  function RecipesBy(recipes: map<Id, RecipeRow>, user: Id): set<Id> {
    set k | k in recipes && recipes[k].author == user
  }

  /** What deleting `doomed` recipes leaves of the tables (the users stay). */
  function WithoutRecipes(t: Tables, doomed: set<Id>): (r: Tables)
    ensures forall k :: k in r.recipes <==> k in t.recipes && k !in doomed
  {
    t.(recipes := RemoveKeys(t.recipes, doomed),
       recipeTags := Where(t.recipeTags, KeepRecipeTag(doomed)),
       recipeIngredients := Where(t.recipeIngredients, KeepLine(doomed, None)),
       favorites := Where(t.favorites, KeepUserRecipe(None, doomed)),
       shoppingCarts := Where(t.shoppingCarts, KeepUserRecipe(None, doomed)))
  }

  /** What `user.delete()` leaves: the user, their subscriptions both ways, their favorites and
      cart entries, and their recipes with everything that refers to those recipes are gone. */
  function WithoutUser(t: Tables, user: Id): Tables {
    var doomed := RecipesBy(t.recipes, user);
    var r := WithoutRecipes(t, doomed);
    r.(users := RemoveKeys(t.users, {user}),
       subscriptions := Where(t.subscriptions, KeepSubscription(user)),
       favorites := Where(r.favorites, KeepUserRecipe(Some(user), {})),
       shoppingCarts := Where(r.shoppingCarts, KeepUserRecipe(Some(user), {})))
  }

  /** What `ingredient.delete()` leaves: the ingredient and the recipe lines that use it are gone. */
  function WithoutIngredient(t: Tables, ingredient: Id): Tables {
    t.(ingredients := RemoveKeys(t.ingredients, {ingredient}),
       recipeIngredients := Where(t.recipeIngredients, KeepLine({}, Some(ingredient))))
  }

  /** Deleting recipes keeps the tables valid, and nothing refers to a deleted recipe afterwards. */
  lemma WithoutRecipesValid(t: Tables, doomed: set<Id>)
    requires TablesValid(t)
    ensures TablesValid(WithoutRecipes(t, doomed))
    ensures var r := WithoutRecipes(t, doomed);
            && (forall x | x in r.recipeTags :: x.recipe !in doomed)
            && (forall l | l in r.recipeIngredients :: l.recipe !in doomed)
            && (forall f | f in r.favorites :: f.recipe !in doomed)
            && (forall f | f in r.shoppingCarts :: f.recipe !in doomed)
  {
    WhereKeepsDistinct(t.recipeTags, KeepRecipeTag(doomed));
  }

  lemma SubscriptionsAfterUserDelete(subs: seq<SubscriptionRow>, users: map<Id, UserRow>, user: Id)
    requires forall s | s in subs :: s.subscriber in users && s.author in users
    ensures forall s | s in Where(subs, KeepSubscription(user)) ::
              s.subscriber in RemoveKeys(users, {user}) && s.author in RemoveKeys(users, {user}) &&
              s.subscriber != user && s.author != user
  {
    forall s | s in Where(subs, KeepSubscription(user))
      ensures s.subscriber in RemoveKeys(users, {user}) && s.author in RemoveKeys(users, {user})
    {
      assert s in subs && KeepSubscription(user)(s);
    }
  }

  lemma UserRecipesAfterUserDelete(rows: seq<UserRecipe>, users: map<Id, UserRow>, recipes: map<Id, RecipeRow>, user: Id)
    requires forall f | f in rows :: f.user in users && f.recipe in recipes
    ensures forall f | f in Where(rows, KeepUserRecipe(Some(user), {})) ::
              f.user in RemoveKeys(users, {user}) && f.recipe in recipes && f.user != user
  {
    forall f | f in Where(rows, KeepUserRecipe(Some(user), {}))
      ensures f.user in RemoveKeys(users, {user}) && f.recipe in recipes
    {
      assert f in rows && KeepUserRecipe(Some(user), {})(f);
    }
  }

  lemma UsersAfterUserDelete(users: map<Id, UserRow>, user: Id, bound: Id)
    requires KeysBelow(users, bound) && UsersUnique(users)
    requires forall k | k in users :: UserFieldsOk(users[k])
    ensures var rest := RemoveKeys(users, {user});
            KeysBelow(rest, bound) && UsersUnique(rest) && (forall k | k in rest :: UserFieldsOk(rest[k])) && user !in rest
  {
  }

  lemma AuthorsAfterUserDelete(recipes: map<Id, RecipeRow>, users: map<Id, UserRow>, user: Id)
    requires forall k | k in recipes :: recipes[k].author in users
    ensures var rest := RemoveKeys(recipes, RecipesBy(recipes, user));
            forall k | k in rest :: rest[k].author in RemoveKeys(users, {user})
  {
    var rest := RemoveKeys(recipes, RecipesBy(recipes, user));
    forall k | k in rest ensures rest[k].author in RemoveKeys(users, {user}) {
      assert k in recipes && k !in RecipesBy(recipes, user);
    }
  }

  lemma WithoutUserValid(t: Tables, user: Id)
    requires TablesValid(t)
    ensures TablesValid(WithoutUser(t, user))
  {
    var doomed := RecipesBy(t.recipes, user);
    var m := WithoutRecipes(t, doomed);
    WithoutRecipesValid(t, doomed);
    var users := RemoveKeys(t.users, {user});
    UsersAfterUserDelete(t.users, user, t.nextId);
    SubscriptionsAfterUserDelete(t.subscriptions, t.users, user);
    WhereKeepsDistinct(t.subscriptions, KeepSubscription(user));
    UserRecipesAfterUserDelete(m.favorites, t.users, m.recipes, user);
    UserRecipesAfterUserDelete(m.shoppingCarts, t.users, m.recipes, user);
    AuthorsAfterUserDelete(t.recipes, t.users, user);
    ReplaceUserTables(m, users, Where(t.subscriptions, KeepSubscription(user)),
                      Where(m.favorites, KeepUserRecipe(Some(user), {})), Where(m.shoppingCarts, KeepUserRecipe(Some(user), {})));
  }

  /** Valid tables stay valid when the users are narrowed to `users` and the rows that refer to
      users are replaced by rows that refer only to the remaining ones. */
  lemma ReplaceUserTables(m: Tables, users: map<Id, UserRow>, subscriptions: seq<SubscriptionRow>,
                          favorites: seq<UserRecipe>, shoppingCarts: seq<UserRecipe>)
    requires TablesValid(m)
    requires forall k | k in users :: k in m.users && users[k] == m.users[k]
    requires forall k | k in m.recipes :: m.recipes[k].author in users
    requires forall s | s in subscriptions :: s.subscriber in users && s.author in users
    requires Distinct(subscriptions)
    requires forall f | f in favorites :: f.user in users && f.recipe in m.recipes
    requires forall f | f in shoppingCarts :: f.user in users && f.recipe in m.recipes
    ensures TablesValid(m.(users := users, subscriptions := subscriptions, favorites := favorites, shoppingCarts := shoppingCarts))
  {
  }

  /** Deleting a user removes exactly the user, the subscriptions from or to them, and their recipes. */
  lemma WithoutUserExact(t: Tables, user: Id)
    ensures var r := WithoutUser(t, user);
            && (forall k :: k in r.users <==> k in t.users && k != user)
            && (forall k :: k in r.recipes <==> k in t.recipes && t.recipes[k].author != user)
            && (forall k | k in r.recipes :: r.recipes[k] == t.recipes[k])
            && (forall s :: s in r.subscriptions <==> s in t.subscriptions && s.subscriber != user && s.author != user)
  {
  }

  /** Deleting a user removes exactly the favorites, cart entries and recipe lines that refer to
      the user or to one of their recipes, and leaves ingredients and tags alone. */
  lemma WithoutUserRowsExact(t: Tables, user: Id)
    ensures var r := WithoutUser(t, user);
            var doomed := RecipesBy(t.recipes, user);
            && (forall f :: f in r.favorites <==> f in t.favorites && f.user != user && f.recipe !in doomed)
            && (forall f :: f in r.shoppingCarts <==> f in t.shoppingCarts && f.user != user && f.recipe !in doomed)
            && (forall l :: l in r.recipeIngredients <==> l in t.recipeIngredients && l.recipe !in doomed)
            && r.ingredients == t.ingredients && r.tags == t.tags
  {
  }

  /** Deleting an ingredient keeps the tables valid and removes exactly its lines. */
  lemma WithoutIngredientValid(t: Tables, ingredient: Id)
    requires TablesValid(t)
    ensures TablesValid(WithoutIngredient(t, ingredient))
    ensures forall l :: l in WithoutIngredient(t, ingredient).recipeIngredients <==>
                          l in t.recipeIngredients && l.ingredient != ingredient
  {
    var ingredients := RemoveKeys(t.ingredients, {ingredient});
    var lines := Where(t.recipeIngredients, KeepLine({}, Some(ingredient)));
    forall l | l in lines ensures l.ingredient in ingredients && l.recipe in t.recipes && AmountOk(l.amount) {
      assert l in t.recipeIngredients && KeepLine({}, Some(ingredient))(l);
    }
    ReplaceIngredientTables(t, ingredients, lines);
  }

  /** Valid tables stay valid when the ingredients are narrowed and the recipe lines are replaced
      by lines that refer only to the remaining ingredients. */
  lemma ReplaceIngredientTables(t: Tables, ingredients: map<Id, IngredientRow>, lines: seq<IngredientLine>)
    requires TablesValid(t)
    requires forall k | k in ingredients :: k in t.ingredients && ingredients[k] == t.ingredients[k]
    requires forall l | l in lines :: l.recipe in t.recipes && l.ingredient in ingredients && AmountOk(l.amount)
    ensures TablesValid(t.(ingredients := ingredients, recipeIngredients := lines))
  {
  }

  class Database {
    var users: map<Id, UserRow>
    var subscriptions: seq<SubscriptionRow>
    var ingredients: map<Id, IngredientRow>
    var tags: map<Id, TagRow>
    var recipes: map<Id, RecipeRow>
    var recipeTags: seq<RecipeTagRow>
    var recipeIngredients: seq<IngredientLine>
    var favorites: seq<UserRecipe>
    var shoppingCarts: seq<UserRecipe>
    var nextId: Id

    function Snapshot(): Tables
      reads this
    {
      Tables(users, subscriptions, ingredients, tags, recipes, recipeTags, recipeIngredients,
             favorites, shoppingCarts, nextId)
    }

    ghost predicate Valid()
      reads this
    {
      TablesValid(Snapshot())
    }

    /** An empty database. */
    constructor()
      ensures Valid()
      ensures Snapshot() == Tables(map[], [], map[], map[], map[], [], [], [], [], 1)
    {
      users, subscriptions, ingredients, tags, recipes := map[], [], map[], map[], map[];
      recipeTags, recipeIngredients, favorites, shoppingCarts := [], [], [], [];
      nextId := 1;
    }

    /** The `INSERT` or `UPDATE` of a tag row under `key`; the key counter moves past `key`. */
    method WriteTag(key: Id, row: TagRow)
      requires Valid()
      requires TagColumnsOk(row.name, row.color) && !SlugTaken(tags, row.slug, Some(key))
      modifies this
      ensures Valid()
      ensures Snapshot() == PutTag(old(Snapshot()), key, row)
    {
      PutTagValid(Snapshot(), key, row);
      tags := tags[key := row];
      if key >= nextId {
        nextId := key + 1;
      }
    }

    /** Create a `CustomUser`. The row is checked, compared and stored as given: the username
        and e-mail normalisation of `AbstractUser.clean()` is not part of this model. */
    method CreateUser(row: UserRow) returns (r: Result<Id, StoreError>)
      requires Valid()
      modifies this
      ensures Valid()
      ensures r.Success? <==> UserFieldsOk(row) && !UsernameTaken(old(users), row.username) && !EmailTaken(old(users), row.email)
      ensures !UserFieldsOk(row) ==> r == Failure(InvalidField("user"))
      ensures UserFieldsOk(row) && UsernameTaken(old(users), row.username) ==> r == Failure(UniqueViolation("username"))
      ensures r.Success? ==>
                r.value !in old(users) &&
                Snapshot() == old(Snapshot()).(users := old(users)[r.value := row], nextId := old(nextId) + 1)
      ensures r.Failure? ==> Snapshot() == old(Snapshot())
    {
      if !UserFieldsOk(row) {
        return Failure(InvalidField("user"));
      }
      if UsernameTaken(users, row.username) {
        return Failure(UniqueViolation("username"));
      }
      if EmailTaken(users, row.email) {
        return Failure(UniqueViolation("email"));
      }
      var id := nextId;
      InsertUserValid(Snapshot(), row);
      users := users[id := row];
      nextId := nextId + 1;
      r := Success(id);
    }

    /** Create an `AuthorSubscription`; a subscription to oneself is allowed. */
    method Subscribe(subscriber: Id, author: Id) returns (r: Outcome<StoreError>)
      requires Valid()
      modifies this
      ensures Valid()
      ensures r.Pass? <==> subscriber in old(users) && author in old(users) &&
                           SubscriptionRow(subscriber, author) !in old(subscriptions)
      ensures subscriber in old(users) && author in old(users) && SubscriptionRow(subscriber, author) in old(subscriptions) ==>
                r == Fail(UniqueViolation("AuthorSubscription"))
      ensures r.Pass? ==> Snapshot() == old(Snapshot()).(subscriptions := old(subscriptions) + [SubscriptionRow(subscriber, author)])
      ensures r.Fail? ==> Snapshot() == old(Snapshot())
    {
      if subscriber !in users {
        return Fail(MissingRow("subscriber"));
      }
      if author !in users {
        return Fail(MissingRow("author"));
      }
      var row := SubscriptionRow(subscriber, author);
      if row in subscriptions {
        return Fail(UniqueViolation("AuthorSubscription"));
      }
      AppendKeepsDistinct(subscriptions, row);
      subscriptions := subscriptions + [row];
      r := Pass;
    }

    /** Create an `Ingredient`. */
    method CreateIngredient(row: IngredientRow) returns (r: Result<Id, StoreError>)
      requires Valid()
      modifies this
      ensures Valid()
      ensures r.Success? <==> IngredientFieldsOk(row)
      ensures r.Success? ==>
                r.value !in old(ingredients) &&
                Snapshot() == old(Snapshot()).(ingredients := old(ingredients)[r.value := row], nextId := old(nextId) + 1)
      ensures r.Failure? ==> Snapshot() == old(Snapshot())
    {
      if !IngredientFieldsOk(row) {
        return Failure(InvalidField("ingredient"));
      }
      var id := nextId;
      ingredients := ingredients[id := row];
      nextId := nextId + 1;
      r := Success(id);
    }

    /** Create a `Recipe` (without tags and ingredient lines, which are added afterwards). */
    method CreateRecipe(row: RecipeRow) returns (r: Result<Id, StoreError>)
      requires Valid()
      modifies this
      ensures Valid()
      ensures r.Success? <==> RecipeFieldsOk(row) && row.author in old(users)
      ensures r.Success? ==>
                r.value !in old(recipes) &&
                Snapshot() == old(Snapshot()).(recipes := old(recipes)[r.value := row], nextId := old(nextId) + 1)
      ensures r.Failure? ==> Snapshot() == old(Snapshot())
    {
      if !RecipeFieldsOk(row) {
        return Failure(InvalidField("recipe"));
      }
      if row.author !in users {
        return Failure(MissingRow("author"));
      }
      var id := nextId;
      InsertRecipeValid(Snapshot(), row);
      recipes := recipes[id := row];
      nextId := nextId + 1;
      r := Success(id);
    }

    /** `recipe.tags.add(tag)`: a link that already exists is not added again. */
    method AddRecipeTag(recipe: Id, tag: Id) returns (r: Outcome<StoreError>)
      requires Valid()
      modifies this
      ensures Valid()
      ensures r.Pass? <==> recipe in old(recipes) && tag in old(tags)
      ensures r.Pass? && RecipeTagRow(recipe, tag) in old(recipeTags) ==> Snapshot() == old(Snapshot())
      ensures r.Pass? && RecipeTagRow(recipe, tag) !in old(recipeTags) ==>
                Snapshot() == old(Snapshot()).(recipeTags := old(recipeTags) + [RecipeTagRow(recipe, tag)])
      ensures r.Fail? ==> Snapshot() == old(Snapshot())
    {
      if recipe !in recipes {
        return Fail(MissingRow("recipe"));
      }
      if tag !in tags {
        return Fail(MissingRow("tag"));
      }
      var row := RecipeTagRow(recipe, tag);
      if row !in recipeTags {
        AppendKeepsDistinct(recipeTags, row);
        recipeTags := recipeTags + [row];
      }
      r := Pass;
    }

    /** Create an `IngredientRecipe` line; the same ingredient may appear in a recipe more than once. */
    method AddIngredientLine(line: IngredientLine) returns (r: Outcome<StoreError>)
      requires Valid()
      modifies this
      ensures Valid()
      ensures r.Pass? <==> AmountOk(line.amount) && line.recipe in old(recipes) && line.ingredient in old(ingredients)
      ensures !AmountOk(line.amount) ==> r == Fail(InvalidField("amount"))
      ensures r.Pass? ==> Snapshot() == old(Snapshot()).(recipeIngredients := old(recipeIngredients) + [line])
      ensures r.Fail? ==> Snapshot() == old(Snapshot())
    {
      if !AmountOk(line.amount) {
        return Fail(InvalidField("amount"));
      }
      if line.recipe !in recipes {
        return Fail(MissingRow("recipe"));
      }
      if line.ingredient !in ingredients {
        return Fail(MissingRow("ingredient"));
      }
      recipeIngredients := recipeIngredients + [line];
      r := Pass;
    }

    /** Create a `Favorite`; no constraint rejects a second identical row. */
    method AddFavorite(user: Id, recipe: Id) returns (r: Outcome<StoreError>)
      requires Valid()
      modifies this
      ensures Valid()
      ensures r.Pass? <==> user in old(users) && recipe in old(recipes)
      ensures r.Pass? ==> Snapshot() == old(Snapshot()).(favorites := old(favorites) + [UserRecipe(user, recipe)])
      ensures r.Fail? ==> Snapshot() == old(Snapshot())
    {
      if user !in users {
        return Fail(MissingRow("user"));
      }
      if recipe !in recipes {
        return Fail(MissingRow("recipe"));
      }
      favorites := favorites + [UserRecipe(user, recipe)];
      r := Pass;
    }

    /** Create a `ShoppingCart` row; no constraint rejects a second identical row. */
    method AddToShoppingCart(user: Id, recipe: Id) returns (r: Outcome<StoreError>)
      requires Valid()
      modifies this
      ensures Valid()
      ensures r.Pass? <==> user in old(users) && recipe in old(recipes)
      ensures r.Pass? ==> Snapshot() == old(Snapshot()).(shoppingCarts := old(shoppingCarts) + [UserRecipe(user, recipe)])
      ensures r.Fail? ==> Snapshot() == old(Snapshot())
    {
      if user !in users {
        return Fail(MissingRow("user"));
      }
      if recipe !in recipes {
        return Fail(MissingRow("recipe"));
      }
      shoppingCarts := shoppingCarts + [UserRecipe(user, recipe)];
      r := Pass;
    }

    /** `user.delete()` with its cascades. */
    method DeleteUser(user: Id)
      requires Valid()
      modifies this
      ensures Valid()
      ensures Snapshot() == WithoutUser(old(Snapshot()), user)
    {
      ghost var after := WithoutUser(Snapshot(), user);
      WithoutUserValid(Snapshot(), user);
      var doomed := RecipesBy(recipes, user);
      recipes := RemoveKeys(recipes, doomed);
      recipeTags := Where(recipeTags, KeepRecipeTag(doomed));
      recipeIngredients := Where(recipeIngredients, KeepLine(doomed, None));
      favorites := Where(Where(favorites, KeepUserRecipe(None, doomed)), KeepUserRecipe(Some(user), {}));
      shoppingCarts := Where(Where(shoppingCarts, KeepUserRecipe(None, doomed)), KeepUserRecipe(Some(user), {}));
      subscriptions := Where(subscriptions, KeepSubscription(user));
      users := RemoveKeys(users, {user});
      assert Snapshot() == after;
    }

    /** `recipe.delete()` with its cascades. */
    method DeleteRecipe(recipe: Id)
      requires Valid()
      modifies this
      ensures Valid()
      ensures Snapshot() == WithoutRecipes(old(Snapshot()), {recipe})
    {
      ghost var after := WithoutRecipes(Snapshot(), {recipe});
      WithoutRecipesValid(Snapshot(), {recipe});
      recipes := RemoveKeys(recipes, {recipe});
      recipeTags := Where(recipeTags, KeepRecipeTag({recipe}));
      recipeIngredients := Where(recipeIngredients, KeepLine({recipe}, None));
      favorites := Where(favorites, KeepUserRecipe(None, {recipe}));
      shoppingCarts := Where(shoppingCarts, KeepUserRecipe(None, {recipe}));
      assert Snapshot() == after;
    }

    /** `ingredient.delete()` with its cascade. */
    method DeleteIngredient(ingredient: Id)
      requires Valid()
      modifies this
      ensures Valid()
      ensures Snapshot() == WithoutIngredient(old(Snapshot()), ingredient)
    {
      WithoutIngredientValid(Snapshot(), ingredient);
      ingredients := RemoveKeys(ingredients, {ingredient});
      recipeIngredients := Where(recipeIngredients, KeepLine({}, Some(ingredient)));
    }
  }

  lemma AppendKeepsDistinct<T>(s: seq<T>, x: T)
    requires Distinct(s) && x !in s
    ensures Distinct(s + [x])
  {
  }

  /** The slug `Tag.save` stores: the one already set, or the slugified, transliterated name. */
  function SlugOnSave(slug: string, name: string, slugify: string -> string): (r: string)
    ensures slug != "" ==> r == slug
    ensures slug == "" ==> r == slugify(name)
  {
    if slug == "" then slugify(name) else slug
  }

  /** Saving twice computes the same slug as saving once. */
  lemma SlugOnSaveIdempotent(slug: string, name: string, slugify: string -> string)
    ensures SlugOnSave(SlugOnSave(slug, name, slugify), name, slugify) == SlugOnSave(slug, name, slugify)
  {
  }

  /** A `Tag` instance; `id` is `None` until it is first saved. */
  class Tag {
    var id: Option<Id>
    var name: string
    var color: string
    var slug: string

    /** `Tag(name=name, color=color)` */
    constructor(name: string, color: string)
      ensures this.id == None && this.name == name && this.color == color && this.slug == ""
    {
      this.id := None;
      this.name := name;
      this.color := color;
      this.slug := "";
    }

    /** `Tag.save()`: fill an empty slug from the name; then the slug field slugifies the slug
        again and, while another tag carries it, tries `slug-2`, `slug-3`, ...; then update the
        row with this id, or insert a row (with this id, when it has one). The slug is kept on
        the instance even when the database refuses the row. `slugify` stands for
        `slugify(unidecode(...))`. */
    method Save(db: Database, slugify: string -> string) returns (r: Outcome<StoreError>)
      requires db.Valid()
      modifies this, db
      ensures db.Valid()
      ensures exists n :: FirstFree(old(db.tags), SlugBase(old(slug), old(name), slugify), old(id), n) &&
                          slug == Candidate(SlugBase(old(slug), old(name), slugify), n)
      ensures !SlugTaken(old(db.tags), slug, old(id))
      ensures name == old(name) && color == old(color)
      ensures r.Pass? <==> TagColumnsOk(name, color)
      ensures r.Pass? ==> id.Some? && (old(id).Some? ==> id == old(id)) && (old(id).None? ==> id.value !in old(db.tags))
      ensures r.Pass? ==> db.Snapshot() == PutTag(old(db.Snapshot()), id.value, TagRow(name, color, slug))
      ensures r.Fail? ==> id == old(id) && db.Snapshot() == old(db.Snapshot())
    {
      if slug == "" {
        slug := slugify(name);
      }
      ghost var base := SlugBase(old(slug), name, slugify);
      assert slugify(slug) == base;
      slug := FirstFreeSlug(db.tags, slugify(slug), id);
      if !TagColumnsOk(name, color) {
        return Fail(InvalidField("tag"));
      }
      var key: Id;
      if id.Some? {
        key := id.value;
      } else {
        key := db.nextId;
        id := Some(key);
      }
      db.WriteTag(key, TagRow(name, color, slug));
      r := Pass;
    }
  }

  /** The slug field's search for a unique slug: `base`, then `base-2`, `base-3`, ... until no tag
      other than `self` carries the slug. */
  method FirstFreeSlug(tags: map<Id, TagRow>, base: string, self: Option<Id>) returns (slug: string)
    ensures exists n :: FirstFree(tags, base, self, n) && slug == Candidate(base, n)
  {
    var n := 1;
    slug := base;
    ghost var others := OtherSlugs(tags, self);
    ghost var tried: set<string> := {};
    while SlugTaken(tags, slug, self)
      invariant n >= 1 && slug == Candidate(base, n)
      invariant AllTaken(tags, base, self, n)
      invariant TriedBefore(tried, base, n) && tried <= others
      decreases |others - tried|
    {
      TakenIsOther(tags, slug, self);
      TryNext(others, tried, base, n);
      AllTakenNext(tags, base, self, n);
      tried := tried + {slug};
      n := n + 1;
      slug := Candidate(base, n);
    }
    assert FirstFree(tags, base, self, n);
  }

  /** Every slug in `tried` is one of the first `n - 1` tries. */
  ghost predicate TriedBefore(tried: set<string>, base: string, n: nat) {
    forall c | c in tried :: exists j :: 1 <= j < n && c == Candidate(base, j)
  }

  /** One more taken try: it was not tried before, so fewer taken slugs remain untried. */
  lemma TryNext(others: set<string>, tried: set<string>, base: string, n: nat)
    requires n >= 1 && Candidate(base, n) in others
    requires TriedBefore(tried, base, n) && tried <= others
    ensures TriedBefore(tried + {Candidate(base, n)}, base, n + 1) && tried + {Candidate(base, n)} <= others
    ensures |others - (tried + {Candidate(base, n)})| < |others - tried|
  {
    var slug := Candidate(base, n);
    forall c | c in tried ensures c != slug {
      var j :| 1 <= j < n && c == Candidate(base, j);
      CandidatesDistinct(base, j, n);
    }
    assert others - (tried + {slug}) < others - tried;
  }

  /** The slug the slug field starts from: the slug `Tag.save` leaves, slugified once more. */
  function SlugBase(slug: string, name: string, slugify: string -> string): string {
    slugify(SlugOnSave(slug, name, slugify))
  }

  /** The separator put before a numeric suffix. */
  const IndexSeparator: string := "-"

  /** The `n`-th slug tried for `base`: `base` itself, then `base-2`, `base-3`, ... */
  function Candidate(base: string, n: nat): string
    requires n >= 1
  {
    if n == 1 then base else base + IndexSeparator + NatText(n)
  }

  /** No slug is tried twice. */
  lemma CandidatesDistinct(base: string, i: nat, j: nat)
    requires 1 <= i && 1 <= j && i != j
    ensures Candidate(base, i) != Candidate(base, j)
  {
    if i > 1 && j > 1 {
      var k := |base| + |IndexSeparator|;
      assert Candidate(base, i)[k..] == NatText(i);
      assert Candidate(base, j)[k..] == NatText(j);
      assert DigitsValue(NatText(i)) != DigitsValue(NatText(j));
    }
  }

  /** Every try before the `n`-th carries a slug some tag other than `self` has. */
  ghost predicate AllTaken(tags: map<Id, TagRow>, base: string, self: Option<Id>, n: nat) {
    forall j :: 1 <= j < n ==> SlugTaken(tags, Candidate(base, j), self)
  }

  lemma AllTakenNext(tags: map<Id, TagRow>, base: string, self: Option<Id>, n: nat)
    requires n >= 1 && AllTaken(tags, base, self, n) && SlugTaken(tags, Candidate(base, n), self)
    ensures AllTaken(tags, base, self, n + 1)
  {
  }

  /** The `n`-th try is the first whose slug no tag other than `self` carries. */
  ghost predicate FirstFree(tags: map<Id, TagRow>, base: string, self: Option<Id>, n: nat) {
    n >= 1 && !SlugTaken(tags, Candidate(base, n), self) && AllTaken(tags, base, self, n)
  }

  /** The first free try is determined by the tables, so the saved slug is too. */
  lemma FirstFreeUnique(tags: map<Id, TagRow>, base: string, self: Option<Id>, n: nat, m: nat)
    requires FirstFree(tags, base, self, n) && FirstFree(tags, base, self, m)
    ensures n == m
  {
  }

  /** A slug no other tag carries is kept; a taken one whose `-2` form is free becomes that. */
  lemma SuffixExamples(tags: map<Id, TagRow>, base: string, self: Option<Id>)
    ensures !SlugTaken(tags, base, self) ==> FirstFree(tags, base, self, 1) && Candidate(base, 1) == base
    ensures SlugTaken(tags, base, self) && !SlugTaken(tags, base + "-2", self) ==>
              FirstFree(tags, base, self, 2) && Candidate(base, 2) == base + "-2"
  {
    assert NatText(2) == "2";
  }

  /** Saving a stored tag again keeps its slug. The stored slug is not empty, so the
      branch at lines 43-46 leaves it, and `slugify` leaves it unchanged (as it does a slug it
      produced, with or without a `-n` suffix). No other tag carries it, so the slug field's search
      stops at the first candidate, the slug itself. */
  lemma SecondSaveKeepsSlug(t: Tables, k: Id, s: string, name: string, slugify: string -> string, n: nat)
    requires TablesValid(t) && k in t.tags && t.tags[k].slug == s
    requires s != "" && slugify(s) == s
    requires FirstFree(t.tags, SlugBase(s, name, slugify), Some(k), n)
    ensures Candidate(SlugBase(s, name, slugify), n) == s
  {
    assert SlugBase(s, name, slugify) == s;
    assert !SlugTaken(t.tags, s, Some(k));
    SuffixExamples(t.tags, s, Some(k));
    FirstFreeUnique(t.tags, s, Some(k), n, 1);
  }

  /** The slugs of the tags other than `self`. */
  function OtherSlugs(tags: map<Id, TagRow>, self: Option<Id>): set<string> {
    set k | k in tags && Some(k) != self :: tags[k].slug
  }

  lemma TakenIsOther(tags: map<Id, TagRow>, slug: string, self: Option<Id>)
    requires SlugTaken(tags, slug, self)
    ensures slug in OtherSlugs(tags, self)
  {
    var k :| k in tags && Some(k) != self && tags[k].slug == slug;
  }

  /** The tables after writing the tag row `row` under `key`. */
  function PutTag(t: Tables, key: Id, row: TagRow): Tables {
    t.(tags := t.tags[key := row], nextId := if key >= t.nextId then key + 1 else t.nextId)
  }

  /** Inserting a valid user under the next key, with a username and an email nobody has, keeps the tables valid. */
  lemma InsertUserValid(t: Tables, row: UserRow)
    requires TablesValid(t)
    requires UserFieldsOk(row) && !UsernameTaken(t.users, row.username) && !EmailTaken(t.users, row.email)
    ensures TablesValid(t.(users := t.users[t.nextId := row], nextId := t.nextId + 1))
  {
  }

  /** Inserting a valid recipe of a stored author under the next key keeps the tables valid. */
  lemma InsertRecipeValid(t: Tables, row: RecipeRow)
    requires TablesValid(t)
    requires RecipeFieldsOk(row) && row.author in t.users
    ensures TablesValid(t.(recipes := t.recipes[t.nextId := row], nextId := t.nextId + 1))
  {
  }

  /** Writing a tag row with valid columns and a slug no other row uses keeps the tables valid. */
  lemma PutTagValid(t: Tables, key: Id, row: TagRow)
    requires TablesValid(t)
    requires TagColumnsOk(row.name, row.color)
    requires !SlugTaken(t.tags, row.slug, Some(key))
    ensures TablesValid(PutTag(t, key, row))
  {
    SaveKeepsSlugsUnique(t.tags, key, row);
  }

  /** Writing a row whose slug no other row uses keeps the slugs unique. */
  lemma SaveKeepsSlugsUnique(tags: map<Id, TagRow>, key: Id, row: TagRow)
    requires SlugsUnique(tags)
    requires !SlugTaken(tags, row.slug, Some(key))
    ensures SlugsUnique(tags[key := row])
  {
  }
}
