# foodgram backend core, modelled in Dafny

This project models the core of the foodgram recipe-sharing backend, a Django application. Users publish recipes. A recipe has tags and free-text ingredient amounts. Users can favourite recipes, put them in a shopping cart, subscribe to authors and download a shopping list.

The model covers:

- **Relation store** (`store.dfy`). These are the tables of the `recipes` and `users` models, held by a `Database` class whose methods insert and delete rows:
  - the field checks that `full_clean()` applies (without the normalisation of user names and e-mail addresses done by `clean()`);
  - the unique fields and `UniqueConstraint`s;
  - the foreign keys with their `on_delete=CASCADE`.

  It also holds the `Tag` class and its `save()`. `save()` fills an empty slug, and the `AutoSlugField` then makes the slug unique with a numeric suffix. Every method keeps the invariant `TablesValid`: every constraint holds and every foreign key resolves. Each method states the exact new content of the tables.
- **Membership queries** (`models.dfy`). These are `Recipe.is_favorited` and `Recipe.is_in_shopping_cart`, over the favourite and cart rows.
- **Shopping-list export** (`shopping_cart.dfy`). This is `generate_shopping_cart_csv`. A loop walks the user's cart entries and each recipe's ingredient lines, reads every amount with `float()` and adds it to a `defaultdict(float)` keyed by ingredient. A second loop then writes one row per key, in insertion order. The two loops are proved against a recursive specification (`Accumulate`, `ShoppingList`). That specification is then related to a reference sum per ingredient and to the de-duplicated order of the ingredients met.
- **Recipe filters** (`filters.dfy`). These are the `RecipeFilter` fields, with Django's join semantics: a filter across a to-many relation yields a recipe once per matching related row, and an `exclude` drops every recipe with a match.
- **Validators and permissions** (`recipe_validators.dfy`, `user_validators.dfy`, `permissions.dfy`):
  - the tag and ingredient list validators;
  - the reserved user name `me`;
  - `IsAuthorOrReadOnly` and `IsAdmin`.
- **Base64 image helpers** (`image_utils.dfy`): `base64_to_image`, `Base64ImageField.to_internal_value` and `get_file_extension`.
- **Shared helpers** (`text.dfy`, `numbers.dfy`, `collections.dfy`, `wrappers.dfy`):
  - Python string operations: `lower`, `capitalize`, `split`, `in`, `strip`;
  - the subset of `int()` and `float()` the backend relies on;
  - sequence filtering and de-duplication;
  - `Option`, `Result` and `Outcome`.

Some behaviour outside the program is turned into parameters:

- the base64 decoder;
- the image-type sniffer (`imghdr.what`);
- the random identifier (`uuid.uuid4()`);
- `slugify(unidecode(...))`.

The requesting user is an explicit argument.

## Model

| member | source | states |
|---|---|---|
| Text.ToLowerLowers | backend/users/validators.py:5 | `lower()` (`Text.ToLower`) leaves no capital letter, changes no text that has none, and applying it twice is applying it once |
| Text.CapitalizeShape | backend/recipes/utils.py:77 | `capitalize()` (`Text.Capitalize`) keeps the length, upper-cases the first character, lower-cases every other one, and applying it twice is applying it once |
| Text.CapitalizeExamples | backend/recipes/utils.py:77 | `potato` becomes `Potato`, `ONION` becomes `Onion`, and a Cyrillic name is capitalized the same way |
| Text.Find | backend/recipes/utils.py:9 | the index found is an occurrence with no earlier one, and there is none exactly when the separator does not occur |
| Text.SplitJoin | backend/recipes/utils.py:9 | joining the pieces of `split(sep)` (`Text.Split`) with the separator gives back the original text |
| Text.SplitPiecesClean | backend/recipes/utils.py:9 | no piece of a split contains the separator |
| Text.SplitTwo | backend/recipes/utils.py:9 | a header and a payload around one separator, neither containing it, split into exactly those two pieces |
| Text.LastPieceIsSuffix | backend/recipes/utils.py:10 | `split(sep)[-1]` ends the text and, unless it is the whole text, follows an occurrence of the separator |
| Text.AfterLastSlashMeaning | backend/recipes/utils.py:10 | the extension taken from the header holds no `/`, ends the header, and follows its last `/` when there is one |
| Numbers.ParseDigits | backend/recipes/utils.py:67 | a string of digits reads as its decimal value, both as `int` (`Numbers.ParseInt`) and as `float` (`Numbers.ParseAmount`) |
| Numbers.ParseDecimal | backend/recipes/utils.py:67 | for `float()`, `whole.frac` reads as the whole part plus the fraction over the matching power of ten |
| Numbers.ParseSingleDigit | backend/recipes/utils.py:67 | one digit reads as its value |
| Numbers.ParseAmountRejectsEmpty | backend/recipes/utils.py:67 | an empty amount raises instead of reading as zero |
| Numbers.ParseAmountRejectsUnit | backend/recipes/utils.py:67 | an amount with a unit written after it, such as `2 tbsp`, raises |
| Numbers.ParseAmountIgnoresPadding | backend/recipes/utils.py:67 | `float()` first strips the text (`Numbers.Strip`): whitespace on either side does not change what an amount reads as |
| Numbers.StripLeftSpaces | backend/recipes/utils.py:67 | `strip()` removes any run of leading whitespace |
| Numbers.StripRightSpaces | backend/recipes/utils.py:67 | `strip()` removes any run of trailing whitespace |
| Numbers.ParseAmountSignedExponent | backend/recipes/utils.py:67 | a sign and an exponent are read, `-1e2` is `-100` |
| Models.LinkedRecipes | backend/recipes/utils.py:57 | the user's cart entries give each recipe as many times as the user has a row for it, and no other recipe |
| Models.RelatedRows | backend/recipes/models.py:134-156 | of the user-recipe tables (`Favorite`, `ShoppingCart`), a recipe's rows are found exactly under their two declared names `favorites` and `shopping_cart`; any other name is an `AttributeError` |
| Models.IsFavorited | backend/recipes/models.py:103-104 | always answers, and answers true exactly when some favourite row joins this user and this recipe |
| Models.IsInShoppingCartAlwaysFails | backend/recipes/models.py:106-107 | the query as written (`Models.IsInShoppingCartAsWritten`) looks up `shopping_carts`, which no relation is called, and fails for every recipe and user |
| Models.IsInShoppingCart | backend/recipes/models.py:106-107 | through the declared relation name: always answers, true exactly when some cart row joins this user and this recipe |
| Models.MembershipAfterAdd | backend/recipes/models.py:103-107 | after a favourite or a cart row is added, the matching query answers true |
| Store.PairConstraintImplied | backend/users/models.py:21-25 | the `(username, email)` unique constraint is implied by the two fields being unique on their own |
| Store.Database.CreateUser | backend/users/models.py:8-17 | a user, taken as raw text, is stored exactly when its fields are filled and within length, the name is not `me` in any case, and the username and email, compared as written, are both unused; the new row gets a fresh key and nothing else changes; a refused row changes nothing |
| Store.Database.Subscribe | backend/users/models.py:31-51 | a subscription is stored exactly when both users exist and the pair is new; a repeated pair violates `AuthorSubscription`; a refusal changes nothing |
| Store.Database.CreateIngredient | backend/recipes/models.py:9-17 | an ingredient is stored under a fresh key exactly when its name and unit are filled and within length |
| Store.Database.CreateRecipe | backend/recipes/models.py:58-82 | a recipe is stored under a fresh key exactly when its fields are valid (a name within 250 characters, a text, an image, a cooking time within the 32-bit integer range) and its author exists |
| Store.Database.AddRecipeTag | backend/recipes/models.py:89-93 | linking a tag succeeds exactly when recipe and tag exist; an existing link is not repeated |
| Store.Database.AddIngredientLine | backend/recipes/models.py:110-121 | a line is appended exactly when its amount is filled and fits 50 characters, and recipe and ingredient exist; the same ingredient may occur twice in a recipe |
| Store.Database.AddFavorite | backend/recipes/models.py:124-139 | a favourite is appended exactly when user and recipe exist, even when the same pair is already there |
| Store.Database.AddToShoppingCart | backend/recipes/models.py:146-161 | a cart row is appended exactly when user and recipe exist, even when the same pair is already there |
| Store.Database.DeleteUser | backend/recipes/models.py:59-158 | deleting a user leaves the tables valid and equal to the cascade `Store.WithoutUser` |
| Store.WithoutUserValid | backend/recipes/models.py:59-158 | the cascade of a user deletion leaves every foreign key resolving and every constraint holding |
| Store.WithoutUserExact | backend/users/models.py:31-41 | the cascade removes exactly the user, their recipes and the subscriptions from or to them; the remaining recipes are unchanged |
| Store.WithoutUserRowsExact | backend/recipes/models.py:116-158 | the cascade removes exactly the favourites and cart rows of the user or of their recipes and the lines of their recipes; ingredients and tags stay |
| Store.Database.DeleteRecipe | backend/recipes/models.py:116-158 | deleting a recipe leaves the tables valid and equal to the cascade `Store.WithoutRecipes` |
| Store.WithoutRecipes | backend/recipes/models.py:116-158 | the cascade keeps exactly the recipes that are not deleted |
| Store.WithoutRecipesValid | backend/recipes/models.py:116-158 | the cascade of a recipe deletion keeps the tables valid, and no tag link, line, favourite or cart row refers to a deleted recipe |
| Store.Database.DeleteIngredient | backend/recipes/models.py:111-115 | deleting an ingredient leaves the tables valid and equal to the cascade `Store.WithoutIngredient` |
| Store.WithoutIngredientValid | backend/recipes/models.py:111-115 | the cascade keeps the tables valid and removes exactly the lines that use the ingredient |
| Store.SlugOnSave | backend/recipes/models.py:43-46 | a slug already set is kept; an empty one is derived from the name |
| Store.SlugOnSaveIdempotent | backend/recipes/models.py:43-46 | the branch of `save()` leaves a filled slug alone: after it has run once, running it again changes nothing |
| Store.SecondSaveKeepsSlug | backend/recipes/models.py:37-46 | saving a stored tag again keeps its slug: a filled slug is not refilled, `slugify` keeps it, and since no other tag carries it the first candidate is taken |
| Store.Tag.Save | backend/recipes/models.py:37-47 | an empty slug is filled from the name; the slug field then slugifies it and takes the first of `slug`, `slug-2`, `slug-3`, ... that no other tag carries; the row is written exactly when name and colour fit their columns; a new tag gets a fresh key; no other table changes; a refused row changes no table |
| Store.FirstFreeSlug | backend/recipes/models.py:37-41 | the loop of the unique slug field returns the first candidate that no tag other than the one being saved carries |
| Store.CandidatesDistinct | backend/recipes/models.py:37-41 | the candidates `slug`, `slug-2`, `slug-3`, ... are pairwise different, so the search ends once the tags' slugs are used up |
| Store.FirstFreeUnique | backend/recipes/models.py:37-41 | the first free candidate is unique, so the saved slug is determined by the tags and the base |
| Store.SuffixExamples | backend/recipes/models.py:37-41 | a free slug is kept as is; a taken one whose `-2` form is free becomes that form |
| Numbers.NatText | backend/recipes/models.py:37-41 | the suffix number is written as non-empty decimal digits that read back as the number |
| Numbers.NatTextInjective | backend/recipes/models.py:37-41 | different suffix numbers are written differently |
| Store.Database.WriteTag | backend/recipes/models.py:46 | the tag row is inserted or updated under its key, the key counter moves past the key, nothing else changes, and the tables stay valid |
| Store.PutTagValid | backend/recipes/models.py:37-41 | writing a tag whose slug no other tag carries keeps the tables valid |
| Filters.JoinCount | backend/recipes/filters.py:30-34 | a filter across a to-many relation yields a recipe as often as it is in the queryset times the number of its matching rows |
| Filters.JoinMembership | backend/recipes/filters.py:30-34 | a recipe is in the join exactly when it is in the queryset and has a matching row |
| Filters.Exclude | backend/recipes/filters.py:34 | `exclude` keeps exactly the recipes without a matching row, with all their occurrences, and drops every occurrence of the others |
| Filters.FilterByLink | backend/recipes/filters.py:30-40 | the answer holds exactly the recipes of the queryset whose link with the user agrees with the requested value |
| Filters.FilterIsFavorited | backend/recipes/filters.py:30-34 | `is_favorited=true` keeps the recipes the user favourited and `false` keeps the others |
| Filters.FilterIsInShoppingCart | backend/recipes/filters.py:36-40 | `is_in_shopping_cart=true` keeps the recipes in the user's cart and `false` keeps the others |
| Filters.FilterByLinkPartition | backend/recipes/filters.py:30-40 | with at most one row per pair, the true and false answers together are the queryset, occurrence for occurrence |
| Filters.FilterByLinkDuplicates | backend/recipes/filters.py:30-33 | a recipe favourited twice by the user comes out twice |
| Filters.FilterAuthor | backend/recipes/filters.py:14-16 | an empty value leaves the queryset alone; otherwise the value must read as an integer and exactly the recipes of that author remain |
| Filters.IngredientLinks | backend/recipes/filters.py:25-28 | the recipes reached through a line whose ingredient name contains the query, ignoring case |
| Filters.FilterIngredients | backend/recipes/filters.py:25-28 | an empty value leaves the queryset alone; otherwise exactly the recipes with a line whose ingredient name contains the value, ignoring case, remain |
| Filters.FilterIngredientsPerLine | backend/recipes/filters.py:25-28 | a recipe with two matching lines comes out twice |
| Filters.UnknownSlugs | backend/recipes/filters.py:9-13 | exactly the given slugs that no tag carries |
| Filters.TagLinks | backend/recipes/filters.py:9-13 | the recipes reached through a tag link whose tag has one of the slugs |
| Filters.FilterTags | backend/recipes/filters.py:9-13 | an unknown slug is an invalid choice naming the first one; no slug leaves the queryset alone; otherwise each recipe with any of the tags remains once |
| ImageUtils.Base64ToImage | backend/recipes/utils.py:8-12 | text that does not split into exactly two pieces is a `ValueError` with the piece count; a stored file is named `image.` plus the text after the header's last slash |
| ImageUtils.TwoPieces | backend/recipes/utils.py:9 | a split into two pieces means the text is a header, the separator and a payload, neither containing the separator |
| ImageUtils.Base64ToImageWellFormed | backend/recipes/utils.py:8-12 | a well-formed data URI with a decodable payload becomes that payload, named after the header's extension |
| ImageUtils.Base64ToImageAccepted | backend/recipes/utils.py:8-12 | every accepted text is a header and a decodable payload around one separator, and the content is the decoded payload |
| ImageUtils.Base64ToImageRejects | backend/recipes/utils.py:9 | text without the separator, or with it twice, is refused |
| ImageUtils.GetFileExtension | backend/recipes/utils.py:47-53 | `jpeg` is reported as `jpg`, every other answer of the sniffer is passed through, and `jpeg` never comes out |
| ImageUtils.GetFileExtensionIdempotent | backend/recipes/utils.py:51 | normalising the extension twice is normalising it once |
| ImageUtils.Take | backend/recipes/utils.py:36 | `s[:n]` is the prefix of length `n`, or the whole text when it is shorter |
| ImageUtils.ToInternalValue | backend/recipes/utils.py:15-44 | text with a `data:` header must split in two; text without one is decoded whole; the file is named from the first twelve characters of the identifier and the normalised extension |
| ImageUtils.ToInternalValueStripsHeader | backend/recipes/utils.py:24-30 | with a `data:` header only the payload after the separator is decoded |
| ImageUtils.FileNameShape | backend/recipes/utils.py:36-40 | the file name is twelve characters of the identifier, a dot, then the extension |
| Permissions.HasObjectPermission | backend/recipes/permissions.py:6-9 | safe methods are always allowed; any other is allowed exactly to the authenticated author |
| Permissions.OnlyAuthorWrites | backend/recipes/permissions.py:6-9 | anyone may read; anonymous users never write; a user who is not the author cannot write even with the admin and superuser flags |
| Permissions.HasAdminPermission | backend/recipes/permissions.py:12-16 | the intended check: anonymous users are refused; an authenticated user is allowed exactly when admin or superuser |
| Permissions.AdminCheckAlwaysFails | backend/recipes/permissions.py:12-16 | as written (`Permissions.HasAdminPermissionAsWritten`), on a user model without `is_admin`: anonymous users are refused and every authenticated user raises `AttributeError` on `is_admin`, superusers included |
| Permissions.AdminCheckWithDeclaredFlag | backend/recipes/permissions.py:12-16 | the written expression, with Python's short-circuit `or`, on a user model that declares both flags never raises and answers `Permissions.HasAdminPermission` |
| RecipeValidators.ValidateTags | backend/recipes/validators.py:4-10 | a tag list is accepted, and returned unchanged, exactly when it is non-empty and repeats no tag; the empty list is refused first |
| RecipeValidators.ElementsCount | backend/recipes/validators.py:8 | `len(set(data)) == len(data)` holds exactly when no tag repeats |
| RecipeValidators.IdsOf | backend/recipes/validators.py:19-20 | the ids of the accepted entries, in order |
| RecipeValidators.ValidateIngredients | backend/recipes/validators.py:13-27 | the list is accepted exactly when it is non-empty, every entry has an id and no id repeats; it is refused as empty exactly when no entry has an id; a missing or repeated id is reported at the first offending index |
| RecipeValidators.MissingIdExample | backend/recipes/validators.py:13-21 | an entry without an id fails the list even when another entry has one |
| RecipeValidators.RepeatedIdExample | backend/recipes/validators.py:19-24 | two entries with the same id fail the list even when their amounts differ |
| UserValidators.ValidateReservedUsername | backend/users/validators.py:4-6 | a name is refused exactly when it is `me` in one of its four spellings |
| UserValidators.ReservedSpellings | backend/users/validators.py:5 | exactly four names lower-case to `me` |
| UserValidators.VerdictByLowerCase | backend/users/validators.py:4-6 | two names with the same lower case get the same verdict |
| UserValidators.NearMissesAccepted | backend/users/validators.py:4-6 | `me `, `mee`, `name` and the empty name pass this validator |
| ShoppingCart.LinesOf | backend/recipes/utils.py:62 | a line is among a recipe's lines exactly when it is in the table and belongs to the recipe |
| ShoppingCart.LinesOfCount | backend/recipes/utils.py:62 | each line of the recipe comes out as many times as the table holds it, a line of another recipe never |
| ShoppingCart.LinesOfAppend | backend/recipes/utils.py:62 | the recipe's lines keep table order: those of an earlier stretch of the table come before those of a later one |
| ShoppingCart.AddKeepsDictionary | backend/recipes/utils.py:68 | `+=` on a `defaultdict(float)` (`ShoppingCart.Add`) keeps each key listed once in insertion order and the listed keys exactly those holding totals; the ingredient becomes a key, its total grows by the amount from 0, and every other total stays |
| ShoppingCart.GenerateShoppingCartCsv | backend/recipes/utils.py:56-82 | the two loops compute `ShoppingCart.ShoppingList`: the rows of the totals, or the error of the first amount `float()` rejects |
| ShoppingCart.AddRecipeLines | backend/recipes/utils.py:64-68 | the inner loop adds one recipe's lines to the running totals exactly as walking all the lines visited so far would |
| ShoppingCart.WriteRows | backend/recipes/utils.py:75-80 | the writing loop produces `ShoppingCart.RowsOf`: one row per key, in insertion order, with the capitalized name, the total and the unit |
| ShoppingCart.StoredLinesResolve | backend/recipes/models.py:111-115 | in valid tables every line's ingredient is stored, which the export relies on |
| ShoppingCart.FailurePersists | backend/recipes/utils.py:67 | once an amount has raised, later lines do not change the outcome |
| ShoppingCart.AccumulateKeys | backend/recipes/utils.py:58-75 | the keys iterated for writing are exactly the keys holding totals, and each is a stored ingredient |
| ShoppingCart.AccumulateTotals | backend/recipes/utils.py:58-68 | for the walk over the lines (`ShoppingCart.Accumulate`), the key order is the order in which ingredients are first met, without repetition; the keys are the ingredients met; each total is the sum of that ingredient's amounts |
| ShoppingCart.AccumulateSucceeds | backend/recipes/utils.py:67 | the walk succeeds exactly when every visited amount reads as a number |
| ShoppingCart.AccumulateFirstFailure | backend/recipes/utils.py:67 | the error names the first visited line whose amount does not read |
| ShoppingCart.EmptyCart | backend/recipes/utils.py:56-82 | a user with no cart entries gets an empty list and no error |
| ShoppingCart.ShoppingListRows | backend/recipes/utils.py:56-82 | in `ShoppingCart.ShoppingList`, row `k` is the `k`-th distinct ingredient met, with its capitalized name, the sum of its amounts over all cart recipes, and its unit; two ingredients with one name get a row each |
| ShoppingCart.SameNameExample | backend/recipes/utils.py:56-82 | lines of 2 g, 1 kg and 3 g of two ingredients both named `potato` give the rows `Potato, 5, g` and `Potato, 1, kg` |

## Left out

- Floating point: amounts and totals are exact reals. `float()` rounding and the text `csv.writer` prints for a float (`5.0`) are not modelled.
- `float()` and `int()` syntax beyond whitespace, a sign, digits, one decimal point and an exponent is not covered: underscores, `inf`, `nan`, hexadecimal and non-ASCII digits. The model reads such text as an error.
- Case mapping covers ASCII letters and the Russian Cyrillic alphabet only. Other Unicode case rules of `lower()` and `capitalize()` are not modelled.
- Numbers.IsSpace: whitespace is the six ASCII whitespace characters. Python's `strip()` and `float()` also treat `\x1c`-`\x1f`, `\x85`, `\xa0` and the Unicode space separators (`U+2000`... and others) as whitespace; the model does not strip them, so `Numbers.Strip`, `Numbers.ParseAmount` and `Filters.Cleaned` differ from Python on such text.
- The CSV writer, `HttpResponse` and the `Content-Disposition` header are not modelled; the export produces the sequence of rows.
- ShoppingCart.GenerateShoppingCartCsv: backend/recipes/utils.py never imports `ShoppingCart`, `HttpResponse` or `csv`, so as written the function raises `NameError` at line 57 on every call. The model follows the evident intent, with the model classes and the CSV writer in scope.
- `base64.b64decode`, `imghdr.what`, `uuid.uuid4()` and `slugify(unidecode(...))` are parameters.
- ImageUtils.ToInternalValue: an undecodable payload is one error, whatever exception the decoder raises. The `isinstance(data, six.string_types)` test and the call to the parent field's `to_internal_value` are not modelled, because the input is always text here.
- Of a recipe's `ImageField` only whether an image is given is kept, which is what `full_clean()` checks; the file, its storage path and the recipe's creation date are not stored, because no modelled operation reads them.
- Views, serializers, admin, migrations, the CSV loader, e-mail syntax validation and password handling are not modelled. They are outside the core.
- Concurrency is not modelled: every insert and delete is one atomic step.
- Store.Database.CreateUser: the normalisation that `full_clean()` runs through `clean()` between the field checks and the unique checks is not modelled. `AbstractUser.clean()` applies NFKC to the username and lower-cases the e-mail's domain, and Django compares and stores those forms; the model compares and stores the raw text. So with `a@x.com` stored the model accepts `a@X.com`, and with `fish` stored it accepts `ﬁsh`, both of which Django refuses. A fullwidth `ｍｅ` passes the reserved-name check in both, but Django stores it as `me`. The names and e-mails the model keeps are therefore the raw values the checks saw.
- Store.Database.CreateRecipe: keys are unbounded. The database's `AutoField` sequence stops at 2147483647, and no insert succeeds past it.
- Primary keys come from one counter shared by all tables rather than one sequence per table. This changes key values, not which rows exist.
- Store.Tag.Save: the `django-autoslug` library is not part of this model; its `pre_save` is modelled after its documented algorithm (slugify, then `slug`, `slug-2`, ...). Cropping the slug to the field's `max_length` of 50 before and while suffixing is not modelled, nor is the fallback for a slug that slugifies to nothing. The same `slugify` parameter stands for the library's slugify and for `slugify(unidecode(...))`.
- Store.SecondSaveKeepsSlug: assumes `slugify` leaves the stored slug unchanged, as the library's slugify does for a slug it produced, with or without a `-n` suffix; the slugify function is a parameter.
- Store.Tag.Save: checks only the column widths the database enforces, because `save()` runs no form validation.
- Filters: the anonymous user (`request.user` unauthenticated) is not modelled. The filters take a user id.
- Filters: how `FilterSet` chains the fields and collects several errors is not modelled. Each field is a function on a queryset.
- Filters.FilterTags: with several unknown slugs, the error names the first in the order given. Django names one taken from a `frozenset`, whose iteration order is not specified.
- Permissions.HasAdminPermission: is the intended check, with `is_admin` as a flag of the requesting user. As written the check cannot succeed for an authenticated user (see Findings).
- Favourites and cart rows carry no uniqueness constraint in the models, so the store accepts repeated pairs. Filters.FilterByLinkPartition assumes at most one row per pair.
- ShoppingCart.ShoppingList: requires that every line's ingredient is stored. This always holds in valid tables (ShoppingCart.StoredLinesResolve).

## Findings

| source | as written | input that shows it | evidently intended | confidence | as-written member | corrected member |
|---|---|---|---|---|---|---|
| backend/recipes/models.py:106-107 | `is_in_shopping_cart` looks up `self.shopping_carts`, but the reverse relation of `ShoppingCart.recipe` is declared as `shopping_cart` (line 156) | any recipe and any user: the attribute lookup raises `AttributeError` | the user's cart rows for this recipe, through `shopping_cart` | high, not executed | Models.IsInShoppingCartAlwaysFails | Models.IsInShoppingCart |
| backend/recipes/permissions.py:16 | `IsAdmin` reads `request.user.is_admin`, but `CustomUser` (backend/users/models.py:8-18) and `AbstractUser` declare no `is_admin` | any authenticated user, a superuser included: the attribute lookup raises `AttributeError` before `is_superuser` is read | admins and superusers are allowed | high, not executed | Permissions.AdminCheckAlwaysFails | Permissions.HasAdminPermission |
