# Foodgram recipe backend: a Dafny model of its core

Foodgram is a recipe-sharing service. Users publish recipes, each built from tags and
ingredient lines. Users mark recipes as favorites or put them in a shopping cart, and
follow other authors. They can download a shopping list that sums the ingredients of
every recipe in their cart. This project models the part of the Django backend that
carries this logic. Each piece of behaviour is a pure Dafny function over one immutable
database value, and the properties the code promises are proved about those functions.

- `wrappers.dfy` (`Wrappers`): the `Option`, `Result` and `Outcome` datatypes.
- `seqs.dfy` (`Seqs`): order-preserving filtering, key sets and the `DistinctBy`
  predicate. `DistinctBy` expresses a unique constraint.
- `text.dfy` (`Text`), for strings. It holds:
  - ASCII case mapping and substring search;
  - Python's whitespace stripping, which every character field applies to its input;
  - decimal numerals;
  - joining and splitting lines;
  - the lexicographic order.
- `sorting.dfy` (`Sorting`): a stable sort by key, proved sorted and a permutation.
- `models.dfy` (`Models`): the tables and the schema invariant `Valid`. The invariant
  holds the unique constraints, the foreign keys and the positive small-integer columns.
- `projection.dfy` (`Projection`): the read serializers. These are the full recipe view
  with the viewer's `is_favorited` / `is_in_shopping_cart` flags, the author view with
  `is_subscribed`, and the short recipe view.
- `composer.dfy` (`Composer`): the recipe write serializer. It covers field-level
  checks, the cross-field `validate`, `create`, and the partial `update`.
- `readback.dfy` (`ReadBack`): what a client reads back after a create or an update.
- `relations.dfy` (`RelationManager`): adding and removing favorite and cart rows.
- `subscriptions.dfy` (`Subscriptions`): following and unfollowing an author, the
  subscription view and the list of followed authors.
- `shopping.dfy` (`Shopping`): the shopping-list aggregation and the text file it is
  rendered to.
- `filters.dfy` (`RecipeFilters`): the recipe list filters by author, tag slug,
  favorites and cart.
- `validators.dfy` (`Validators`): the two username validators.
- `accounts.dfy` (`Accounts`): creating a user, and the cascades that run when a recipe
  or a user is deleted.

The database is the datatype `Models.Store`. Tables whose row order can be observed are
sequences. Recipes are kept in their default ordering, newest first, so a new recipe is
prepended. The ingredient-line table has no declared ordering. The model assumes the
database returns a recipe's lines in insertion order. Join tables are sets of pairs.
Every write operation requires `Valid` of its input and ensures `Valid` of its output.

Behaviour that is easy to misread, as the code does it:

- **Field errors first.** A payload that names an unknown tag or ingredient is rejected
  by the field-level checks (api/serializers.py:179-187). This happens before the
  cross-field checks run, and every failing field is reported together.
- **Order of the cross-field checks.** They run in this order: ingredients present,
  ingredients distinct, tags present, tags distinct. A repeated tag is reported under
  the `ingredients` key (api/serializers.py:204-207).
- **Adding a relation to a missing recipe** is refused by the serializer's validation
  as a bad request (api/serializers.py:273-276), not as "not found".
- **Unfollowing yourself** passes the existence check and then reports "not subscribed"
  (users/views.py:57-67).
- **`recipes_limit` cuts the list.** Any present value, `"0"` included, truncates the
  author's recipe list (users/serializers.py:66-73).
- **Text input is stripped.** The recipe name and text, the four sign-up fields and the
  `author` query parameter are character fields. Each one strips leading and trailing
  whitespace (Python's `str.isspace` set) before any check. A name that is only
  whitespace is therefore blank, and ` bob` is stored as `bob`. A NUL character in a
  name, text or sign-up field is refused.
- **Updates are always partial.** The recipe view set exposes PATCH and not PUT
  (api/views.py:37), so every update is partial. A missing field keeps its value. Tags
  and ingredients must still be present, because `validate` demands them
  (api/serializers.py:192-203).

## Model

| member | source | states |
|---|---|---|
| Models.WithRowsValid | backend/recipes/models.py:136-153 | replacing a favorite or cart table with rows that reference existing users and recipes keeps every schema constraint |
| Models.FreshRecipeId | backend/recipes/models.py:63-99 | a newly created recipe gets an id no existing recipe uses |
| Projection.CheckRecipe | backend/api/serializers.py:114-120 | an anonymous viewer gets false; otherwise the flag is true exactly when the (viewer, recipe) row exists in the chosen table |
| Projection.IsSubscribed | backend/api/serializers.py:34-40 | an anonymous viewer gets false; otherwise true exactly when the viewer follows the author |
| Projection.ProjectAuthor | backend/users/serializers.py:12-41 | the user view carries the user's email, id, username and names, and `is_subscribed` holds exactly when the viewer is authenticated and follows the user |
| Projection.RecipeTags | backend/recipes/models.py:27-30 | a recipe's tags are exactly the stored tags linked to it, ordered by name |
| Projection.AmountViews | backend/api/serializers.py:55-74 | one entry per ingredient line, in the lines' order, each with the line's ingredient id and amount and that ingredient's name and measurement unit |
| Projection.ProjectRecipe | backend/api/serializers.py:123-163 | the view carries the recipe's own fields, the author's view, exactly the linked tags sorted by name, and the two viewer flags; it has one ingredient entry per stored line, and each entry shows the line's ingredient id and amount with that ingredient's name and unit |
| Projection.AnonymousSeesNoFlags | backend/api/serializers.py:114-117 | an anonymous viewer never sees a favorite, cart or subscription flag set |
| Composer.ValidateComposition | backend/api/serializers.py:189-208 | each failure is reported by the first failing check in source order, a repeated tag under `ingredients`; it passes exactly when the payload is well composed |
| Composer.CreateRecipe | backend/api/serializers.py:230-238 | field errors come first, then the cross-field error; success exactly when both pass. A name or text that is blank after stripping, or holds a NUL, is a field error. On success the store stays valid. The recipe is prepended with a fresh id, the caller as author and the stripped name and text. Its tag set is the payload's, its lines are the payload's items in order, and nothing else changes |
| Composer.UpdateRecipe | backend/api/serializers.py:221-228 | a missing id is "not found"; then field errors (partial, with the same stripping and blank and NUL checks), then the cross-field error. On success only the recipe's given fields change, a given name or text to its stripped value. Its tags and lines are replaced by exactly the payload's, and other recipes' tags and lines are untouched |
| Composer.BadNameRefused | backend/recipes/models.py:71-74 | a name that is all whitespace or holds a NUL is refused by create and by update as a field error on `name` |
| Composer.CreatedTextIsClean | backend/recipes/models.py:71-81 | a created recipe's name and text are non-empty, NUL-free and carry no leading or trailing whitespace |
| Composer.UpdateTags | backend/api/serializers.py:224-226 | after clearing and setting, the recipe's tag ids are exactly the payload's and every other recipe's tags are unchanged |
| Composer.UpdateLines | backend/api/serializers.py:166-172 | the replaced lines stay unique per (recipe, ingredient); the recipe's lines are the payload's in order; other recipes' lines are unchanged |
| Composer.PatchedRows | backend/api/serializers.py:228 | a partial update overwrites exactly the fields present in the payload (name and text stripped) of the one recipe with the id |
| Composer.RepeatsAlwaysRefused | backend/api/serializers.py:196-207 | a payload that repeats an ingredient or a tag is refused by both create and update, whatever else it holds |
| Composer.NewAmountsDistinct | backend/recipes/models.py:128-133 | ingredient lines built from a payload without repeated ingredients meet the unique (recipe, ingredient) constraint |
| ReadBack.CreateThenRead | backend/api/serializers.py:230-241 | the view of a newly created recipe shows the caller as author, the payload's fields (name and text stripped), and exactly the payload's tags and lines |
| ReadBack.CreatedRecipeUnflagged | backend/api/serializers.py:159-163 | no viewer sees a newly created recipe as a favorite or in a cart |
| ReadBack.UpdateThenRead | backend/api/serializers.py:221-228 | the view of an updated recipe shows exactly the payload's tags and lines |
| RelationManager.AddRelation | backend/api/serializers.py:273-314 | a missing recipe and an existing row are refused as bad requests; success exactly otherwise; on success exactly one row is added, nothing else changes, and the short view of that recipe is returned |
| RelationManager.RemoveRelation | backend/api/views.py:54-63 | a missing recipe is "not found"; a missing row is "already removed"; otherwise exactly that row is deleted and nothing else changes |
| RelationManager.AddTwiceConflicts | backend/api/serializers.py:292-298 | adding the same favorite or cart row twice is refused the second time |
| RelationManager.AddSetsFlag | backend/api/serializers.py:159-163 | after adding, the user's flag on that recipe is set and every other viewer's flag on every recipe is unchanged |
| RelationManager.RemoveThenAddRestores | backend/api/views.py:54-63 | removing a row clears the flag, and adding it back restores the original store |
| Subscriptions.Limit | backend/users/serializers.py:66-73 | without a limit all recipes are shown; with one, the first min(limit, count) recipes in the default ordering |
| Subscriptions.SubscriptionViewOf | backend/users/serializers.py:37-79 | the view carries the author's fields; `is_subscribed` is pair membership; `recipes_count` is the author's recipe count; the recipes are the author's newest ones, cut to the limit |
| Subscriptions.Subscribe | backend/users/views.py:35-56 | an unknown author is "not found", then self-subscription, then a repeat subscription are refused. On success exactly one pair is added and nothing else changes. The response is the author's subscription view in the new store: followed, with the author's full recipe count and their newest recipes cut to the limit |
| Subscriptions.SubscribedStore | backend/users/views.py:35-56 | an accepted subscription yields exactly the store with that one pair added, and it is valid |
| Subscriptions.Unsubscribe | backend/users/views.py:57-67 | an unknown author is "not found"; a missing pair is "not subscribed"; otherwise exactly that pair is removed |
| Subscriptions.ValidateSubscription | backend/users/serializers.py:87-95 | self-subscription is refused first, then a repeat; it passes exactly when neither holds |
| Subscriptions.ValidateAgreesWithSubscribe | backend/users/serializers.py:87-95 | for existing users the serializer's validation and the view's checks accept and refuse the same requests with the same reason |
| Subscriptions.FollowedAuthors | backend/users/views.py:73-74 | the listed authors are exactly the users the subscriber follows, each once |
| Subscriptions.SubscriptionList | backend/users/views.py:73-80 | one subscription view per followed author, in order, each marked as followed |
| Subscriptions.SubscriptionListExact | backend/users/views.py:73-80 | an author is listed exactly when they exist and are followed; ids are distinct; all entries are marked followed |
| Subscriptions.SubscribeKeepsNoSelf | backend/users/views.py:40-44 | subscribing never creates a self-subscription |
| Subscriptions.SubscribeThenUnsubscribe | backend/users/views.py:35-67 | after following, the author is in the list, and unfollowing restores the original store |
| Shopping.ItemsOfJoin | backend/api/views.py:93-96 | each cart line is joined with its ingredient's name and unit and keeps its amount, in order |
| Shopping.AddItemEffect | backend/api/views.py:97 | folding one item in adds its key and adds its amount to that key's total only, keeping keys distinct |
| Shopping.GroupCorrect | backend/api/views.py:95-97 | grouping yields one entry per (name, unit) of the items, and each total is the sum of that key's amounts |
| Shopping.ShoppingList | backend/api/views.py:93-97 | the list is sorted by ingredient name, holds one entry per (name, unit) in the cart's lines, and each total is the sum of those lines' amounts |
| Shopping.ShoppingListPositive | backend/recipes/models.py:120-124 | in a valid store every total in the list is at least one |
| Shopping.Render | backend/api/views.py:98-105 | the file starts with the header |
| Shopping.RenderLinesRoundTrip | backend/api/views.py:98-105 | splitting the body after the header on newlines gives back one `name (unit) - total` line per entry, when no name or unit holds a newline |
| Shopping.EmptyCartIsHeaderOnly | backend/api/views.py:98-105 | an empty cart renders as the header alone |
| RecipeFilters.FlagFilter | backend/api/filters.py:28-36 | a false value or an anonymous viewer leaves the list unchanged; otherwise it keeps exactly the listed recipes with a row in the viewer's table |
| RecipeFilters.FlagFilterMatchesProjection | backend/api/filters.py:28-31 | the filter keeps exactly the recipes whose projected flag is set |
| RecipeFilters.AuthorMatchesOccurs | backend/api/filters.py:12-15 | the case-insensitive containment test on the author id holds exactly when the lower-cased query occurs in the decimal id |
| RecipeFilters.AuthorFilter | backend/api/filters.py:12-15 | the query is stripped; a blank query is not applied; otherwise it keeps exactly the recipes whose author id contains the stripped query |
| RecipeFilters.AuthorFilterIgnoresCase | backend/api/filters.py:12-15 | upper-casing the query does not change the result |
| RecipeFilters.AuthorFilterIgnoresPadding | backend/api/filters.py:12-15 | whitespace around the query does not change the result |
| RecipeFilters.AuthorFilterKeepsExactId | backend/api/filters.py:12-15 | querying with an author's full id keeps all of that author's recipes |
| RecipeFilters.TagsFilter | backend/api/filters.py:16-20 | it fails exactly when some slug names no tag; an empty selection is not applied; otherwise it keeps exactly the recipes with a selected tag, each once |
| RecipeFilters.TagsFilterMatchesProjection | backend/api/filters.py:16-20 | with known slugs, a listed recipe is kept exactly when its recipe view shows a tag with a selected slug |
| RecipeFilters.ListRecipes | backend/api/filters.py:11-36 | it fails exactly on an unknown slug; otherwise a recipe is listed exactly when it passes every filter of the query |
| RecipeFilters.EmptyQueryListsAll | backend/api/filters.py:11-36 | with no parameters the whole recipe table is listed |
| Validators.MatchUsernamePattern | backend/foodgram/users/validators.py:14-15 | accepts exactly the non-empty strings of word characters and `.@+-`; an accepted value holds no newline |
| Validators.PatternRejectsEmptyAndNewline | backend/foodgram/users/validators.py:14-15 | the empty string and a value with a trailing newline are rejected |
| Validators.ProhibitedIffEqualIgnoringCase | backend/foodgram/users/validators.py:7-11 | for a lower-case reserved name, a value is refused exactly when it equals the name ignoring case |
| Validators.AnyCasingIsProhibited | backend/foodgram/users/validators.py:7-11 | every casing of the reserved name is refused |
| Validators.UpperCaseNameBansNothing | backend/foodgram/users/validators.py:7-11 | a reserved name with an upper-case letter bans no value |
| Validators.UsernameErrors | backend/users/models.py:16-19 | the field reports a format error exactly when the pattern fails and a prohibited error exactly when the reserved name matches |
| Accounts.UsernameErrors | backend/users/models.py:16-19 | a blank username reports only "required"; otherwise the two validators' failures (taken from `Validators.UsernameErrors`), a NUL and a taken username are each reported exactly when they occur |
| Accounts.EmailErrors | backend/users/models.py:23-25 | a blank email reports only "required"; otherwise a NUL and a taken email are each reported exactly when they occur |
| Accounts.AccountErrors | backend/users/models.py:16-31 | the username and email errors are exactly their fields' errors; the optional names report exactly a NUL |
| Accounts.CreateUser | backend/users/models.py:13-42 | every field is stripped first. It is refused exactly when the stripped form has an error, and reports all of them. On success a user with a fresh id and the stripped values is appended, nothing else changes, and the store stays valid |
| Accounts.PaddingIgnored | backend/users/models.py:16-25 | any whitespace before and after the username and, independently, before and after the email does not change the outcome of registration |
| Accounts.UsernameStaysUnique | backend/users/models.py:16-17 | after a user is created, a second form whose username strips to the same value is refused as taken |
| Accounts.DeleteRecipe | backend/recipes/models.py:114-142 | fails exactly for a missing id; otherwise the recipe, its lines, its tag links and every favorite and cart row for it are gone; nothing else changes; the store stays valid |
| Accounts.DeleteUser | backend/users/models.py:48-58 | fails exactly for a missing id; otherwise the user, their recipes with everything attached to them, their favorite and cart rows, and all subscriptions on either side are gone. The other users are kept, and every surviving recipe keeps its lines and tag links. The remaining favorite, cart and subscription rows are kept and the store stays valid |
| Accounts.DeletedUserLeavesNoTrace | backend/recipes/models.py:66-70 | after deleting a user no recipe, subscription, favorite or cart row refers to them |
| Sorting.SortByCorrect | backend/api/views.py:97 | sorting by key yields a sorted permutation of its input |
| Text.ContainsIffOccurs | backend/api/filters.py:12-15 | the substring search succeeds exactly when the needle occurs at some position |
| Text.StripPadding | backend/api/filters.py:12-15 | stripping removes exactly the whitespace around a value that neither starts nor ends with whitespace |
| Text.StripBlank | backend/recipes/models.py:71-74 | a value strips to the empty string exactly when it is all whitespace |
| Text.StripKeepsText | backend/recipes/models.py:71-81 | stripping keeps every non-whitespace character |
| Text.StripIdempotent | backend/recipes/models.py:71-81 | stripping an already stripped value changes nothing |
| Text.StripToUpper | backend/api/filters.py:12-15 | stripping and upper-casing commute |

## Left out

- HTTP routing, status codes, pagination (`LimitPageNumberPagination`), permissions (the
  author-only rule and the authenticated-only actions) and djoser's own user endpoints:
  callers are assumed to be allowed, and the acting user is a parameter.
- Image handling: base64 decoding and file storage. `image` is an opaque string, and the
  write serializer's `allow_null=True` (a JSON null image) is not modelled.
- `pub_date`: the clock is not modelled. The recipe table is kept newest first, and a
  created recipe is prepended.
- Passwords, authentication, email sending, email format checks and every `max_length`
  limit.
- Concurrency: every operation is one atomic step on one database value.
- The draft tree under `backend/foodgram/` is not part of this model, apart from its
  username validators.
- The admin site and the ingredient name search.
- Validators.MatchUsernamePattern: `\w` is ASCII only here; Python's Unicode word characters are not
  modelled.
- Validators.IsProhibited: the case mapping behind the prohibited-name check is ASCII only. Python's
  `str.lower()` maps more characters, for example the Kelvin sign to `k` and `Ä` to `ä`. This carries
  over to Validators.ProhibitedIffEqualIgnoringCase, Validators.AnyCasingIsProhibited,
  Validators.UsernameErrors and Accounts.UsernameErrors.
- Accounts.CreateUser: registration goes through djoser's create serializer and Django's
  `UserManager.create_user`, which are not part of this model. The manager's normalisation is not
  modelled: it lower-cases the email's domain and NFKC-normalises the username after the unique
  checks have run. The model stores the stripped values as given. A second registration whose email
  differs only in the domain's case is reported as `EmailTaken`, whereas the source fails it at the
  database constraint.
- Subscriptions.Limit: a non-numeric or negative `recipes_limit` is not modelled; the
  source raises an error for both. An absent or empty value is `None`.
- Subscriptions.FollowedAuthors: the user table has no declared ordering; the model lists authors in
  table order.
- Shopping.ShoppingList: entries with equal names and different units are ordered by the stable
  sort; the database leaves their order open. Names are compared by code point, whereas
  `order_by('ingredient__name')` uses the database collation.
- Projection.ProjectRecipe: the order of the ingredient entries is the insertion order of the
  lines; the ingredient-line table declares no ordering, so the database leaves it open.
- Projection.RecipeTags: tags are sorted by code point, whereas `Tag.Meta.ordering` sorts by
  the database collation.
- RecipeFilters.TagsFilter: which unknown slug is named in the error is not modelled.
- RecipeFilters.ListRecipes: the exact-match filters generated for the recipe's other fields,
  invalid boolean strings, and the form's refusal of a NUL in the `author` query are not
  modelled.
- Subscriptions.SubscriptionList: anonymous access to the list is not modelled.
