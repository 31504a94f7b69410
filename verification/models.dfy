/** The relational store behind the recipe backend: users, the tag and
    ingredient catalog, recipes with their ingredient lines and tags, and the
    favorite, shopping-cart and subscription join tables, together with the
    constraints the database schema enforces on them. */
module Models {
  import opened Wrappers
  import opened Seqs

  type UserId = nat
  type TagId = nat
  type IngredientId = nat
  type RecipeId = nat

  /** The largest value a `PositiveSmallIntegerField` column holds. */
  const SmallIntMax: int := 32767

  /** The values `MinValueValidator(1)` on a positive small-integer column
      admits: cooking times and ingredient amounts. */
  predicate InSmallPositiveRange(n: int) {
    1 <= n <= SmallIntMax
  }

  datatype User = User(id: UserId, username: string, email: string, firstName: string, lastName: string)

  datatype Tag = Tag(id: TagId, name: string, color: string, slug: string)

  datatype Ingredient = Ingredient(id: IngredientId, name: string, measurementUnit: string)

  /** `image` is the stored file reference; the image bytes are not modelled. */
  datatype Recipe = Recipe(id: RecipeId, author: UserId, name: string, image: string, text: string, cookingTime: int)

  /** One ingredient line of a recipe. */
  datatype IngredientAmount = IngredientAmount(recipe: RecipeId, ingredient: IngredientId, amount: int)

  /** The two user-to-recipe join tables that share one abstract base model. */
  datatype Kind = Favorite | ShoppingCart

  /** The whole database. Tables whose row order is observable are sequences;
      `recipes` is kept in the default ordering, newest first. Join tables are
      sets of pairs; `subscriptions` holds `(subscriber, author)`. */
  datatype Store = Store(
    users: seq<User>,
    tags: seq<Tag>,
    ingredients: seq<Ingredient>,
    recipes: seq<Recipe>,
    amounts: seq<IngredientAmount>,
    recipeTags: set<(RecipeId, TagId)>,
    favorites: set<(UserId, RecipeId)>,
    carts: set<(UserId, RecipeId)>,
    subscriptions: set<(UserId, UserId)>)

  // Column keys of the unique constraints.

  function UserKey(u: User): UserId { u.id }
  function UsernameKey(u: User): string { u.username }
  function EmailKey(u: User): string { u.email }
  function TagKey(t: Tag): TagId { t.id }
  function TagNameKey(t: Tag): string { t.name }
  function TagSlugKey(t: Tag): string { t.slug }
  function IngredientKey(i: Ingredient): IngredientId { i.id }
  function IngredientNameUnitKey(i: Ingredient): (string, string) { (i.name, i.measurementUnit) }
  function RecipeKey(r: Recipe): RecipeId { r.id }
  function AmountKey(a: IngredientAmount): (RecipeId, IngredientId) { (a.recipe, a.ingredient) }

  function UserIds(s: Store): set<UserId> { KeySet(s.users, UserKey) }
  function TagIds(s: Store): set<TagId> { KeySet(s.tags, TagKey) }
  function IngredientIds(s: Store): set<IngredientId> { KeySet(s.ingredients, IngredientKey) }
  function RecipeIds(s: Store): set<RecipeId> { KeySet(s.recipes, RecipeKey) }

  /** The rows of one join table of the favorite/cart family. */
  function Rows(s: Store, kind: Kind): set<(UserId, RecipeId)> {
    match kind
    case Favorite => s.favorites
    case ShoppingCart => s.carts
  }

  function WithRows(s: Store, kind: Kind, rows: set<(UserId, RecipeId)>): Store {
    match kind
    case Favorite => s.(favorites := rows)
    case ShoppingCart => s.(carts := rows)
  }

  // Schema constraints.

  /** Usernames and emails are unique, and so are primary keys. */
  predicate UsersValid(s: Store) {
    && DistinctBy(s.users, UserKey)
    && DistinctBy(s.users, UsernameKey)
    && DistinctBy(s.users, EmailKey)
  }

  /** Tag names and slugs are unique; ingredients are unique per
      `(name, measurement_unit)`. */
  predicate CatalogValid(s: Store) {
    && DistinctBy(s.tags, TagKey)
    && DistinctBy(s.tags, TagNameKey)
    && DistinctBy(s.tags, TagSlugKey)
    && DistinctBy(s.ingredients, IngredientKey)
    && DistinctBy(s.ingredients, IngredientNameUnitKey)
  }

  /** Every recipe has an existing author and a cooking time of at least one
      minute. */
  predicate RecipesValid(s: Store) {
    && DistinctBy(s.recipes, RecipeKey)
    && forall r :: r in s.recipes ==> r.author in UserIds(s) && InSmallPositiveRange(r.cookingTime)
  }

  /** Every ingredient line references an existing recipe and ingredient, has
      an amount of at least one, and a recipe has at most one line per
      ingredient. */
  predicate AmountsValid(s: Store) {
    && DistinctBy(s.amounts, AmountKey)
    && forall a :: a in s.amounts ==>
         a.recipe in RecipeIds(s) && a.ingredient in IngredientIds(s) && InSmallPositiveRange(a.amount)
  }

  /** Every join row references existing rows on both sides. */
  predicate LinksValid(s: Store) {
    && (forall p :: p in s.recipeTags ==> p.0 in RecipeIds(s) && p.1 in TagIds(s))
    && (forall p :: p in s.favorites ==> p.0 in UserIds(s) && p.1 in RecipeIds(s))
    && (forall p :: p in s.carts ==> p.0 in UserIds(s) && p.1 in RecipeIds(s))
    && (forall p :: p in s.subscriptions ==> p.0 in UserIds(s) && p.1 in UserIds(s))
  }

  /** The database invariant: every constraint of the schema holds. */
  predicate Valid(s: Store) {
    UsersValid(s) && CatalogValid(s) && RecipesValid(s) && AmountsValid(s) && LinksValid(s)
  }

  /** Replacing a favorite/cart table keeps the invariant when every new row
      references an existing user and recipe; the other tables are untouched. */
  lemma WithRowsValid(s: Store, kind: Kind, rows: set<(UserId, RecipeId)>)
    requires Valid(s)
    requires forall p :: p in rows ==> p.0 in UserIds(s) && p.1 in RecipeIds(s)
    ensures Valid(WithRows(s, kind, rows))
    ensures Rows(WithRows(s, kind, rows), kind) == rows
  {
    var s' := WithRows(s, kind, rows);
    assert s'.users == s.users && s'.recipes == s.recipes && s'.tags == s.tags;
    assert s'.ingredients == s.ingredients && s'.amounts == s.amounts;
    assert UserIds(s') == UserIds(s) && RecipeIds(s') == RecipeIds(s);
    assert TagIds(s') == TagIds(s) && IngredientIds(s') == IngredientIds(s);
  }

  // Lookups by primary key.

  function FindUser(users: seq<User>, id: UserId): (r: Option<User>)
    ensures r.Some? <==> id in KeySet(users, UserKey)
    ensures r.Some? ==> r.value in users && r.value.id == id
  {
    if |users| == 0 then None
    else if users[0].id == id then
      assert UserKey(users[0]) in KeySet(users, UserKey);
      Some(users[0])
    else FindUser(users[1..], id)
  }

  function FindRecipe(recipes: seq<Recipe>, id: RecipeId): (r: Option<Recipe>)
    ensures r.Some? <==> id in KeySet(recipes, RecipeKey)
    ensures r.Some? ==> r.value in recipes && r.value.id == id
  {
    if |recipes| == 0 then None
    else if recipes[0].id == id then
      assert RecipeKey(recipes[0]) in KeySet(recipes, RecipeKey);
      Some(recipes[0])
    else FindRecipe(recipes[1..], id)
  }

  function FindIngredient(ingredients: seq<Ingredient>, id: IngredientId): (r: Option<Ingredient>)
    ensures r.Some? <==> id in KeySet(ingredients, IngredientKey)
    ensures r.Some? ==> r.value in ingredients && r.value.id == id
  {
    if |ingredients| == 0 then None
    else if ingredients[0].id == id then
      assert IngredientKey(ingredients[0]) in KeySet(ingredients, IngredientKey);
      Some(ingredients[0])
    else FindIngredient(ingredients[1..], id)
  }

  // Row selections.

  /** The ingredient lines of recipe `id`, in table order. */
  function AmountsOf(s: Store, id: RecipeId): seq<IngredientAmount> {
    Filter(s.amounts, OfRecipe(id))
  }

  function OfRecipe(id: RecipeId): IngredientAmount -> bool {
    (a: IngredientAmount) => a.recipe == id
  }

  function NotOfRecipe(id: RecipeId): IngredientAmount -> bool {
    (a: IngredientAmount) => a.recipe != id
  }

  /** The ids of the tags attached to recipe `id`. */
  function RecipeTagIds(s: Store, id: RecipeId): set<TagId> {
    set p | p in s.recipeTags && p.0 == id :: p.1
  }

  /** The recipes written by `author`, in the default ordering. */
  function RecipesOf(s: Store, author: UserId): seq<Recipe> {
    Filter(s.recipes, ByAuthor(author))
  }

  function ByAuthor(author: UserId): Recipe -> bool {
    (r: Recipe) => r.author == author
  }

  /** The largest recipe id in use (zero for an empty table). */
  function MaxRecipeId(recipes: seq<Recipe>): (m: nat)
    ensures forall r :: r in recipes ==> r.id <= m
  {
    if |recipes| == 0 then 0
    else
      var rest := MaxRecipeId(recipes[1..]);
      if recipes[0].id > rest then recipes[0].id else rest
  }

  /** The primary key the database assigns to the next recipe. */
  function FreshRecipeId(s: Store): (id: RecipeId)
    ensures id !in RecipeIds(s)
  {
    MaxRecipeId(s.recipes) + 1
  }

  function MaxUserId(users: seq<User>): (m: nat)
    ensures forall u :: u in users ==> u.id <= m
  {
    if |users| == 0 then 0
    else
      var rest := MaxUserId(users[1..]);
      if users[0].id > rest then users[0].id else rest
  }

  /** The primary key the database assigns to the next user. */
  function FreshUserId(s: Store): (id: UserId)
    ensures id !in UserIds(s)
  {
    MaxUserId(s.users) + 1
  }
}
