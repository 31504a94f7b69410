/** The read side: how a recipe, its author and its ingredient lines are shown
    to a viewer, including the per-viewer flags `is_favorited`,
    `is_in_shopping_cart` and `is_subscribed`. */
module Projection {
  import opened Wrappers
  import opened Seqs
  import opened Text
  import opened Sorting
  import opened Models

  /** The user a request is made by; anonymous requests carry no user. */
  datatype Viewer = Anonymous | Authenticated(user: UserId)

  /** Whether the viewer has `recipe` in the favorite or cart table; false for
      an anonymous viewer. */
  function CheckRecipe(s: Store, viewer: Viewer, kind: Kind, recipe: RecipeId): (r: bool)
    ensures viewer.Anonymous? ==> !r
    ensures viewer.Authenticated? ==> (r <==> (viewer.user, recipe) in Rows(s, kind))
  {
    match viewer
    case Anonymous => false
    case Authenticated(u) => (u, recipe) in Rows(s, kind)
  }

  /** Whether the viewer subscribes to `author`; false for an anonymous
      viewer. */
  function IsSubscribed(s: Store, viewer: Viewer, author: UserId): (r: bool)
    ensures viewer.Anonymous? ==> !r
    ensures viewer.Authenticated? ==> (r <==> (viewer.user, author) in s.subscriptions)
  {
    match viewer
    case Anonymous => false
    case Authenticated(u) => (u, author) in s.subscriptions
  }

  datatype AuthorView = AuthorView(
    email: string, id: UserId, username: string, firstName: string, lastName: string, isSubscribed: bool)

  datatype AmountView = AmountView(id: IngredientId, name: string, measurementUnit: string, amount: int)

  /** The short form of a recipe returned by the favorite, cart and
      subscription endpoints. */
  datatype ShortRecipe = ShortRecipe(id: RecipeId, name: string, image: string, cookingTime: int)

  datatype RecipeView = RecipeView(
    id: RecipeId,
    tags: seq<Tag>,
    author: AuthorView,
    ingredients: seq<AmountView>,
    isFavorited: bool,
    isInShoppingCart: bool,
    name: string,
    image: string,
    text: string,
    cookingTime: int)

  /** The user view shared by the recipe author field and the user
      endpoints: the user's public fields and whether the viewer follows
      them. */
  function ProjectAuthor(s: Store, viewer: Viewer, u: User): (v: AuthorView)
    ensures v.id == u.id && v.email == u.email && v.username == u.username
    ensures v.firstName == u.firstName && v.lastName == u.lastName
    ensures v.isSubscribed <==> viewer.Authenticated? && (viewer.user, u.id) in s.subscriptions
  {
    AuthorView(u.email, u.id, u.username, u.firstName, u.lastName, IsSubscribed(s, viewer, u.id))
  }

  function ProjectShort(r: Recipe): ShortRecipe {
    ShortRecipe(r.id, r.name, r.image, r.cookingTime)
  }

  /** `v` shows line `a`: its ingredient id and amount, and the name and
      unit of the catalog row with that id. */
  ghost predicate ShowsLine(s: Store, v: AmountView, a: IngredientAmount) {
    && v.id == a.ingredient
    && v.amount == a.amount
    && exists g :: g in s.ingredients && g.id == a.ingredient &&
         v.name == g.name && v.measurementUnit == g.measurementUnit
  }

  /** Ingredient lines joined with the catalog row of their ingredient. */
  function AmountViews(s: Store, lines: seq<IngredientAmount>): (r: seq<AmountView>)
    ensures (forall a :: a in lines ==> a.ingredient in IngredientIds(s)) ==>
              |r| == |lines| && forall i :: 0 <= i < |lines| ==> ShowsLine(s, r[i], lines[i])
  {
    if |lines| == 0 then []
    else
      var rest := AmountViews(s, lines[1..]);
      match FindIngredient(s.ingredients, lines[0].ingredient)
      case None => rest
      case Some(ing) => [AmountView(ing.id, ing.name, ing.measurementUnit, lines[0].amount)] + rest
  }

  function TaggedOn(s: Store, recipe: RecipeId): Tag -> bool {
    (t: Tag) => (recipe, t.id) in s.recipeTags
  }

  /** The tags of a recipe in the tag table's ordering, by name. */
  function RecipeTags(s: Store, recipe: RecipeId): (r: seq<Tag>)
    ensures forall t :: t in r <==> t in s.tags && t.id in RecipeTagIds(s, recipe)
    ensures SortedBy(r, TagNameKey)
  {
    var chosen := Filter(s.tags, TaggedOn(s, recipe));
    SortByCorrect(chosen, TagNameKey);
    assert forall t :: t in SortBy(chosen, TagNameKey) <==> t in multiset(chosen);
    SortBy(chosen, TagNameKey)
  }

  /** The full view of a stored recipe for one viewer. */
  function ProjectRecipe(s: Store, viewer: Viewer, recipe: Recipe): (v: RecipeView)
    requires Valid(s) && recipe in s.recipes
    ensures v.id == recipe.id && v.name == recipe.name && v.image == recipe.image
    ensures v.text == recipe.text && v.cookingTime == recipe.cookingTime
    ensures v.author.id == recipe.author
    ensures exists u :: u in s.users && u.id == recipe.author && v.author == ProjectAuthor(s, viewer, u)
    ensures forall t :: t in v.tags <==> t in s.tags && t.id in RecipeTagIds(s, recipe.id)
    ensures SortedBy(v.tags, TagNameKey)
    ensures |v.ingredients| == |AmountsOf(s, recipe.id)|
    ensures forall i :: 0 <= i < |v.ingredients| ==> ShowsLine(s, v.ingredients[i], AmountsOf(s, recipe.id)[i])
    ensures v.isFavorited == CheckRecipe(s, viewer, Favorite, recipe.id)
    ensures v.isInShoppingCart == CheckRecipe(s, viewer, ShoppingCart, recipe.id)
    ensures v.author.isSubscribed == IsSubscribed(s, viewer, recipe.author)
  {
    var author := FindUser(s.users, recipe.author).value;
    RecipeView(
      recipe.id,
      RecipeTags(s, recipe.id),
      ProjectAuthor(s, viewer, author),
      AmountViews(s, AmountsOf(s, recipe.id)),
      CheckRecipe(s, viewer, Favorite, recipe.id),
      CheckRecipe(s, viewer, ShoppingCart, recipe.id),
      recipe.name,
      recipe.image,
      recipe.text,
      recipe.cookingTime)
  }

  /** An anonymous viewer sees every recipe as neither favorited nor in the
      cart, and its author as not subscribed to. */
  lemma AnonymousSeesNoFlags(s: Store, recipe: Recipe)
    requires Valid(s) && recipe in s.recipes
    ensures !ProjectRecipe(s, Anonymous, recipe).isFavorited
    ensures !ProjectRecipe(s, Anonymous, recipe).isInShoppingCart
    ensures !ProjectRecipe(s, Anonymous, recipe).author.isSubscribed
  {
  }
}
