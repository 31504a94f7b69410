/** What a client reads back after writing a recipe: the recipe view of a
    created or updated recipe shows exactly the submitted tags and
    ingredient lines. */
module ReadBack {
  import opened Wrappers
  import opened Seqs
  import opened Models
  import opened Projection
  import opened Composer

  /** The view's tags are the stored tags whose ids were submitted, and its
      ingredient lines are the submitted items in order. */
  ghost predicate ShowsPayload(s: Store, v: RecipeView, p: RecipePayload)
    requires WellComposed(p)
  {
    && (forall t :: t in v.tags ==> t in s.tags && t.id in p.tags.value)
    && (forall t :: t in s.tags && t.id in p.tags.value ==> t in v.tags)
    && |v.ingredients| == |p.ingredients.value|
    && forall i :: 0 <= i < |v.ingredients| ==>
         v.ingredients[i].id == p.ingredients.value[i].ingredient &&
         v.ingredients[i].amount == p.ingredients.value[i].amount
  }

  /** Reading a recipe whose tag set and lines are the payload's. */
  lemma ViewOfPayload(s: Store, viewer: Viewer, recipe: Recipe, p: RecipePayload)
    requires Valid(s) && recipe in s.recipes && WellComposed(p)
    requires RecipeTagIds(s, recipe.id) == Elements(p.tags.value)
    requires AmountsOf(s, recipe.id) == NewAmounts(recipe.id, p.ingredients.value)
    ensures ShowsPayload(s, ProjectRecipe(s, viewer, recipe), p)
  {
    var v := ProjectRecipe(s, viewer, recipe);
    var lines := AmountsOf(s, recipe.id);
    forall i | 0 <= i < |v.ingredients|
      ensures v.ingredients[i].id == p.ingredients.value[i].ingredient
      ensures v.ingredients[i].amount == p.ingredients.value[i].amount
    {
      assert lines[i] == IngredientAmount(recipe.id, p.ingredients.value[i].ingredient, p.ingredients.value[i].amount);
    }
  }

  /** A created recipe reads back as authored by the caller, with the
      payload's fields, tags and lines. */
  lemma CreateThenRead(s: Store, author: UserId, p: RecipePayload, viewer: Viewer)
    requires Valid(s) && author in UserIds(s)
    requires FieldErrorsOf(s, p, false) == {} && WellComposed(p)
    ensures var (s', id) := CreateRecipe(s, author, p).value;
            && |s'.recipes| > 0
            && var v := ProjectRecipe(s', viewer, s'.recipes[0]);
            && v.id == id
            && v.author.id == author
            && Some(v.name) == Cleaned(p.name) && Some(v.text) == Cleaned(p.text) && Some(v.image) == p.image
            && Some(v.cookingTime) == p.cookingTime
            && ShowsPayload(s', v, p)
  {
    var (s', id) := CreateRecipe(s, author, p).value;
    assert s'.recipes[0] in s'.recipes;
    ViewOfPayload(s', viewer, s'.recipes[0], p);
  }

  /** No viewer sees a newly created recipe as a favorite or in a cart. */
  lemma CreatedRecipeUnflagged(s: Store, author: UserId, p: RecipePayload, viewer: Viewer)
    requires Valid(s) && author in UserIds(s)
    requires FieldErrorsOf(s, p, false) == {} && WellComposed(p)
    ensures var (s', id) := CreateRecipe(s, author, p).value;
            && |s'.recipes| > 0
            && !ProjectRecipe(s', viewer, s'.recipes[0]).isFavorited
            && !ProjectRecipe(s', viewer, s'.recipes[0]).isInShoppingCart
  {
    var r := CreateRecipe(s, author, p);
    assert r.Success?;
    var (s', id) := r.value;
    assert CreatedAsPayload(s, s', id, author, p);
    assert forall q :: q in s'.favorites ==> q.1 in RecipeIds(s) && q.1 != id;
    assert forall q :: q in s'.carts ==> q.1 in RecipeIds(s) && q.1 != id;
    UnlinkedUnflagged(s', viewer, s'.recipes[0]);
  }

  /** A recipe nobody has favorited or put in a cart shows neither flag. */
  lemma UnlinkedUnflagged(s: Store, viewer: Viewer, recipe: Recipe)
    requires Valid(s) && recipe in s.recipes
    requires forall q :: q in s.favorites ==> q.1 != recipe.id
    requires forall q :: q in s.carts ==> q.1 != recipe.id
    ensures !ProjectRecipe(s, viewer, recipe).isFavorited
    ensures !ProjectRecipe(s, viewer, recipe).isInShoppingCart
  {
  }

  /** An updated recipe reads back with exactly the payload's tags and
      lines: nothing from before the update survives. */
  lemma UpdateThenRead(s: Store, id: RecipeId, p: RecipePayload, viewer: Viewer, recipe: Recipe)
    requires Valid(s)
    requires id in RecipeIds(s) && FieldErrorsOf(s, p, true) == {} && WellComposed(p)
    requires recipe in UpdateRecipe(s, id, p).value.recipes && recipe.id == id
    ensures ShowsPayload(UpdateRecipe(s, id, p).value, ProjectRecipe(UpdateRecipe(s, id, p).value, viewer, recipe), p)
  {
    ViewOfPayload(UpdateRecipe(s, id, p).value, viewer, recipe, p);
  }
}
