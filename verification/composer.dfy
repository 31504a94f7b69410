/** The recipe composer: validation of a recipe write payload and the create
    and update operations that store a recipe with its tags and ingredient
    lines. */
module Composer {
  import opened Wrappers
  import opened Seqs
  import opened Text
  import opened Models

  /** The payload keys errors are reported under. */
  datatype Field = TagsField | IngredientsField | NameField | ImageField | TextField | CookingTimeField

  datatype Reason = Required | Repeated

  /** The error responses of the recipe write endpoints. Field-level errors
      are collected for all fields at once; the cross-field checks stop at the
      first failure. */
  datatype WriteError =
    | RecipeNotFound
    | FieldErrors(fields: set<Field>)
    | Rejected(key: Field, reason: Reason)

  /** One `{id, amount}` item of the `ingredients` list. */
  datatype AmountPayload = AmountPayload(ingredient: IngredientId, amount: int)

  /** The request body; `None` is a key absent from the body. `image` stands
      for the already decoded file reference. */
  datatype RecipePayload = RecipePayload(
    tags: Option<seq<TagId>>,
    ingredients: Option<seq<AmountPayload>>,
    name: Option<string>,
    image: Option<string>,
    text: Option<string>,
    cookingTime: Option<int>)

  function IngredientIdsOf(items: seq<AmountPayload>): seq<IngredientId> {
    seq(|items|, i requires 0 <= i < |items| => items[i].ingredient)
  }

  // Field-level validation. A `partial` (PATCH) payload may omit any key.

  predicate TagsOk(s: Store, p: RecipePayload, partial: bool) {
    match p.tags
    case None => partial
    case Some(ts) => forall t :: t in ts ==> t in TagIds(s)
  }

  predicate IngredientsOk(s: Store, p: RecipePayload, partial: bool) {
    match p.ingredients
    case None => partial
    case Some(items) =>
      forall a :: a in items ==> a.ingredient in IngredientIds(s) && InSmallPositiveRange(a.amount)
  }

  /** A character field strips its value, refuses it when nothing is left,
      and refuses a NUL character. */
  predicate TextFieldOk(v: Option<string>, partial: bool) {
    match v
    case None => partial
    case Some(t) => Strip(t) != [] && '\0' !in Strip(t)
  }

  /** The value a character field stores: the stripped input. */
  function Cleaned(v: Option<string>): Option<string> {
    match v
    case None => None
    case Some(t) => Some(Strip(t))
  }

  predicate CookingTimeOk(p: RecipePayload, partial: bool) {
    match p.cookingTime
    case None => partial
    case Some(c) => InSmallPositiveRange(c)
  }

  /** The fields that fail field-level validation. */
  function FieldErrorsOf(s: Store, p: RecipePayload, partial: bool): set<Field> {
    (if TagsOk(s, p, partial) then {} else {TagsField})
    + (if IngredientsOk(s, p, partial) then {} else {IngredientsField})
    + (if TextFieldOk(p.name, partial) then {} else {NameField})
    + (if p.image.Some? || partial then {} else {ImageField})
    + (if TextFieldOk(p.text, partial) then {} else {TextField})
    + (if CookingTimeOk(p, partial) then {} else {CookingTimeField})
  }

  // Cross-field validation.

  predicate HasIngredients(p: RecipePayload) {
    p.ingredients.Some? && |p.ingredients.value| > 0
  }

  predicate HasTags(p: RecipePayload) {
    p.tags.Some? && |p.tags.value| > 0
  }

  /** The payload names at least one ingredient and one tag and repeats
      neither. */
  predicate WellComposed(p: RecipePayload) {
    && HasIngredients(p)
    && NoRepeats(IngredientIdsOf(p.ingredients.value))
    && HasTags(p)
    && NoRepeats(p.tags.value)
  }

  /** The cross-field checks, in the order they are made: ingredients
      present, ingredients distinct, tags present, tags distinct. A repeated
      tag is reported under the `ingredients` key. */
  function ValidateComposition(p: RecipePayload): (r: Outcome<WriteError>)
    ensures !HasIngredients(p) ==> r == Fail(Rejected(IngredientsField, Required))
    ensures HasIngredients(p) && !NoRepeats(IngredientIdsOf(p.ingredients.value)) ==>
              r == Fail(Rejected(IngredientsField, Repeated))
    ensures HasIngredients(p) && NoRepeats(IngredientIdsOf(p.ingredients.value)) && !HasTags(p) ==>
              r == Fail(Rejected(TagsField, Required))
    ensures HasIngredients(p) && NoRepeats(IngredientIdsOf(p.ingredients.value)) && HasTags(p) && !NoRepeats(p.tags.value) ==>
              r == Fail(Rejected(IngredientsField, Repeated))
    ensures r.Pass? <==> WellComposed(p)
  {
    if !HasIngredients(p) then Fail(Rejected(IngredientsField, Required))
    else
      var ids := IngredientIdsOf(p.ingredients.value);
      CardinalityDetectsRepeats(ids);
      if |ids| != |Elements(ids)| then Fail(Rejected(IngredientsField, Repeated))
      else if !HasTags(p) then Fail(Rejected(TagsField, Required))
      else
        var tags := p.tags.value;
        CardinalityDetectsRepeats(tags);
        if |tags| != |Elements(tags)| then Fail(Rejected(IngredientsField, Repeated))
        else Pass
  }

  // Storing a validated recipe.

  /** The ingredient lines `create_ingredient` inserts, in payload order. */
  function NewAmounts(id: RecipeId, items: seq<AmountPayload>): seq<IngredientAmount> {
    seq(|items|, i requires 0 <= i < |items| => IngredientAmount(id, items[i].ingredient, items[i].amount))
  }

  function TagRows(id: RecipeId, tags: seq<TagId>): set<(RecipeId, TagId)> {
    set t | t in tags :: (id, t)
  }

  lemma NewAmountsDistinct(id: RecipeId, items: seq<AmountPayload>)
    requires NoRepeats(IngredientIdsOf(items))
    ensures DistinctBy(NewAmounts(id, items), AmountKey)
  {
    var ids := IngredientIdsOf(items);
    forall i, j | 0 <= i < j < |items|
      ensures AmountKey(NewAmounts(id, items)[i]) != AmountKey(NewAmounts(id, items)[j])
    {
      assert ids[i] != ids[j];
    }
  }

  lemma TagRowsOf(s: Store, id: RecipeId, tags: seq<TagId>, kept: set<(RecipeId, TagId)>)
    requires forall q :: q in kept ==> q.0 != id
    ensures RecipeTagIds(s.(recipeTags := kept + TagRows(id, tags)), id) == Elements(tags)
    ensures forall other :: other != id ==>
              RecipeTagIds(s.(recipeTags := kept + TagRows(id, tags)), other) == RecipeTagIds(s.(recipeTags := kept), other)
  {
    var s' := s.(recipeTags := kept + TagRows(id, tags));
    forall t | t in Elements(tags)
      ensures t in RecipeTagIds(s', id)
    {
      assert (id, t) in s'.recipeTags;
    }
  }

  /** `create`: the requesting user becomes the author. */
  function NewRecipe(id: RecipeId, author: UserId, p: RecipePayload): Recipe
    requires p.name.Some? && p.image.Some? && p.text.Some? && p.cookingTime.Some?
  {
    Recipe(id, author, Strip(p.name.value), p.image.value, Strip(p.text.value), p.cookingTime.value)
  }

  /** `super().update`: the keys present in the payload overwrite the stored
      fields; the author never changes. */
  function Patch(r: Recipe, p: RecipePayload): Recipe {
    Recipe(
      r.id,
      r.author,
      if p.name.Some? then Strip(p.name.value) else r.name,
      if p.image.Some? then p.image.value else r.image,
      if p.text.Some? then Strip(p.text.value) else r.text,
      if p.cookingTime.Some? then p.cookingTime.value else r.cookingTime)
  }

  function PatchRecipes(recipes: seq<Recipe>, id: RecipeId, p: RecipePayload): (r: seq<Recipe>)
    ensures |r| == |recipes|
    ensures forall i :: 0 <= i < |r| ==> r[i] == (if recipes[i].id == id then Patch(recipes[i], p) else recipes[i])
  {
    seq(|recipes|, i requires 0 <= i < |recipes| => if recipes[i].id == id then Patch(recipes[i], p) else recipes[i])
  }

  /** What a successful create leaves in the store: a new first recipe row
      authored by `author`, whose tag set and ingredient lines are exactly the
      payload's, and nothing else changed. */
  ghost predicate CreatedAsPayload(s: Store, s': Store, id: RecipeId, author: UserId, p: RecipePayload)
    requires WellComposed(p)
  {
    && id !in RecipeIds(s)
    && |s'.recipes| == |s.recipes| + 1
    && s'.recipes[1..] == s.recipes
    && s'.recipes[0].id == id
    && s'.recipes[0].author == author
    && Some(s'.recipes[0].name) == Cleaned(p.name) && Some(s'.recipes[0].image) == p.image
    && Some(s'.recipes[0].text) == Cleaned(p.text) && Some(s'.recipes[0].cookingTime) == p.cookingTime
    && RecipeTagIds(s', id) == Elements(p.tags.value)
    && AmountsOf(s', id) == NewAmounts(id, p.ingredients.value)
    && (forall other :: other != id ==> RecipeTagIds(s', other) == RecipeTagIds(s, other))
    && (forall other :: other != id ==> AmountsOf(s', other) == AmountsOf(s, other))
    && s'.users == s.users && s'.tags == s.tags && s'.ingredients == s.ingredients
    && s'.favorites == s.favorites && s'.carts == s.carts && s'.subscriptions == s.subscriptions
  }

  /** What a successful update leaves in the store: the recipe's tag set and
      ingredient lines become exactly the payload's (no earlier line
      survives), its present fields are overwritten, and every other recipe
      and table is unchanged. */
  ghost predicate UpdatedToPayload(s: Store, s': Store, id: RecipeId, p: RecipePayload)
    requires WellComposed(p)
  {
    && |s'.recipes| == |s.recipes|
    && (forall i :: 0 <= i < |s.recipes| && s.recipes[i].id != id ==> s'.recipes[i] == s.recipes[i])
    && (forall i :: 0 <= i < |s.recipes| && s.recipes[i].id == id ==>
          && s'.recipes[i].id == id
          && s'.recipes[i].author == s.recipes[i].author
          && (p.name.Some? ==> s'.recipes[i].name == Strip(p.name.value))
          && (p.name.None? ==> s'.recipes[i].name == s.recipes[i].name)
          && (p.image.Some? ==> s'.recipes[i].image == p.image.value)
          && (p.image.None? ==> s'.recipes[i].image == s.recipes[i].image)
          && (p.text.Some? ==> s'.recipes[i].text == Strip(p.text.value))
          && (p.text.None? ==> s'.recipes[i].text == s.recipes[i].text)
          && (p.cookingTime.Some? ==> s'.recipes[i].cookingTime == p.cookingTime.value)
          && (p.cookingTime.None? ==> s'.recipes[i].cookingTime == s.recipes[i].cookingTime))
    && RecipeTagIds(s', id) == Elements(p.tags.value)
    && AmountsOf(s', id) == NewAmounts(id, p.ingredients.value)
    && (forall other :: other != id ==> RecipeTagIds(s', other) == RecipeTagIds(s, other))
    && (forall other :: other != id ==> AmountsOf(s', other) == AmountsOf(s, other))
    && s'.users == s.users && s'.tags == s.tags && s'.ingredients == s.ingredients
    && s'.favorites == s.favorites && s'.carts == s.carts && s'.subscriptions == s.subscriptions
  }

  /** `WriteRecipeSerializer.create` behind POST: field-level validation,
      then the cross-field checks, then the recipe row, its tags and its
      ingredient lines. */
  function CreateRecipe(s: Store, author: UserId, p: RecipePayload): (r: Result<(Store, RecipeId), WriteError>)
    requires Valid(s) && author in UserIds(s)
    ensures FieldErrorsOf(s, p, false) != {} ==> r == Failure(FieldErrors(FieldErrorsOf(s, p, false)))
    ensures FieldErrorsOf(s, p, false) == {} && ValidateComposition(p).Fail? ==>
              r == Failure(ValidateComposition(p).error)
    ensures r.Success? <==> FieldErrorsOf(s, p, false) == {} && WellComposed(p)
    ensures r.Success? ==> Valid(r.value.0) && CreatedAsPayload(s, r.value.0, r.value.1, author, p)
  {
    var errors := FieldErrorsOf(s, p, false);
    if errors != {} then Failure(FieldErrors(errors))
    else match ValidateComposition(p)
      case Fail(e) => Failure(e)
      case Pass =>
        var id := FreshRecipeId(s);
        var s' := s.(
          recipes := [NewRecipe(id, author, p)] + s.recipes,
          recipeTags := s.recipeTags + TagRows(id, p.tags.value),
          amounts := s.amounts + NewAmounts(id, p.ingredients.value));
        CreateEffect(s, author, p, id, s');
        Success((s', id))
  }

  lemma CreateEffect(s: Store, author: UserId, p: RecipePayload, id: RecipeId, s': Store)
    requires Valid(s) && author in UserIds(s)
    requires FieldErrorsOf(s, p, false) == {} && WellComposed(p)
    requires id == FreshRecipeId(s)
    requires s' == s.(
          recipes := [NewRecipe(id, author, p)] + s.recipes,
          recipeTags := s.recipeTags + TagRows(id, p.tags.value),
          amounts := s.amounts + NewAmounts(id, p.ingredients.value))
    ensures Valid(s') && CreatedAsPayload(s, s', id, author, p)
  {
    var items := p.ingredients.value;
    var added := NewAmounts(id, items);
    PrependedKeys(s.recipes, NewRecipe(id, author, p));
    AddedLines(s, id, items);
    LinesReplaced(s.amounts, id, added);
    NewAmountsDistinct(id, items);
    DistinctAppend(s.amounts, added, AmountKey);
    forall q | q in s.recipeTags
      ensures q.0 != id
    {
    }
    TagRowsOf(s, id, p.tags.value, s.recipeTags);
    assert s.(recipeTags := s.recipeTags) == s;
    ValidFromParts(s, s');
  }

  /** Prepending a row with an unused id adds that id and keeps ids unique. */
  lemma PrependedKeys(recipes: seq<Recipe>, created: Recipe)
    requires DistinctBy(recipes, RecipeKey) && created.id !in KeySet(recipes, RecipeKey)
    ensures KeySet([created] + recipes, RecipeKey) == KeySet(recipes, RecipeKey) + {created.id}
    ensures DistinctBy([created] + recipes, RecipeKey)
  {
    assert KeySet([created], RecipeKey) == {created.id} by {
      assert created in [created];
    }
    DistinctAppend([created], recipes, RecipeKey);
    assert created in [created] + recipes;
    forall x | x in KeySet([created] + recipes, RecipeKey)
      ensures x in KeySet(recipes, RecipeKey) + {created.id}
    {
      var r :| r in [created] + recipes && RecipeKey(r) == x;
      if r != created {
        assert r in recipes;
      }
    }
  }


  /** The lines inserted for a payload reference the new recipe and carry
      the payload's validated ingredient ids and amounts. */
  lemma AddedLines(s: Store, id: RecipeId, items: seq<AmountPayload>)
    requires forall a :: a in items ==> a.ingredient in IngredientIds(s) && InSmallPositiveRange(a.amount)
    ensures forall a :: a in NewAmounts(id, items) ==>
              a.recipe == id && a.ingredient in IngredientIds(s) && InSmallPositiveRange(a.amount)
  {
    var added := NewAmounts(id, items);
    forall a | a in added
      ensures a.recipe == id && a.ingredient in IngredientIds(s) && InSmallPositiveRange(a.amount)
    {
      var i :| 0 <= i < |added| && added[i] == a;
      assert items[i] in items;
    }
  }

  /** Appending lines of recipe `id` to a table without such lines makes them
      the recipe's lines and leaves every other recipe's lines alone. */
  lemma LinesReplaced(prior: seq<IngredientAmount>, id: RecipeId, added: seq<IngredientAmount>)
    requires forall a :: a in prior ==> a.recipe != id
    requires forall a :: a in added ==> a.recipe == id
    ensures Filter(prior + added, OfRecipe(id)) == added
    ensures forall other :: other != id ==> Filter(prior + added, OfRecipe(other)) == Filter(prior, OfRecipe(other))
    ensures KeySet(prior, AmountKey) !! KeySet(added, AmountKey)
  {
    FilterAppend(prior, added, OfRecipe(id));
    FilterNone(prior, OfRecipe(id));
    FilterAll(added, OfRecipe(id));
    forall other | other != id
      ensures Filter(prior + added, OfRecipe(other)) == Filter(prior, OfRecipe(other))
    {
      FilterAppend(prior, added, OfRecipe(other));
      FilterNone(added, OfRecipe(other));
    }
  }

  /** The invariant holds after a write that only touched the recipe, tag
      link and ingredient line tables, as long as those keep their own
      constraints. */
  lemma ValidFromParts(s: Store, s': Store)
    requires Valid(s)
    requires s'.users == s.users && s'.tags == s.tags && s'.ingredients == s.ingredients
    requires s'.favorites == s.favorites && s'.carts == s.carts && s'.subscriptions == s.subscriptions
    requires RecipeIds(s) <= RecipeIds(s')
    requires DistinctBy(s'.recipes, RecipeKey)
    requires forall r :: r in s'.recipes ==> r.author in UserIds(s) && InSmallPositiveRange(r.cookingTime)
    requires DistinctBy(s'.amounts, AmountKey)
    requires forall a :: a in s'.amounts ==>
               a.recipe in RecipeIds(s') && a.ingredient in IngredientIds(s) && InSmallPositiveRange(a.amount)
    requires forall q :: q in s'.recipeTags ==> q.0 in RecipeIds(s') && q.1 in TagIds(s)
    ensures Valid(s')
  {
    assert UserIds(s') == UserIds(s) && TagIds(s') == TagIds(s) && IngredientIds(s') == IngredientIds(s);
  }

  /** Patching one recipe row keeps every primary key and every row's
      constraints. */
  lemma PatchRecipesValid(s: Store, id: RecipeId, p: RecipePayload)
    requires Valid(s) && CookingTimeOk(p, true)
    ensures KeySet(PatchRecipes(s.recipes, id, p), RecipeKey) == RecipeIds(s)
    ensures DistinctBy(PatchRecipes(s.recipes, id, p), RecipeKey)
    ensures forall r :: r in PatchRecipes(s.recipes, id, p) ==>
              r.author in UserIds(s) && InSmallPositiveRange(r.cookingTime)
  {
    var patched := PatchRecipes(s.recipes, id, p);
    PatchedRows(s.recipes, patched, id, p);
    forall x | x in RecipeIds(s)
      ensures x in KeySet(patched, RecipeKey)
    {
      var r :| r in s.recipes && RecipeKey(r) == x;
      var i :| 0 <= i < |s.recipes| && s.recipes[i] == r;
      assert RecipeKey(patched[i]) == x;
    }
    forall x | x in KeySet(patched, RecipeKey)
      ensures x in RecipeIds(s)
    {
      var r :| r in patched && RecipeKey(r) == x;
      var i :| 0 <= i < |patched| && patched[i] == r;
      assert RecipeKey(s.recipes[i]) == x;
    }
    forall i, j | 0 <= i < j < |patched|
      ensures RecipeKey(patched[i]) != RecipeKey(patched[j])
    {
      assert RecipeKey(s.recipes[i]) != RecipeKey(s.recipes[j]);
    }
    forall r | r in patched
      ensures r.author in UserIds(s) && InSmallPositiveRange(r.cookingTime)
    {
      var i :| 0 <= i < |patched| && patched[i] == r;
      assert s.recipes[i] in s.recipes;
    }
  }


  /** `WriteRecipeSerializer.update` behind PATCH: 404 for an unknown recipe,
      then partial field-level validation, then the cross-field checks, then
      clear-and-reinsert of the tags and ingredient lines. */
  function UpdateRecipe(s: Store, id: RecipeId, p: RecipePayload): (r: Result<Store, WriteError>)
    requires Valid(s)
    ensures id !in RecipeIds(s) ==> r == Failure(RecipeNotFound)
    ensures id in RecipeIds(s) && FieldErrorsOf(s, p, true) != {} ==> r == Failure(FieldErrors(FieldErrorsOf(s, p, true)))
    ensures id in RecipeIds(s) && FieldErrorsOf(s, p, true) == {} && ValidateComposition(p).Fail? ==>
              r == Failure(ValidateComposition(p).error)
    ensures r.Success? <==> id in RecipeIds(s) && FieldErrorsOf(s, p, true) == {} && WellComposed(p)
    ensures r.Success? ==> Valid(r.value) && UpdatedToPayload(s, r.value, id, p)
  {
    if id !in RecipeIds(s) then Failure(RecipeNotFound)
    else
      var errors := FieldErrorsOf(s, p, true);
      if errors != {} then Failure(FieldErrors(errors))
      else match ValidateComposition(p)
        case Fail(e) => Failure(e)
        case Pass =>
          var kept := set q | q in s.recipeTags && q.0 != id;
          var s' := s.(
            recipes := PatchRecipes(s.recipes, id, p),
            recipeTags := kept + TagRows(id, p.tags.value),
            amounts := Filter(s.amounts, NotOfRecipe(id)) + NewAmounts(id, p.ingredients.value));
          UpdateEffect(s, id, p, s');
          Success(s')
  }

  lemma UpdateEffect(s: Store, id: RecipeId, p: RecipePayload, s': Store)
    requires Valid(s) && id in RecipeIds(s)
    requires FieldErrorsOf(s, p, true) == {} && WellComposed(p)
    requires s' == s.(
            recipes := PatchRecipes(s.recipes, id, p),
            recipeTags := (set q | q in s.recipeTags && q.0 != id) + TagRows(id, p.tags.value),
            amounts := Filter(s.amounts, NotOfRecipe(id)) + NewAmounts(id, p.ingredients.value))
    ensures Valid(s') && UpdatedToPayload(s, s', id, p)
  {
    FieldsOk(s, p, true);
    UpdateLines(s, id, p.ingredients.value);
    UpdateTags(s, id, p.tags.value, s');
    UpdateValid(s, id, p, s');
    UpdateContent(s, id, p, s');
  }

  lemma UpdateValid(s: Store, id: RecipeId, p: RecipePayload, s': Store)
    requires Valid(s) && id in RecipeIds(s) && CookingTimeOk(p, true)
    requires s'.recipes == PatchRecipes(s.recipes, id, p)
    requires s'.users == s.users && s'.tags == s.tags && s'.ingredients == s.ingredients
    requires s'.favorites == s.favorites && s'.carts == s.carts && s'.subscriptions == s.subscriptions
    requires DistinctBy(s'.amounts, AmountKey)
    requires forall a :: a in s'.amounts ==>
               a.recipe in RecipeIds(s) && a.ingredient in IngredientIds(s) && InSmallPositiveRange(a.amount)
    requires forall q :: q in s'.recipeTags ==> q.0 in RecipeIds(s) && q.1 in TagIds(s)
    ensures Valid(s')
  {
    PatchRecipesValid(s, id, p);
    ValidFromParts(s, s');
  }

  lemma UpdateContent(s: Store, id: RecipeId, p: RecipePayload, s': Store)
    requires WellComposed(p)
    requires s'.recipes == PatchRecipes(s.recipes, id, p)
    requires s'.users == s.users && s'.tags == s.tags && s'.ingredients == s.ingredients
    requires s'.favorites == s.favorites && s'.carts == s.carts && s'.subscriptions == s.subscriptions
    requires RecipeTagIds(s', id) == Elements(p.tags.value)
    requires AmountsOf(s', id) == NewAmounts(id, p.ingredients.value)
    requires forall other :: other != id ==> RecipeTagIds(s', other) == RecipeTagIds(s, other)
    requires forall other :: other != id ==> AmountsOf(s', other) == AmountsOf(s, other)
    ensures UpdatedToPayload(s, s', id, p)
  {
    PatchedRows(s.recipes, s'.recipes, id, p);
  }

  /** The recipe rows after a patch: the matching row takes the payload's
      present fields, every other row is unchanged. */
  lemma PatchedRows(recipes: seq<Recipe>, patched: seq<Recipe>, id: RecipeId, p: RecipePayload)
    requires patched == PatchRecipes(recipes, id, p)
    ensures |patched| == |recipes|
    ensures forall i :: 0 <= i < |recipes| && recipes[i].id != id ==> patched[i] == recipes[i]
    ensures forall i :: 0 <= i < |recipes| && recipes[i].id == id ==>
              && patched[i].id == id
              && patched[i].author == recipes[i].author
              && (p.name.Some? ==> patched[i].name == Strip(p.name.value))
              && (p.name.None? ==> patched[i].name == recipes[i].name)
              && (p.image.Some? ==> patched[i].image == p.image.value)
              && (p.image.None? ==> patched[i].image == recipes[i].image)
              && (p.text.Some? ==> patched[i].text == Strip(p.text.value))
              && (p.text.None? ==> patched[i].text == recipes[i].text)
              && (p.cookingTime.Some? ==> patched[i].cookingTime == p.cookingTime.value)
              && (p.cookingTime.None? ==> patched[i].cookingTime == recipes[i].cookingTime)
  {
  }

  /** The `FieldErrorsOf` set is empty exactly when every field passes. */
  lemma FieldsOk(s: Store, p: RecipePayload, partial: bool)
    requires FieldErrorsOf(s, p, partial) == {}
    ensures TagsOk(s, p, partial) && IngredientsOk(s, p, partial) && CookingTimeOk(p, partial)
    ensures TextFieldOk(p.name, partial) && TextFieldOk(p.text, partial) && (p.image.Some? || partial)
  {
  }

  /** Clearing a recipe's lines and inserting the payload's: the table keeps
      its constraints, the recipe's lines are the payload's, other recipes'
      lines are unchanged. */
  lemma UpdateLines(s: Store, id: RecipeId, items: seq<AmountPayload>)
    requires Valid(s) && id in RecipeIds(s)
    requires NoRepeats(IngredientIdsOf(items))
    requires forall a :: a in items ==> a.ingredient in IngredientIds(s) && InSmallPositiveRange(a.amount)
    ensures var lines := Filter(s.amounts, NotOfRecipe(id)) + NewAmounts(id, items);
            && DistinctBy(lines, AmountKey)
            && (forall a :: a in lines ==>
                  a.recipe in RecipeIds(s) && a.ingredient in IngredientIds(s) && InSmallPositiveRange(a.amount))
            && Filter(lines, OfRecipe(id)) == NewAmounts(id, items)
            && forall other :: other != id ==> Filter(lines, OfRecipe(other)) == AmountsOf(s, other)
  {
    var added := NewAmounts(id, items);
    var kept := Filter(s.amounts, NotOfRecipe(id));
    AddedLines(s, id, items);
    LinesReplaced(kept, id, added);
    forall other | other != id
      ensures Filter(kept, OfRecipe(other)) == AmountsOf(s, other)
    {
      FilterFilter(s.amounts, NotOfRecipe(id), OfRecipe(other), OfRecipe(other));
    }
    FilterDistinct(s.amounts, NotOfRecipe(id), AmountKey);
    NewAmountsDistinct(id, items);
    DistinctAppend(kept, added, AmountKey);
  }

  /** Clearing a recipe's tags and setting the payload's. */
  lemma UpdateTags(s: Store, id: RecipeId, tags: seq<TagId>, s': Store)
    requires Valid(s) && id in RecipeIds(s)
    requires forall t :: t in tags ==> t in TagIds(s)
    requires s'.recipeTags == (set q | q in s.recipeTags && q.0 != id) + TagRows(id, tags)
    ensures RecipeTagIds(s', id) == Elements(tags)
    ensures forall other :: other != id ==> RecipeTagIds(s', other) == RecipeTagIds(s, other)
    ensures forall q :: q in s'.recipeTags ==> q.0 in RecipeIds(s) && q.1 in TagIds(s)
  {
    forall t | t in Elements(tags)
      ensures t in RecipeTagIds(s', id)
    {
      assert (id, t) in s'.recipeTags;
    }
    forall other | other != id
      ensures RecipeTagIds(s', other) == RecipeTagIds(s, other)
    {
      forall t | t in RecipeTagIds(s, other)
        ensures t in RecipeTagIds(s', other)
      {
        assert (other, t) in s'.recipeTags;
      }
    }
  }

  /** A payload that repeats an ingredient or a tag is refused by both create
      and update, whatever its other fields hold. */
  lemma RepeatsAlwaysRefused(s: Store, author: UserId, id: RecipeId, p: RecipePayload)
    requires Valid(s) && author in UserIds(s)
    requires (p.ingredients.Some? && !NoRepeats(IngredientIdsOf(p.ingredients.value)))
          || (p.tags.Some? && !NoRepeats(p.tags.value))
    ensures CreateRecipe(s, author, p).Failure?
    ensures UpdateRecipe(s, id, p).Failure?
  {
  }

  /** A name that is blank once stripped, or that holds a NUL character,
      is refused as a name error by both create and update. */
  lemma BadNameRefused(s: Store, author: UserId, id: RecipeId, p: RecipePayload)
    requires Valid(s) && author in UserIds(s) && id in RecipeIds(s)
    requires p.name.Some? && (AllSpace(p.name.value) || '\0' in p.name.value)
    ensures NameField in FieldErrorsOf(s, p, false) && NameField in FieldErrorsOf(s, p, true)
    ensures CreateRecipe(s, author, p) == Failure(FieldErrors(FieldErrorsOf(s, p, false)))
    ensures UpdateRecipe(s, id, p) == Failure(FieldErrors(FieldErrorsOf(s, p, true)))
  {
    BadNameIsFieldError(p.name.value);
  }

  /** The name check refuses a blank value and a value with a NUL. */
  lemma BadNameIsFieldError(name: string)
    requires AllSpace(name) || '\0' in name
    ensures !TextFieldOk(Some(name), false) && !TextFieldOk(Some(name), true)
  {
    StripBlank(name);
    StripKeepsText(name);
  }

  /** A stored name or text never starts or ends with whitespace and is
      never blank. */
  lemma CreatedTextIsClean(s: Store, author: UserId, p: RecipePayload)
    requires Valid(s) && author in UserIds(s)
    requires FieldErrorsOf(s, p, false) == {} && WellComposed(p)
    ensures var r := CreateRecipe(s, author, p).value.0.recipes[0];
            && Unpadded(r.name) && r.name != [] && '\0' !in r.name
            && Unpadded(r.text) && r.text != [] && '\0' !in r.text
  {
  }
}
