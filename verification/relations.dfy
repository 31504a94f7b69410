/** Adding and removing favorites and shopping-cart entries: the POST and
    DELETE branches of the `favorite` and `shopping_cart` recipe actions. */
module RelationManager {
  import opened Wrappers
  import opened Models
  import opened Projection

  /** Why a request was answered with 400 Bad Request. */
  datatype Refusal =
    | NoSuchRecipe        // the recipe field names no stored recipe
    | AlreadyAdded        // the (user, recipe) row exists already
    | AlreadyRemoved      // there is no (user, recipe) row to delete

  /** The error responses of the relation endpoints. */
  datatype RelationError = NotFound | BadRequest(refusal: Refusal)

  /** POST: validate `{recipe, user}` and create the join row; the response
      carries the short view of the recipe. */
  function AddRelation(s: Store, kind: Kind, user: UserId, recipe: RecipeId): (r: Result<(Store, ShortRecipe), RelationError>)
    requires Valid(s) && user in UserIds(s)
    ensures recipe !in RecipeIds(s) ==> r == Failure(BadRequest(NoSuchRecipe))
    ensures recipe in RecipeIds(s) && (user, recipe) in Rows(s, kind) ==> r == Failure(BadRequest(AlreadyAdded))
    ensures r.Success? <==> recipe in RecipeIds(s) && (user, recipe) !in Rows(s, kind)
    ensures r.Success? ==>
              var s' := r.value.0;
              && Rows(s', kind) == Rows(s, kind) + {(user, recipe)}
              && |Rows(s', kind)| == |Rows(s, kind)| + 1
              && WithRows(s', kind, Rows(s, kind)) == s
              && Valid(s')
              && r.value.1.id == recipe
              && exists rec :: rec in s.recipes && rec.id == recipe && r.value.1 == ProjectShort(rec)
  {
    match FindRecipe(s.recipes, recipe)
    case None => Failure(BadRequest(NoSuchRecipe))
    case Some(rec) =>
      if (user, recipe) in Rows(s, kind) then Failure(BadRequest(AlreadyAdded))
      else
        var rows := Rows(s, kind) + {(user, recipe)};
        WithRowsValid(s, kind, rows);
        Success((WithRows(s, kind, rows), ProjectShort(rec)))
  }

  /** DELETE: 404 for an unknown recipe, otherwise delete the join row or
      report that it was already removed. */
  function RemoveRelation(s: Store, kind: Kind, user: UserId, recipe: RecipeId): (r: Result<Store, RelationError>)
    requires Valid(s) && user in UserIds(s)
    ensures recipe !in RecipeIds(s) ==> r == Failure(NotFound)
    ensures recipe in RecipeIds(s) && (user, recipe) !in Rows(s, kind) ==> r == Failure(BadRequest(AlreadyRemoved))
    ensures r.Success? <==> (user, recipe) in Rows(s, kind)
    ensures r.Success? ==>
              && Rows(r.value, kind) == Rows(s, kind) - {(user, recipe)}
              && |Rows(r.value, kind)| == |Rows(s, kind)| - 1
              && WithRows(r.value, kind, Rows(s, kind)) == s
              && Valid(r.value)
  {
    if recipe !in RecipeIds(s) then Failure(NotFound)
    else if (user, recipe) in Rows(s, kind) then
      var rows := Rows(s, kind) - {(user, recipe)};
      WithRowsValid(s, kind, rows);
      Success(WithRows(s, kind, rows))
    else Failure(BadRequest(AlreadyRemoved))
  }

  /** Adding the same recipe twice stores one row and refuses the second
      request. */
  lemma AddTwiceConflicts(s: Store, kind: Kind, user: UserId, recipe: RecipeId)
    requires Valid(s) && user in UserIds(s)
    requires recipe in RecipeIds(s) && (user, recipe) !in Rows(s, kind)
    ensures AddRelation(AddRelation(s, kind, user, recipe).value.0, kind, user, recipe) == Failure(BadRequest(AlreadyAdded))
  {
  }

  /** After a successful add the viewer's projection flag for that recipe is
      set, and no other viewer's flag changes. */
  lemma AddSetsFlag(s: Store, kind: Kind, user: UserId, recipe: RecipeId, viewer: Viewer, other: RecipeId)
    requires Valid(s) && user in UserIds(s)
    requires recipe in RecipeIds(s) && (user, recipe) !in Rows(s, kind)
    ensures CheckRecipe(AddRelation(s, kind, user, recipe).value.0, Authenticated(user), kind, recipe)
    ensures viewer != Authenticated(user) || other != recipe ==>
              CheckRecipe(AddRelation(s, kind, user, recipe).value.0, viewer, kind, other) == CheckRecipe(s, viewer, kind, other)
  {
  }

  /** Removing and then adding back restores the store. */
  lemma RemoveThenAddRestores(s: Store, kind: Kind, user: UserId, recipe: RecipeId)
    requires Valid(s) && user in UserIds(s)
    requires (user, recipe) in Rows(s, kind)
    ensures var s' := RemoveRelation(s, kind, user, recipe).value;
            !CheckRecipe(s', Authenticated(user), kind, recipe) &&
            AddRelation(s', kind, user, recipe).Success? &&
            AddRelation(s', kind, user, recipe).value.0 == s
  {
    var rows := Rows(s, kind);
    var s' := RemoveRelation(s, kind, user, recipe).value;
    assert s' == WithRows(s, kind, rows - {(user, recipe)}) by {
      match kind {
        case Favorite =>
        case ShoppingCart =>
      }
    }
    assert (rows - {(user, recipe)}) + {(user, recipe)} == rows;
  }

}
