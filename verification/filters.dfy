/** The recipe list filters: by author id, by tag slug, and the two boolean
    filters on the viewer's favorites and shopping cart. */
module RecipeFilters {
  import opened Wrappers
  import opened Seqs
  import opened Text
  import opened Models
  import opened Projection

  function FlaggedBy(s: Store, kind: Kind, user: UserId): Recipe -> bool {
    (x: Recipe) => (user, x.id) in Rows(s, kind)
  }

  /** `favorited` and `in_cart`: with a true value and an authenticated
      viewer, keep the recipes the viewer has in the favorite (or cart)
      table; otherwise return the recipes unchanged. */
  function FlagFilter(s: Store, viewer: Viewer, kind: Kind, value: bool, recipes: seq<Recipe>): (r: seq<Recipe>)
    ensures !value || viewer.Anonymous? ==> r == recipes
    ensures |r| <= |recipes|
    ensures forall x :: x in r ==> x in recipes
    ensures value && viewer.Authenticated? ==>
              && (forall x :: x in r ==> (viewer.user, x.id) in Rows(s, kind))
              && (forall x :: x in recipes && (viewer.user, x.id) in Rows(s, kind) ==> x in r)
  {
    if value && viewer.Authenticated? then Filter(recipes, FlaggedBy(s, kind, viewer.user)) else recipes
  }

  /** A filter with a true value keeps exactly the recipes whose projection
      flag is set, for an authenticated viewer. */
  lemma FlagFilterMatchesProjection(s: Store, user: UserId, kind: Kind, recipes: seq<Recipe>, x: Recipe)
    ensures x in FlagFilter(s, Authenticated(user), kind, true, recipes) <==>
              x in recipes && CheckRecipe(s, Authenticated(user), kind, x.id)
  {
  }

  // The author filter.

  /** Lower-casing leaves a decimal numeral unchanged. */
  lemma DigitsAreLowerCase(d: string)
    requires AllDigits(d)
    ensures ToLower(d) == d
  {
    assert forall k :: 0 <= k < |d| ==> ToLower(d)[k] == d[k];
  }

  /** `author__id__icontains`: the author's id written in decimal contains
      the query, ignoring case. */
  predicate AuthorMatches(author: UserId, query: string) {
    Contains(ToLower(NatToString(author)), ToLower(query))
  }

  function AuthorMatchesQuery(query: string): Recipe -> bool {
    (x: Recipe) => AuthorMatches(x.author, query)
  }

  /** The lower-cased query occurs at some position of the author's
      numeral: the reference the recursive search is measured against. */
  ghost predicate IdContains(a: UserId, query: string) {
    exists i :: OccursAt(NatToString(a), ToLower(query), i)
  }

  lemma AuthorMatchesOccurs(a: UserId, query: string)
    ensures AuthorMatches(a, query) <==> IdContains(a, query)
  {
    var d := NatToString(a);
    DigitsAreLowerCase(d);
    ContainsIffOccurs(d, ToLower(query));
  }

  lemma AuthorMatchesIff(query: string)
    ensures forall a: UserId :: AuthorMatches(a, query) <==> IdContains(a, query)
  {
    forall a: UserId {
      AuthorMatchesOccurs(a, query);
    }
  }

  /** The form field strips the query; an empty query is not applied;
      otherwise the recipes whose author id contains it are kept, in
      order. */
  function AuthorFilter(query: string, recipes: seq<Recipe>): (r: seq<Recipe>)
    ensures Strip(query) == [] ==> r == recipes
    ensures |r| <= |recipes|
    ensures forall x :: x in r ==> x in recipes && IdContains(x.author, Strip(query))
    ensures forall x :: x in recipes && IdContains(x.author, Strip(query)) ==> x in r
  {
    var q := Strip(query);
    AuthorMatchesIff(q);
    if |q| == 0 then
      assert forall x: Recipe :: OccursAt(NatToString(x.author), ToLower(q), 0) && IdContains(x.author, q);
      recipes
    else Filter(recipes, AuthorMatchesQuery(q))
  }

  lemma {:induction false} FilterSamePredicate<T>(xs: seq<T>, p: T -> bool, q: T -> bool)
    requires forall x :: p(x) == q(x)
    ensures Filter(xs, p) == Filter(xs, q)
  {
    if |xs| > 0 {
      FilterSamePredicate(xs[1..], p, q);
    }
  }

  /** The author filter ignores the case of the query. */
  lemma AuthorFilterIgnoresCase(query: string, recipes: seq<Recipe>)
    ensures AuthorFilter(ToUpper(query), recipes) == AuthorFilter(query, recipes)
  {
    var q := Strip(query);
    StripToUpper(query);
    assert ToLower(ToUpper(q)) == ToLower(q);
    if |q| > 0 {
      FilterSamePredicate(recipes, AuthorMatchesQuery(ToUpper(q)), AuthorMatchesQuery(q));
    }
  }

  /** Whitespace around the query changes nothing. */
  lemma AuthorFilterIgnoresPadding(left: string, query: string, right: string, recipes: seq<Recipe>)
    requires AllSpace(left) && AllSpace(right) && Unpadded(query)
    ensures AuthorFilter(left + query + right, recipes) == AuthorFilter(query, recipes)
  {
    StripPadding(left, query, right);
    StripIdempotent(query);
  }

  /** Querying with an author's full id keeps every recipe of that author. */
  lemma AuthorFilterKeepsExactId(author: UserId, recipes: seq<Recipe>, x: Recipe)
    requires x in recipes && x.author == author
    ensures x in AuthorFilter(NatToString(author), recipes)
  {
    var d := NatToString(author);
    assert !IsSpace(d[0]) && !IsSpace(d[|d| - 1]);
    StripIdempotent(d);
    DigitsAreLowerCase(d);
    assert OccursAt(NatToString(x.author), ToLower(d), 0);
  }

  // The tag filter.

  /** The error response of the recipe list: a tag slug that names no tag. */
  datatype FilterError = InvalidTagChoice

  /** Recipe `id` carries some tag whose slug was selected. */
  predicate HasSelectedTag(s: Store, id: RecipeId, slugs: seq<string>) {
    exists t :: t in s.tags && t.slug in slugs && (id, t.id) in s.recipeTags
  }

  function TaggedWithAnyOf(s: Store, slugs: seq<string>): Recipe -> bool {
    (x: Recipe) => HasSelectedTag(s, x.id, slugs)
  }

  /** `tags`: every selected slug must name a tag; an empty selection is not
      applied; otherwise the recipes with at least one selected tag are
      kept, each once, in order. */
  function TagsFilter(s: Store, slugs: seq<string>, recipes: seq<Recipe>): (r: Result<seq<Recipe>, FilterError>)
    ensures r.Failure? <==> exists i :: 0 <= i < |slugs| && slugs[i] !in KeySet(s.tags, TagSlugKey)
    ensures r.Success? && |slugs| == 0 ==> r.value == recipes
    ensures r.Success? ==> |r.value| <= |recipes| && forall x :: x in r.value ==> x in recipes
    ensures r.Success? && |slugs| > 0 ==>
              && (forall x :: x in r.value ==> HasSelectedTag(s, x.id, slugs))
              && (forall x :: x in recipes && HasSelectedTag(s, x.id, slugs) ==> x in r.value)
    ensures r.Success? && DistinctBy(recipes, RecipeKey) ==> DistinctBy(r.value, RecipeKey)
  {
    if exists i :: 0 <= i < |slugs| && slugs[i] !in KeySet(s.tags, TagSlugKey) then Failure(InvalidTagChoice)
    else if |slugs| == 0 then Success(recipes)
    else
      var p := TaggedWithAnyOf(s, slugs);
      FilterKeepsDistinct(recipes, p);
      Success(Filter(recipes, p))
  }

  /** With known slugs, the filter keeps a listed recipe exactly when its
      recipe view shows a tag with a selected slug. */
  lemma TagsFilterMatchesProjection(s: Store, viewer: Viewer, slugs: seq<string>, recipes: seq<Recipe>, x: Recipe)
    requires Valid(s) && x in s.recipes && |slugs| > 0
    requires forall i :: 0 <= i < |slugs| ==> slugs[i] in KeySet(s.tags, TagSlugKey)
    ensures TagsFilter(s, slugs, recipes).Success?
    ensures x in TagsFilter(s, slugs, recipes).value <==>
              x in recipes && exists t :: t in ProjectRecipe(s, viewer, x).tags && t.slug in slugs
  {
    var r := TagsFilter(s, slugs, recipes);
    assert r.Success?;
    SelectedTagShown(s, viewer, slugs, x);
  }

  /** A recipe carries a selected tag exactly when its view shows one. */
  lemma SelectedTagShown(s: Store, viewer: Viewer, slugs: seq<string>, x: Recipe)
    requires Valid(s) && x in s.recipes
    ensures HasSelectedTag(s, x.id, slugs) <==> exists t :: t in ProjectRecipe(s, viewer, x).tags && t.slug in slugs
  {
    var v := ProjectRecipe(s, viewer, x);
    if HasSelectedTag(s, x.id, slugs) {
      var t :| t in s.tags && t.slug in slugs && (x.id, t.id) in s.recipeTags;
      assert t.id in RecipeTagIds(s, x.id);
      assert t in v.tags;
    }
    if exists t :: t in v.tags && t.slug in slugs {
      var t :| t in v.tags && t.slug in slugs;
      assert t.id in RecipeTagIds(s, x.id);
      var q :| q in s.recipeTags && q.0 == x.id && q.1 == t.id;
      assert (x.id, t.id) in s.recipeTags;
    }
  }

  lemma FilterKeepsDistinct(recipes: seq<Recipe>, p: Recipe -> bool)
    ensures DistinctBy(recipes, RecipeKey) ==> DistinctBy(Filter(recipes, p), RecipeKey)
  {
    if DistinctBy(recipes, RecipeKey) {
      FilterDistinct(recipes, p, RecipeKey);
    }
  }

  // The whole filter set.

  /** The query parameters of the recipe list; an absent parameter is the
      empty string, the empty list or false. */
  datatype RecipeQuery = RecipeQuery(author: string, tags: seq<string>, isFavorited: bool, isInShoppingCart: bool)

  /** A recipe passes every filter of the query: the reference the filter
      chain is measured against. */
  ghost predicate Matches(s: Store, viewer: Viewer, q: RecipeQuery, x: Recipe) {
    && IdContains(x.author, Strip(q.author))
    && (|q.tags| == 0 || HasSelectedTag(s, x.id, q.tags))
    && (!q.isFavorited || viewer.Anonymous? || CheckRecipe(s, viewer, Favorite, x.id))
    && (!q.isInShoppingCart || viewer.Anonymous? || CheckRecipe(s, viewer, ShoppingCart, x.id))
  }

  /** `RecipeFilter` over the recipe table: the filters in their declared
      order, each applied to the previous one's result. */
  function ListRecipes(s: Store, viewer: Viewer, q: RecipeQuery): (r: Result<seq<Recipe>, FilterError>)
    ensures r.Failure? <==> exists i :: 0 <= i < |q.tags| && q.tags[i] !in KeySet(s.tags, TagSlugKey)
    ensures r.Success? ==> forall x :: x in r.value ==> x in s.recipes && Matches(s, viewer, q, x)
    ensures r.Success? ==> forall x :: x in s.recipes && Matches(s, viewer, q, x) ==> x in r.value
  {
    var byAuthor := AuthorFilter(q.author, s.recipes);
    var byTags :- TagsFilter(s, q.tags, byAuthor);
    var favorited := FlagFilter(s, viewer, Favorite, q.isFavorited, byTags);
    Success(FlagFilter(s, viewer, ShoppingCart, q.isInShoppingCart, favorited))
  }

  /** The list with no parameters is the whole table. */
  lemma EmptyQueryListsAll(s: Store, viewer: Viewer)
    ensures ListRecipes(s, viewer, RecipeQuery("", [], false, false)) == Success(s.recipes)
  {
  }
}
