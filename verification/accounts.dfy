/** Users and deletion: registering a user under the schema's uniqueness
    constraints and the username validators, and the cascades that deleting
    a recipe or a user sets off. */
module Accounts {
  import opened Wrappers
  import opened Seqs
  import opened Text
  import opened Models
  import opened Validators

  /** A refused registration field. */
  datatype AccountError =
    | UsernameRequired
    | UsernameBadFormat
    | UsernameProhibited
    | UsernameTaken
    | UsernameNullCharacter
    | EmailRequired
    | EmailTaken
    | EmailNullCharacter
    | FirstNameNullCharacter
    | LastNameNullCharacter

  /** The registration form: username, email, first and last name. */
  datatype SignUp = SignUp(username: string, email: string, firstName: string, lastName: string)

  /** What the character fields make of a submitted form: every value
      stripped. */
  function Stripped(form: SignUp): (f: SignUp)
    ensures Unpadded(f.username) && Unpadded(f.email) && Unpadded(f.firstName) && Unpadded(f.lastName)
  {
    SignUp(Strip(form.username), Strip(form.email), Strip(form.firstName), Strip(form.lastName))
  }

  predicate OnUsername(e: AccountError) {
    e.UsernameRequired? || e.UsernameBadFormat? || e.UsernameProhibited? || e.UsernameTaken? || e.UsernameNullCharacter?
  }

  predicate OnEmail(e: AccountError) {
    e.EmailRequired? || e.EmailTaken? || e.EmailNullCharacter?
  }

  /** The username field: blank reports only that; otherwise the pattern,
      the reserved name, the NUL check and the unique check each report. */
  function UsernameErrors(s: Store, username: string, prohibited: string): (r: set<AccountError>)
    ensures forall e :: e in r ==> OnUsername(e)
    ensures UsernameRequired in r <==> username == ""
    ensures UsernameBadFormat in r <==> username != "" && !UsernameFormatOk(username)
    ensures UsernameProhibited in r <==> username != "" && IsProhibited(username, prohibited)
    ensures UsernameNullCharacter in r <==> username != "" && '\0' in username
    ensures UsernameTaken in r <==> username != "" && exists u :: u in s.users && u.username == username
  {
    if username == "" then {UsernameRequired}
    else
      var checked := Validators.UsernameErrors(username, prohibited);
      (if BadFormat in checked then {UsernameBadFormat} else {})
      + (if ProhibitedName in checked then {UsernameProhibited} else {})
      + (if username in KeySet(s.users, UsernameKey) then {UsernameTaken} else {})
      + (if '\0' in username then {UsernameNullCharacter} else {})
  }

  /** The email field: blank reports only that; otherwise the NUL check and
      the unique check each report. */
  function EmailErrors(s: Store, email: string): (r: set<AccountError>)
    ensures forall e :: e in r ==> OnEmail(e)
    ensures EmailRequired in r <==> email == ""
    ensures EmailNullCharacter in r <==> email != "" && '\0' in email
    ensures EmailTaken in r <==> email != "" && exists u :: u in s.users && u.email == email
  {
    if email == "" then {EmailRequired}
    else
      (if email in KeySet(s.users, EmailKey) then {EmailTaken} else {})
      + (if '\0' in email then {EmailNullCharacter} else {})
  }

  /** Every field error of a registration, given the stripped form. The
      optional name fields report only a NUL character. */
  function AccountErrors(s: Store, form: SignUp, prohibited: string): (r: set<AccountError>)
    ensures forall e :: OnUsername(e) ==> (e in r <==> e in UsernameErrors(s, form.username, prohibited))
    ensures forall e :: OnEmail(e) ==> (e in r <==> e in EmailErrors(s, form.email))
    ensures FirstNameNullCharacter in r <==> '\0' in form.firstName
    ensures LastNameNullCharacter in r <==> '\0' in form.lastName
  {
    UsernameErrors(s, form.username, prohibited) + EmailErrors(s, form.email) + NameErrors(form)
  }

  /** The optional first and last name fields refuse only a NUL character. */
  function NameErrors(form: SignUp): (r: set<AccountError>)
    ensures forall e :: e in r ==> !OnUsername(e) && !OnEmail(e)
    ensures FirstNameNullCharacter in r <==> '\0' in form.firstName
    ensures LastNameNullCharacter in r <==> '\0' in form.lastName
  {
    (if '\0' in form.firstName then {FirstNameNullCharacter} else {})
    + (if '\0' in form.lastName then {LastNameNullCharacter} else {})
  }

  /** Registration: the character fields strip the submitted values, which
      are then validated and stored. */
  function CreateUser(s: Store, form: SignUp, prohibited: string): (r: Result<(Store, UserId), set<AccountError>>)
    requires Valid(s)
    ensures r.Failure? <==> AccountErrors(s, Stripped(form), prohibited) != {}
    ensures r.Failure? ==> r.error == AccountErrors(s, Stripped(form), prohibited)
    ensures r.Success? ==>
              var (s', id) := r.value;
              && id !in UserIds(s)
              && s'.users == s.users + [User(id, Strip(form.username), Strip(form.email), Strip(form.firstName), Strip(form.lastName))]
              && s'.(users := s.users) == s
              && UserIds(s') == UserIds(s) + {id}
              && Valid(s')
              && (forall p :: p in s'.subscriptions ==> p.0 != id && p.1 != id)
  {
    Register(s, Stripped(form), prohibited)
  }

  /** Storing a stripped form: a user row with the next primary key, or
      every field error at once. */
  function Register(s: Store, clean: SignUp, prohibited: string): (r: Result<(Store, UserId), set<AccountError>>)
    requires Valid(s)
    ensures r.Failure? <==> AccountErrors(s, clean, prohibited) != {}
    ensures r.Failure? ==> r.error == AccountErrors(s, clean, prohibited)
    ensures r.Success? ==>
              var (s', id) := r.value;
              && id !in UserIds(s)
              && s'.users == s.users + [User(id, clean.username, clean.email, clean.firstName, clean.lastName)]
              && s'.(users := s.users) == s
              && UserIds(s') == UserIds(s) + {id}
              && Valid(s')
  {
    var errors := AccountErrors(s, clean, prohibited);
    if errors != {} then Failure(errors)
    else
      var id := FreshUserId(s);
      var u := User(id, clean.username, clean.email, clean.firstName, clean.lastName);
      var s' := s.(users := s.users + [u]);
      NewUserValid(s, u);
      Success((s', id))
  }

  /** Whitespace around the submitted values changes nothing: the padded
      and the unpadded form are accepted or refused alike and store the same
      row. */
  lemma PaddingIgnored(s: Store, form: SignUp, a: string, b: string, c: string, d: string, prohibited: string)
    requires Valid(s) && AllSpace(a) && AllSpace(b) && AllSpace(c) && AllSpace(d)
    requires Unpadded(form.username) && Unpadded(form.email)
    ensures CreateUser(s, SignUp(a + form.username + b, c + form.email + d, form.firstName, form.lastName), prohibited)
            == CreateUser(s, form, prohibited)
  {
    StripPadding(a, form.username, b);
    StripPadding(c, form.email, d);
    StripIdempotent(form.username);
    StripIdempotent(form.email);
    assert Stripped(SignUp(a + form.username + b, c + form.email + d, form.firstName, form.lastName)) == Stripped(form);
  }

  lemma NewUserValid(s: Store, u: User)
    requires Valid(s)
    requires u.id !in UserIds(s)
    requires u.username !in KeySet(s.users, UsernameKey) && u.email !in KeySet(s.users, EmailKey)
    ensures UserIds(s.(users := s.users + [u])) == UserIds(s) + {u.id}
    ensures Valid(s.(users := s.users + [u]))
  {
    var s' := s.(users := s.users + [u]);
    assert u in [u];
    assert KeySet([u], UserKey) == {u.id};
    assert KeySet([u], UsernameKey) == {u.username};
    assert KeySet([u], EmailKey) == {u.email};
    DistinctAppend(s.users, [u], UserKey);
    DistinctAppend(s.users, [u], UsernameKey);
    DistinctAppend(s.users, [u], EmailKey);
    assert UserIds(s') == UserIds(s) + {u.id} by {
      forall x | x in UserIds(s')
        ensures x in UserIds(s) + {u.id}
      {
        var v :| v in s'.users && UserKey(v) == x;
        if v != u {
          assert v in s.users;
        }
      }
    }
    assert RecipeIds(s') == RecipeIds(s) && TagIds(s') == TagIds(s) && IngredientIds(s') == IngredientIds(s);
  }

  /** Two registrations with the same username cannot both succeed. */
  lemma UsernameStaysUnique(s: Store, first: SignUp, second: SignUp, prohibited: string)
    requires Valid(s)
    requires AccountErrors(s, Stripped(first), prohibited) == {}
    requires Strip(second.username) == Strip(first.username)
    ensures CreateUser(s, first, prohibited).Success?
    ensures var s' := CreateUser(s, first, prohibited).value.0;
            && Valid(s')
            && UsernameTaken in AccountErrors(s', Stripped(second), prohibited)
            && CreateUser(s', second, prohibited) == Failure(AccountErrors(s', Stripped(second), prohibited))
  {
    TakenAfterRegister(s, Stripped(first), Stripped(second), prohibited);
  }

  lemma TakenAfterRegister(s: Store, first: SignUp, second: SignUp, prohibited: string)
    requires Valid(s)
    requires AccountErrors(s, first, prohibited) == {}
    requires second.username == first.username
    ensures Register(s, first, prohibited).Success?
    ensures UsernameTaken in AccountErrors(Register(s, first, prohibited).value.0, second, prohibited)
  {
    var s' := Register(s, first, prohibited).value.0;
    assert first.username != "" by {
      assert UsernameRequired !in UsernameErrors(s, first.username, prohibited);
    }
    assert s'.users[|s.users|] in s'.users && s'.users[|s.users|].username == first.username;
    assert UsernameTaken in UsernameErrors(s', second.username, prohibited);
  }

  // Deleting a recipe.

  function NotRecipe(id: RecipeId): Recipe -> bool {
    (r: Recipe) => r.id != id
  }

  /** Deleting recipe `id` and every row that references it: its ingredient
      lines, its tag links, and the favorite and cart rows of every user. */
  function DeleteRecipe(s: Store, id: RecipeId): (r: Result<Store, ()>)
    requires Valid(s)
    ensures r.Failure? <==> id !in RecipeIds(s)
    ensures r.Success? ==>
              var s' := r.value;
              && Valid(s')
              && RecipeIds(s') == RecipeIds(s) - {id}
              && (forall x :: x in s'.recipes <==> x in s.recipes && x.id != id)
              && AmountsOf(s', id) == []
              && (forall other :: other != id ==> AmountsOf(s', other) == AmountsOf(s, other))
              && (forall p :: p in s'.recipeTags <==> p in s.recipeTags && p.0 != id)
              && (forall p :: p in s'.favorites <==> p in s.favorites && p.1 != id)
              && (forall p :: p in s'.carts <==> p in s.carts && p.1 != id)
              && s'.users == s.users && s'.subscriptions == s.subscriptions
              && s'.tags == s.tags && s'.ingredients == s.ingredients
  {
    if id !in RecipeIds(s) then Failure(())
    else
      var s' := s.(
        recipes := Filter(s.recipes, NotRecipe(id)),
        amounts := Filter(s.amounts, NotOfRecipe(id)),
        recipeTags := (set p | p in s.recipeTags && p.0 != id),
        favorites := (set p | p in s.favorites && p.1 != id),
        carts := (set p | p in s.carts && p.1 != id));
      DeleteRecipeEffect(s, id, s');
      Success(s')
  }

  lemma DeleteRecipeEffect(s: Store, id: RecipeId, s': Store)
    requires Valid(s)
    requires s' == s.(
        recipes := Filter(s.recipes, NotRecipe(id)),
        amounts := Filter(s.amounts, NotOfRecipe(id)),
        recipeTags := (set p | p in s.recipeTags && p.0 != id),
        favorites := (set p | p in s.favorites && p.1 != id),
        carts := (set p | p in s.carts && p.1 != id))
    ensures RecipeIds(s') == RecipeIds(s) - {id}
    ensures AmountsOf(s', id) == []
    ensures forall other :: other != id ==> AmountsOf(s', other) == AmountsOf(s, other)
    ensures Valid(s')
  {
    RemainingRecipeIds(s.recipes, id);
    RemainingLines(s.amounts, id);
    FilterDistinct(s.recipes, NotRecipe(id), RecipeKey);
    FilterDistinct(s.amounts, NotOfRecipe(id), AmountKey);
    assert UserIds(s') == UserIds(s) && TagIds(s') == TagIds(s) && IngredientIds(s') == IngredientIds(s);
  }

  lemma RemainingRecipeIds(recipes: seq<Recipe>, id: RecipeId)
    ensures KeySet(Filter(recipes, NotRecipe(id)), RecipeKey) == KeySet(recipes, RecipeKey) - {id}
  {
    forall x | x in KeySet(recipes, RecipeKey) - {id}
      ensures x in KeySet(Filter(recipes, NotRecipe(id)), RecipeKey)
    {
      var r :| r in recipes && RecipeKey(r) == x;
      assert r in Filter(recipes, NotRecipe(id));
    }
  }

  /** Dropping a recipe's lines leaves it none and leaves every other
      recipe's lines as they were. */
  lemma RemainingLines(amounts: seq<IngredientAmount>, id: RecipeId)
    ensures Filter(Filter(amounts, NotOfRecipe(id)), OfRecipe(id)) == []
    ensures forall other :: other != id ==>
              Filter(Filter(amounts, NotOfRecipe(id)), OfRecipe(other)) == Filter(amounts, OfRecipe(other))
  {
    FilterFilter(amounts, NotOfRecipe(id), OfRecipe(id), (a: IngredientAmount) => false);
    FilterNone(amounts, (a: IngredientAmount) => false);
    forall other | other != id
      ensures Filter(Filter(amounts, NotOfRecipe(id)), OfRecipe(other)) == Filter(amounts, OfRecipe(other))
    {
      FilterFilter(amounts, NotOfRecipe(id), OfRecipe(other), OfRecipe(other));
    }
  }


  // Deleting a user.

  function NotUser(id: UserId): User -> bool {
    (u: User) => u.id != id
  }

  /** The recipes that survive deleting `id`: those by other authors. */
  function NotByAuthor(id: UserId): Recipe -> bool {
    (r: Recipe) => r.author != id
  }

  function LineKept(kept: set<RecipeId>): IngredientAmount -> bool {
    (a: IngredientAmount) => a.recipe in kept
  }

  /** Deleting user `id`: their subscriptions on both sides, their own
      favorite and cart rows, and their recipes with every row referencing
      those recipes. */
  function DeleteUser(s: Store, id: UserId): (r: Result<Store, ()>)
    requires Valid(s)
    ensures r.Failure? <==> id !in UserIds(s)
    ensures r.Success? ==>
              var s' := r.value;
              && Valid(s')
              && UserIds(s') == UserIds(s) - {id}
              && (forall x :: x in s'.recipes <==> x in s.recipes && x.author != id)
              && (forall p :: p in s'.subscriptions <==> p in s.subscriptions && p.0 != id && p.1 != id)
              && (forall p :: p in s'.favorites ==> p in s.favorites && p.0 != id)
              && (forall p :: p in s'.carts ==> p in s.carts && p.0 != id)
              && (forall p :: p in s.favorites && p.0 != id && p.1 in RecipeIds(s') ==> p in s'.favorites)
              && (forall p :: p in s.carts && p.0 != id && p.1 in RecipeIds(s') ==> p in s'.carts)
              && (forall u :: u in s'.users <==> u in s.users && u.id != id)
              && (forall x :: x in RecipeIds(s') ==> AmountsOf(s', x) == AmountsOf(s, x))
              && (forall p :: p in s'.recipeTags <==> p in s.recipeTags && p.0 in RecipeIds(s'))
              && s'.tags == s.tags && s'.ingredients == s.ingredients
  {
    if id !in UserIds(s) then Failure(())
    else
      var recipes := Filter(s.recipes, NotByAuthor(id));
      var kept := KeySet(recipes, RecipeKey);
      var s' := Store(
        Filter(s.users, NotUser(id)),
        s.tags,
        s.ingredients,
        recipes,
        Filter(s.amounts, LineKept(kept)),
        (set p | p in s.recipeTags && p.0 in kept),
        (set p | p in s.favorites && p.0 != id && p.1 in kept),
        (set p | p in s.carts && p.0 != id && p.1 in kept),
        (set p | p in s.subscriptions && p.0 != id && p.1 != id));
      DeleteUserEffect(s, id, s');
      Success(s')
  }

  lemma DeleteUserEffect(s: Store, id: UserId, s': Store)
    requires Valid(s)
    requires s'.users == Filter(s.users, NotUser(id))
    requires s'.tags == s.tags && s'.ingredients == s.ingredients
    requires s'.recipes == Filter(s.recipes, NotByAuthor(id))
    requires s'.amounts == Filter(s.amounts, LineKept(RecipeIds(s')))
    requires s'.recipeTags == set p | p in s.recipeTags && p.0 in RecipeIds(s')
    requires s'.favorites == set p | p in s.favorites && p.0 != id && p.1 in RecipeIds(s')
    requires s'.carts == set p | p in s.carts && p.0 != id && p.1 in RecipeIds(s')
    requires s'.subscriptions == set p | p in s.subscriptions && p.0 != id && p.1 != id
    ensures UserIds(s') == UserIds(s) - {id}
    ensures forall x :: x in s'.recipes <==> x in s.recipes && x.author != id
    ensures forall p :: p in s'.subscriptions <==> p in s.subscriptions && p.0 != id && p.1 != id
    ensures forall p :: p in s'.favorites ==> p in s.favorites && p.0 != id
    ensures forall p :: p in s'.carts ==> p in s.carts && p.0 != id
    ensures forall p :: p in s.favorites && p.0 != id && p.1 in RecipeIds(s') ==> p in s'.favorites
    ensures forall p :: p in s.carts && p.0 != id && p.1 in RecipeIds(s') ==> p in s'.carts
    ensures forall u :: u in s'.users <==> u in s.users && u.id != id
    ensures forall x :: x in RecipeIds(s') ==> AmountsOf(s', x) == AmountsOf(s, x)
    ensures forall p :: p in s'.recipeTags <==> p in s.recipeTags && p.0 in RecipeIds(s')
    ensures Valid(s')
  {
    forall x | x in RecipeIds(s')
      ensures AmountsOf(s', x) == AmountsOf(s, x)
    {
      FilterFilter(s.amounts, LineKept(RecipeIds(s')), OfRecipe(x), OfRecipe(x));
    }
    assert UserIds(s') == UserIds(s) - {id} by {
      forall x | x in UserIds(s) - {id}
        ensures x in UserIds(s')
      {
        var u :| u in s.users && UserKey(u) == x;
        assert u in s'.users;
      }
    }
    FilterDistinct(s.users, NotUser(id), UserKey);
    FilterDistinct(s.users, NotUser(id), UsernameKey);
    FilterDistinct(s.users, NotUser(id), EmailKey);
    FilterDistinct(s.recipes, NotByAuthor(id), RecipeKey);
    FilterDistinct(s.amounts, LineKept(RecipeIds(s')), AmountKey);
    assert RecipeIds(s') <= RecipeIds(s);
    assert TagIds(s') == TagIds(s) && IngredientIds(s') == IngredientIds(s);
  }

  /** After deleting a user no row anywhere references them. */
  lemma DeletedUserLeavesNoTrace(s: Store, id: UserId)
    requires Valid(s) && id in UserIds(s)
    ensures var s' := DeleteUser(s, id).value;
            && id !in UserIds(s')
            && (forall x :: x in s'.recipes ==> x.author != id)
            && (forall p :: p in s'.subscriptions ==> p.0 != id && p.1 != id)
            && (forall p :: p in s'.favorites ==> p.0 != id)
            && (forall p :: p in s'.carts ==> p.0 != id)
  {
  }
}
