/** The shopping list download: the ingredient lines of every recipe in the
    user's cart, grouped by ingredient name and unit with their amounts
    summed, ordered by name and rendered as a plain-text list. */
module Shopping {
  import opened Seqs
  import opened Text
  import opened Sorting
  import opened Models

  /** One ingredient line of a carted recipe, joined with its ingredient. */
  datatype Item = Item(name: string, unit: string, amount: int)

  /** One row of the aggregate: an ingredient's name and unit and the sum of
      its amounts. */
  datatype Entry = Entry(name: string, unit: string, total: int)

  function ItemKey(it: Item): (string, string) { (it.name, it.unit) }
  function EntryKey(e: Entry): (string, string) { (e.name, e.unit) }
  function EntryNameKey(e: Entry): string { e.name }

  function InCartOf(s: Store, user: UserId): IngredientAmount -> bool {
    (a: IngredientAmount) => (user, a.recipe) in s.carts
  }

  /** The ingredient lines of the recipes in `user`'s cart, in table order. */
  function CartLines(s: Store, user: UserId): seq<IngredientAmount> {
    Filter(s.amounts, InCartOf(s, user))
  }

  /** Item `it` is line `a` with the name and unit of its ingredient. */
  ghost predicate Joined(s: Store, a: IngredientAmount, it: Item) {
    && it.amount == a.amount
    && exists ing :: ing in s.ingredients && ing.id == a.ingredient &&
         it.name == ing.name && it.unit == ing.measurementUnit
  }

  /** The lines joined with the ingredient catalog (an inner join): a line
      whose ingredient is missing yields no item. */
  function ItemsOf(s: Store, lines: seq<IngredientAmount>): seq<Item> {
    if |lines| == 0 then []
    else
      match FindIngredient(s.ingredients, lines[0].ingredient)
      case None => ItemsOf(s, lines[1..])
      case Some(ing) => [Item(ing.name, ing.measurementUnit, lines[0].amount)] + ItemsOf(s, lines[1..])
  }

  /** When every line's ingredient exists, the join yields one item per line,
      in order, carrying the line's amount and its ingredient's name and
      unit. */
  lemma {:induction false} ItemsOfJoin(s: Store, lines: seq<IngredientAmount>)
    requires forall a :: a in lines ==> a.ingredient in IngredientIds(s)
    ensures |ItemsOf(s, lines)| == |lines|
    ensures forall i :: 0 <= i < |lines| ==> Joined(s, lines[i], ItemsOf(s, lines)[i])
  {
    if |lines| > 0 {
      var tail := lines[1..];
      assert forall a :: a in tail ==> a in lines;
      ItemsOfJoin(s, tail);
      assert lines[0] in lines;
      var ing := FindIngredient(s.ingredients, lines[0].ingredient).value;
      var r := ItemsOf(s, lines);
      assert r == [Item(ing.name, ing.measurementUnit, lines[0].amount)] + ItemsOf(s, tail);
      forall i | 0 <= i < |lines|
        ensures Joined(s, lines[i], r[i])
      {
        if i > 0 {
          assert lines[i] == tail[i - 1] && r[i] == ItemsOf(s, tail)[i - 1];
        }
      }
    }
  }

  function CartItems(s: Store, user: UserId): seq<Item> {
    ItemsOf(s, CartLines(s, user))
  }

  /** The sum of the amounts of the items with `key`: the reference the
      grouped totals are measured against. */
  function SumFor(items: seq<Item>, key: (string, string)): int {
    if |items| == 0 then 0
    else
      var last := items[|items| - 1];
      SumFor(items[..|items| - 1], key) + (if ItemKey(last) == key then last.amount else 0)
  }

  /** The total of the entry with `key`, zero when there is none. */
  function TotalIn(groups: seq<Entry>, key: (string, string)): int {
    if |groups| == 0 then 0
    else if EntryKey(groups[0]) == key then groups[0].total
    else TotalIn(groups[1..], key)
  }

  /** Folds one item into the groups: its amount is added to the entry with
      its key, or a new entry is appended. */
  function AddItem(groups: seq<Entry>, it: Item): seq<Entry> {
    if |groups| == 0 then [Entry(it.name, it.unit, it.amount)]
    else if EntryKey(groups[0]) == ItemKey(it) then [groups[0].(total := groups[0].total + it.amount)] + groups[1..]
    else [groups[0]] + AddItem(groups[1..], it)
  }

  lemma DistinctTail(groups: seq<Entry>)
    requires |groups| > 0 && DistinctBy(groups, EntryKey)
    ensures DistinctBy(groups[1..], EntryKey)
    ensures EntryKey(groups[0]) !in KeySet(groups[1..], EntryKey)
  {
    forall i, j | 0 <= i < j < |groups| - 1
      ensures EntryKey(groups[1..][i]) != EntryKey(groups[1..][j])
    {
      assert groups[1..][i] == groups[i + 1] && groups[1..][j] == groups[j + 1];
    }
    forall x | x in groups[1..]
      ensures EntryKey(x) != EntryKey(groups[0])
    {
      var i :| 0 <= i < |groups[1..]| && groups[1..][i] == x;
      assert groups[i + 1] == x;
    }
  }

  /** Folding in an item adds its key to the key set. */
  lemma {:induction false} AddItemKeys(groups: seq<Entry>, it: Item)
    ensures KeySet(AddItem(groups, it), EntryKey) == KeySet(groups, EntryKey) + {ItemKey(it)}
  {
    var r := AddItem(groups, it);
    if |groups| == 0 {
      assert EntryKey(r[0]) in KeySet(r, EntryKey);
    } else if EntryKey(groups[0]) == ItemKey(it) {
      assert forall i :: 1 <= i < |r| ==> r[i] == groups[i];
      forall k | k in KeySet(groups, EntryKey)
        ensures k in KeySet(r, EntryKey)
      {
        var x :| x in groups && EntryKey(x) == k;
        var i :| 0 <= i < |groups| && groups[i] == x;
        if i == 0 { assert EntryKey(r[0]) == k; } else { assert r[i] == x; }
      }
    } else {
      var rest := AddItem(groups[1..], it);
      AddItemKeys(groups[1..], it);
      assert KeySet(groups, EntryKey) == {EntryKey(groups[0])} + KeySet(groups[1..], EntryKey) by {
        assert groups == [groups[0]] + groups[1..];
      }
      assert KeySet(r, EntryKey) == {EntryKey(groups[0])} + KeySet(rest, EntryKey) by {
        assert r == [groups[0]] + rest;
      }
    }
  }

  /** Folding in an item keeps the keys unique. */
  lemma {:induction false} AddItemDistinct(groups: seq<Entry>, it: Item)
    requires DistinctBy(groups, EntryKey)
    ensures DistinctBy(AddItem(groups, it), EntryKey)
  {
    var r := AddItem(groups, it);
    if |groups| > 0 && EntryKey(groups[0]) == ItemKey(it) {
      assert forall i :: 1 <= i < |r| ==> r[i] == groups[i];
    } else if |groups| > 0 {
      var rest := AddItem(groups[1..], it);
      DistinctTail(groups);
      AddItemDistinct(groups[1..], it);
      AddItemKeys(groups[1..], it);
      assert r == [groups[0]] + rest;
      forall i, j | 0 <= i < j < |r|
        ensures EntryKey(r[i]) != EntryKey(r[j])
      {
        if i == 0 {
          assert r[j] == rest[j - 1];
          assert EntryKey(rest[j - 1]) in KeySet(rest, EntryKey);
        } else {
          assert r[i] == rest[i - 1] && r[j] == rest[j - 1];
        }
      }
    }
  }

  /** Folding in an item adds its amount to its key's total and to no
      other. */
  lemma {:induction false} AddItemTotals(groups: seq<Entry>, it: Item)
    ensures forall key :: TotalIn(AddItem(groups, it), key) == TotalIn(groups, key) + (if key == ItemKey(it) then it.amount else 0)
  {
    var r := AddItem(groups, it);
    if |groups| > 0 && EntryKey(groups[0]) == ItemKey(it) {
      assert r[1..] == groups[1..];
    } else if |groups| > 0 {
      AddItemTotals(groups[1..], it);
      assert r[1..] == AddItem(groups[1..], it);
    }
  }

  /** Folding in an item adds its key, keeps the keys unique, and adds its
      amount to its key's total and to no other. */
  lemma AddItemEffect(groups: seq<Entry>, it: Item)
    ensures KeySet(AddItem(groups, it), EntryKey) == KeySet(groups, EntryKey) + {ItemKey(it)}
    ensures DistinctBy(groups, EntryKey) ==> DistinctBy(AddItem(groups, it), EntryKey)
    ensures forall key :: TotalIn(AddItem(groups, it), key) == TotalIn(groups, key) + (if key == ItemKey(it) then it.amount else 0)
  {
    AddItemKeys(groups, it);
    AddItemTotals(groups, it);
    if DistinctBy(groups, EntryKey) {
      AddItemDistinct(groups, it);
    }
  }

  /** `values(name, unit).annotate(Sum('amount'))`: the items folded into
      one entry per distinct (name, unit). */
  function Group(items: seq<Item>): seq<Entry> {
    if |items| == 0 then [] else AddItem(Group(items[..|items| - 1]), items[|items| - 1])
  }

  /** The groups are keyed by exactly the items' keys, once each, and each
      key's total is the sum of its items' amounts. */
  lemma {:induction false} GroupCorrect(items: seq<Item>)
    ensures DistinctBy(Group(items), EntryKey)
    ensures KeySet(Group(items), EntryKey) == KeySet(items, ItemKey)
    ensures forall key :: TotalIn(Group(items), key) == SumFor(items, key)
  {
    if |items| > 0 {
      var init := items[..|items| - 1];
      var last := items[|items| - 1];
      GroupCorrect(init);
      AddItemKeys(Group(init), last);
      AddItemTotals(Group(init), last);
      AddItemDistinct(Group(init), last);
      ItemKeysSnoc(items);
    }
  }

  lemma ItemKeysSnoc(items: seq<Item>)
    requires |items| > 0
    ensures KeySet(items, ItemKey) == KeySet(items[..|items| - 1], ItemKey) + {ItemKey(items[|items| - 1])}
  {
    assert items == items[..|items| - 1] + [items[|items| - 1]];
  }

  /** In a uniquely keyed table the total of an entry's key is the entry's
      own total. */
  lemma {:induction false} TotalOfEntry(groups: seq<Entry>, e: Entry)
    requires DistinctBy(groups, EntryKey) && e in groups
    ensures TotalIn(groups, EntryKey(e)) == e.total
  {
    if groups[0] != e {
      assert e in groups[1..];
      DistinctTail(groups);
      assert EntryKey(e) in KeySet(groups[1..], EntryKey);
      TotalOfEntry(groups[1..], e);
    }
  }

  /** The aggregate as the download returns it, ordered by ingredient name. */
  function ShoppingList(s: Store, user: UserId): (r: seq<Entry>)
    ensures SortedBy(r, EntryNameKey)
    ensures DistinctBy(r, EntryKey)
    ensures KeySet(r, EntryKey) == KeySet(CartItems(s, user), ItemKey)
    ensures forall e :: e in r ==> e.total == SumFor(CartItems(s, user), EntryKey(e))
  {
    var items := CartItems(s, user);
    var groups := Group(items);
    GroupCorrect(items);
    SortByCorrect(groups, EntryNameKey);
    var r := SortBy(groups, EntryNameKey);
    DistinctPermutation(r, groups, EntryKey);
    forall e | e in r
      ensures e.total == SumFor(items, EntryKey(e))
    {
      assert e in multiset(groups);
      TotalOfEntry(groups, e);
    }
    r
  }

  /** Every total is positive when the summed amounts are. */
  lemma {:induction false} SumForPositive(items: seq<Item>, key: (string, string))
    requires forall it :: it in items ==> it.amount >= 1
    ensures key in KeySet(items, ItemKey) ==> SumFor(items, key) >= 1
    ensures SumFor(items, key) >= 0
  {
    if |items| > 0 {
      var init := items[..|items| - 1];
      var last := items[|items| - 1];
      assert forall it :: it in init ==> it in items;
      SumForPositive(init, key);
      assert items == init + [last];
      assert KeySet(items, ItemKey) == KeySet(init, ItemKey) + {ItemKey(last)};
    }
  }

  /** With the schema's constraints, every entry of the list totals at least
      one. */
  lemma ShoppingListPositive(s: Store, user: UserId)
    requires Valid(s)
    ensures forall e :: e in ShoppingList(s, user) ==> e.total >= 1
  {
    var lines := CartLines(s, user);
    var items := CartItems(s, user);
    ItemsOfJoin(s, lines);
    forall it | it in items
      ensures it.amount >= 1
    {
      var i :| 0 <= i < |items| && items[i] == it;
      assert lines[i] in lines;
    }
    forall e | e in ShoppingList(s, user)
      ensures e.total >= 1
    {
      assert EntryKey(e) in KeySet(ShoppingList(s, user), EntryKey);
      SumForPositive(items, EntryKey(e));
    }
  }

  // Rendering.

  const Header: string := "Список покупок\n\n"

  /** One entry as `name (unit) - total`. */
  function Line(e: Entry): string {
    e.name + " (" + e.unit + ") - " + IntToString(e.total)
  }

  function Lines(es: seq<Entry>): (r: seq<string>)
    ensures |r| == |es|
    ensures forall i :: 0 <= i < |es| ==> r[i] == Line(es[i])
  {
    seq(|es|, i requires 0 <= i < |es| => Line(es[i]))
  }

  /** The header followed by the entries' lines joined by newlines. */
  function Render(es: seq<Entry>): (r: string)
    ensures |r| >= |Header| && r[..|Header|] == Header
  {
    Header + Join(Lines(es), '\n')
  }

  /** `download_shopping_cart`: the rendered list of `user`'s cart. */
  function DownloadShoppingCart(s: Store, user: UserId): string {
    Render(ShoppingList(s, user))
  }

  /** An empty cart renders the header alone. */
  lemma EmptyCartIsHeaderOnly(s: Store, user: UserId)
    requires forall p :: p in s.carts ==> p.0 != user
    ensures ShoppingList(s, user) == []
    ensures DownloadShoppingCart(s, user) == Header
  {
    FilterNone(s.amounts, InCartOf(s, user));
  }

  /** Numbers render without a newline. */
  lemma IntToStringOneLine(n: int)
    ensures '\n' !in IntToString(n)
  {
    var d := NatToString(if n < 0 then -n else n);
    assert forall k :: 0 <= k < |d| ==> IsDigit(d[k]);
  }

  /** When no name or unit contains a newline, splitting the body after the
      header at newlines gives back exactly one line per entry. */
  lemma RenderLinesRoundTrip(es: seq<Entry>)
    requires |es| >= 1
    requires forall e :: e in es ==> '\n' !in e.name && '\n' !in e.unit
    ensures Split(Render(es)[|Header|..], '\n') == Lines(es)
  {
    var ls := Lines(es);
    forall k | 0 <= k < |ls|
      ensures '\n' !in ls[k]
    {
      var e := es[k];
      IntToStringOneLine(e.total);
      assert ls[k] == e.name + " (" + e.unit + ") - " + IntToString(e.total);
    }
    SplitJoin(ls, '\n');
    assert Render(es)[|Header|..] == Join(ls, '\n');
  }
}
