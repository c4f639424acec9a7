/**
 * `download_shopping_cart`, shared by both revisions: the composition rows
 * of every recipe in the user's cart, grouped by (ingredient name, unit)
 * with the amounts summed, rendered as a header and one text line per
 * group. The query has no `order_by`, so the order of the groups is not
 * promised: the properties below speak of the set of groups and their sums.
 */
module ShoppingList {
  import opened Collections
  import opened Text
  import opened UsersModels
  import opened RecipesModels
  import opened Store

  /** A (name, unit, amount) record: a joined row, or a group with its sum. */
  datatype Entry = Entry(name: string, unit: string, amount: int)

  /** The grouping key (`ingredient__name`, `ingredient__measurement_unit`). */
  datatype Key = Key(name: string, unit: string)

  function KeyOf(e: Entry): Key
  {
    Key(e.name, e.unit)
  }

  /**
   * The join behind `filter(recipe__shopping_carts__user=user)`: each
   * composition row yields its ingredient's name and unit and its amount
   * once per cart row of this user for its recipe.
   */
  function CartEntries(rows: seq<Row>, ingredients: map<IngredientId, Ingredient>, carts: seq<UserRecipe>, user: UserId): seq<Entry>
  {
    if rows == [] then []
    else
      var row := rows[0];
      (if row.ingredient in ingredients
       then Repeat(Entry(ingredients[row.ingredient].name, ingredients[row.ingredient].unit, row.amount),
                   Count(carts, UserRecipe(user, row.recipe)))
       else [])
      + CartEntries(rows[1..], ingredients, carts, user)
  }

  /** Reference selection: every row of a recipe in the user's cart, once. */
  function CartRows(rows: seq<Row>, ingredients: map<IngredientId, Ingredient>, carts: seq<UserRecipe>, user: UserId): seq<Entry>
  {
    if rows == [] then []
    else
      var row := rows[0];
      (if row.ingredient in ingredients && UserRecipe(user, row.recipe) in carts
       then [Entry(ingredients[row.ingredient].name, ingredients[row.ingredient].unit, row.amount)]
       else [])
      + CartRows(rows[1..], ingredients, carts, user)
  }

  /** With at most one cart row per (user, recipe), the join counts each composition row once. */
  lemma {:induction false} JoinCountsOnce(rows: seq<Row>, ingredients: map<IngredientId, Ingredient>, carts: seq<UserRecipe>, user: UserId)
    requires NoDup(carts)
    ensures CartEntries(rows, ingredients, carts, user) == CartRows(rows, ingredients, carts, user)
  {
    if rows != [] {
      JoinCountsOnce(rows[1..], ingredients, carts, user);
      NoDupCount(carts, UserRecipe(user, rows[0].recipe));
    }
  }

  /** Adding one record to the groups: into the group of its key, or as a new group at the end. */
  function Merge(groups: seq<Entry>, e: Entry): seq<Entry>
  {
    if groups == [] then [e]
    else if KeyOf(groups[0]) == KeyOf(e) then [groups[0].(amount := groups[0].amount + e.amount)] + groups[1..]
    else [groups[0]] + Merge(groups[1..], e)
  }

  /** `.values('ingredient__name', 'ingredient__measurement_unit').annotate(amount=Sum('amount'))`. */
  function Group(entries: seq<Entry>): seq<Entry>
  {
    if entries == [] then [] else Merge(Group(entries[1..]), entries[0])
  }

  function Keys(entries: seq<Entry>): (ks: seq<Key>)
    ensures |ks| == |entries| && forall i :: 0 <= i < |entries| ==> ks[i] == KeyOf(entries[i])
  {
    if entries == [] then [] else [KeyOf(entries[0])] + Keys(entries[1..])
  }

  /** The sum of the amounts recorded under key `k`. */
  function Total(entries: seq<Entry>, k: Key): int
  {
    if entries == [] then 0 else (if KeyOf(entries[0]) == k then entries[0].amount else 0) + Total(entries[1..], k)
  }

  /** The sum of all amounts. */
  function SumAmounts(entries: seq<Entry>): int
  {
    if entries == [] then 0 else entries[0].amount + SumAmounts(entries[1..])
  }

  lemma {:induction false} MergeKeys(groups: seq<Entry>, e: Entry)
    ensures Keys(Merge(groups, e)) == if KeyOf(e) in Keys(groups) then Keys(groups) else Keys(groups) + [KeyOf(e)]
  {
    if groups != [] && KeyOf(groups[0]) != KeyOf(e) {
      MergeKeys(groups[1..], e);
      assert Keys(groups)[1..] == Keys(groups[1..]);
      assert Keys(Merge(groups, e))[1..] == Keys(Merge(groups[1..], e));
    }
  }

  lemma {:induction false} MergeTotal(groups: seq<Entry>, e: Entry, k: Key)
    ensures Total(Merge(groups, e), k) == Total(groups, k) + (if KeyOf(e) == k then e.amount else 0)
    ensures SumAmounts(Merge(groups, e)) == SumAmounts(groups) + e.amount
  {
    if groups != [] && KeyOf(groups[0]) != KeyOf(e) {
      MergeTotal(groups[1..], e, k);
    }
  }

  /**
   * Grouping yields one group per distinct key of the input and nothing
   * else; each key's group total is the input's total for that key; no
   * amount is lost or invented.
   */
  lemma {:induction false} GroupSpec(entries: seq<Entry>)
    ensures NoDup(Keys(Group(entries)))
    ensures Elems(Keys(Group(entries))) == Elems(Keys(entries))
    ensures forall k :: Total(Group(entries), k) == Total(entries, k)
    ensures SumAmounts(Group(entries)) == SumAmounts(entries)
  {
    if entries != [] {
      var rest := Group(entries[1..]);
      GroupSpec(entries[1..]);
      MergeKeys(rest, entries[0]);
      NoDupAppend(Keys(rest), KeyOf(entries[0]));
      assert Keys(entries) == [KeyOf(entries[0])] + Keys(entries[1..]);
      assert Elems(Keys(entries)) == Elems(Keys(entries[1..])) + {KeyOf(entries[0])};
      assert Elems(Keys(rest) + [KeyOf(entries[0])]) == Elems(Keys(rest)) + {KeyOf(entries[0])};
      forall k
        ensures Total(Group(entries), k) == Total(entries, k)
      {
        MergeTotal(rest, entries[0], k);
      }
      MergeTotal(rest, entries[0], KeyOf(entries[0]));
    }
  }

  /** In records with distinct keys, a key's total is the amount of its one record. */
  lemma {:induction false} TotalOfDistinctKey(groups: seq<Entry>, i: nat)
    requires NoDup(Keys(groups)) && i < |groups|
    ensures Total(groups, KeyOf(groups[i])) == groups[i].amount
  {
    var k := KeyOf(groups[i]);
    if i == 0 {
      TotalAbsent(groups[1..], k);
      assert Keys(groups)[1..] == Keys(groups[1..]);
    } else {
      assert Keys(groups)[1..] == Keys(groups[1..]);
      TotalOfDistinctKey(groups[1..], i - 1);
      NoDupIndices(Keys(groups), 0, i);
    }
  }

  lemma {:induction false} TotalAbsent(entries: seq<Entry>, k: Key)
    requires k !in Keys(entries)
    ensures Total(entries, k) == 0
  {
    if entries != [] {
      assert Keys(entries)[1..] == Keys(entries[1..]);
      TotalAbsent(entries[1..], k);
    }
  }

  /** The groups `download_shopping_cart` writes out for `user`. */
  function ShoppingGroups(t: Tables, user: UserId): seq<Entry>
  {
    Group(CartEntries(t.rows, t.ingredients, t.carts, user))
  }

  /**
   * In a valid store the shopping list has exactly one group per distinct
   * (name, unit) among the rows of the recipes in the user's cart, and
   * each group's amount is the sum of those rows' amounts, every row
   * counted once.
   */
  lemma ShoppingGroupsSpec(t: Tables, user: UserId)
    requires t.Valid()
    ensures var g := ShoppingGroups(t, user);
      var selected := CartRows(t.rows, t.ingredients, t.carts, user);
      && NoDup(Keys(g))
      && Elems(Keys(g)) == Elems(Keys(selected))
      && (forall i :: 0 <= i < |g| ==> g[i].amount == Total(selected, KeyOf(g[i])))
      && SumAmounts(g) == SumAmounts(selected)
  {
    var g := ShoppingGroups(t, user);
    JoinCountsOnce(t.rows, t.ingredients, t.carts, user);
    GroupSpec(CartEntries(t.rows, t.ingredients, t.carts, user));
    forall i | 0 <= i < |g|
      ensures g[i].amount == Total(CartRows(t.rows, t.ingredients, t.carts, user), KeyOf(g[i]))
    {
      TotalOfDistinctKey(g, i);
    }
  }

  /** A user with nothing in the cart gets no group. */
  lemma {:induction false} EmptyCartNoGroups(rows: seq<Row>, ingredients: map<IngredientId, Ingredient>, carts: seq<UserRecipe>, user: UserId)
    requires forall l :: l in carts ==> l.user != user
    ensures CartEntries(rows, ingredients, carts, user) == []
    ensures Group(CartEntries(rows, ingredients, carts, user)) == []
  {
    if rows != [] {
      EmptyCartNoGroups(rows[1..], ingredients, carts, user);
      assert Count(carts, UserRecipe(user, rows[0].recipe)) == 0;
    }
  }

  // ---- the text ----

  const Title: string := "Shopping List:"

  /** The title followed by an empty line. */
  const Header: string := Title + "\n\n"

  /** The em dash of the newer revision. */
  const EmDash: string := "\U{2014}"

  /** The older revision's literal: the em dash's UTF-8 bytes read as Windows-1252. */
  const MisencodedDash: string := "\U{E2}\U{20AC}\U{201D}"

  /** One line: `f"{name} ({unit}) {dash} {amount}\n"`. */
  function LineText(e: Entry, dash: string): string
  {
    e.name + " (" + e.unit + ") " + dash + " " + IntToString(e.amount) + "\n"
  }

  /** The lines of the groups, in the order they are visited. */
  function LinesText(groups: seq<Entry>, dash: string): string
  {
    if groups == [] then "" else LinesText(groups[..|groups| - 1], dash) + LineText(groups[|groups| - 1], dash)
  }

  lemma LinesTextStep(groups: seq<Entry>, i: nat, dash: string)
    requires i < |groups|
    ensures LinesText(groups[..i + 1], dash) == LinesText(groups[..i], dash) + LineText(groups[i], dash)
  {
    assert groups[..i + 1][..i] == groups[..i];
  }

  /** Appending the next line to a text that ends with the lines so far. */
  lemma AppendLine(head: string, groups: seq<Entry>, i: nat, dash: string)
    requires i < |groups|
    ensures head + LinesText(groups[..i + 1], dash) == (head + LinesText(groups[..i], dash)) + LineText(groups[i], dash)
  {
    LinesTextStep(groups, i, dash);
  }

  /** The loop `shopping_list += ...` over the grouped rows. */
  method RenderShoppingList(groups: seq<Entry>, dash: string) returns (text: string)
    ensures text == Header + LinesText(groups, dash)
  {
    text := Header;
    var i := 0;
    while i < |groups|
      invariant 0 <= i <= |groups|
      invariant text == Header + LinesText(groups[..i], dash)
    {
      AppendLine(Header, groups, i, dash);
      text := text + LineText(groups[i], dash);
      i := i + 1;
    }
    assert groups[..i] == groups;
  }

  predicate NoNewline(s: string)
  {
    '\n' !in s
  }

  lemma IntToStringNoNewline(i: int)
    ensures NoNewline(IntToString(i))
  {
    var s := IntToString(i);
    forall k | 0 <= k < |s|
      ensures s[k] != '\n'
    {
      if i < 0 && k > 0 {
        assert s[k] == NatToString(-i)[k - 1];
      }
    }
  }

  /** The header holds two line breaks. */
  lemma HeaderNewlines()
    ensures Count(Header, '\n') == 2
  {
    var breaks := "\n\n";
    assert breaks[1..] == "\n" && breaks[1..][1..] == [];
    assert Count(breaks, '\n') == 2;
    assert '\n' !in Title;
    CountAbsent(Title, '\n');
    CountAppend(Title, breaks, '\n');
  }

  /** Each rendered group contributes exactly one line break. */
  lemma {:induction false} LinesNewlines(groups: seq<Entry>, dash: string)
    requires NoNewline(dash)
    requires forall i :: 0 <= i < |groups| ==> NoNewline(groups[i].name) && NoNewline(groups[i].unit)
    ensures Count(LinesText(groups, dash), '\n') == |groups|
  {
    if groups != [] {
      var init := groups[..|groups| - 1];
      var e := groups[|groups| - 1];
      LinesNewlines(init, dash);
      IntToStringNoNewline(e.amount);
      LineNewlines(e, dash);
      CountAppend(LinesText(init, dash), LineText(e, dash), '\n');
    }
  }

  /**
   * When no name, unit or dash holds a line break, the text has the two
   * line breaks of the header and one per group: one line per group.
   */
  lemma RenderedLineCount(groups: seq<Entry>, dash: string)
    requires NoNewline(dash)
    requires forall i :: 0 <= i < |groups| ==> NoNewline(groups[i].name) && NoNewline(groups[i].unit)
    ensures Count(Header + LinesText(groups, dash), '\n') == 2 + |groups|
  {
    HeaderNewlines();
    LinesNewlines(groups, dash);
    CountAppend(Header, LinesText(groups, dash), '\n');
  }

  lemma LineNewlines(e: Entry, dash: string)
    requires NoNewline(dash) && NoNewline(e.name) && NoNewline(e.unit) && NoNewline(IntToString(e.amount))
    ensures Count(LineText(e, dash), '\n') == 1
  {
    var body := e.name + " (" + e.unit + ") " + dash + " " + IntToString(e.amount);
    assert LineText(e, dash) == body + "\n";
    CountAppend(body, "\n", '\n');
    assert '\n' !in body;
    CountAbsent(body, '\n');
  }

  lemma {:induction false} CountAbsent(s: string, c: char)
    requires c !in s
    ensures Count(s, c) == 0
  {
  }
}
