/**
 * The ingredient-list check that both revisions of RecipeCreateSerializer
 * run in `validate_ingredients`: an empty list is refused, then the items
 * are scanned in order and the first problem ends the scan. An id already
 * met earlier in the list is a repeat; the newer revision then also
 * refuses an id that names no Ingredient, the older one does not look.
 */
module IngredientScan {
  import opened Collections
  import opened Requests

  /** What the scan finds at position `i`; the repeat test comes first. */
  function ProblemAt(items: seq<Item>, i: nat, checkExists: bool, known: set<int>): Option<Rejection>
    requires i < |items|
  {
    if items[i].id in ItemIds(items[..i]) then Some(RepeatedIngredient(items[i].id))
    else if checkExists && items[i].id !in known then Some(UnknownIngredient(items[i].id))
    else None
  }

  /** The first problem at or after position `i`. */
  function ScanFrom(items: seq<Item>, i: nat, checkExists: bool, known: set<int>): Option<Rejection>
    requires i <= |items|
    decreases |items| - i
  {
    if i == |items| then None
    else if ProblemAt(items, i, checkExists, known).Some? then ProblemAt(items, i, checkExists, known)
    else ScanFrom(items, i + 1, checkExists, known)
  }

  /** The whole check: the empty list, else the first problem in list order. */
  function IngredientsProblem(items: seq<Item>, checkExists: bool, known: set<int>): Option<Rejection>
  {
    if items == [] then Some(EmptyIngredients) else ScanFrom(items, 0, checkExists, known)
  }

  /** The first `j` items hold no repeated id and (when checked) only known ids. */
  predicate CleanPrefix(items: seq<Item>, j: nat, checkExists: bool, known: set<int>)
    requires j <= |items|
  {
    NoDup(ItemIds(items[..j])) && (checkExists ==> forall k :: 0 <= k < j ==> items[k].id in known)
  }

  /** The scan reports the problem of the first position that has one. */
  lemma {:induction false} ScanFromFirst(items: seq<Item>, i: nat, checkExists: bool, known: set<int>)
    requires i <= |items|
    decreases |items| - i
    ensures ScanFrom(items, i, checkExists, known).None? <==>
      forall k :: i <= k < |items| ==> ProblemAt(items, k, checkExists, known).None?
    ensures ScanFrom(items, i, checkExists, known).Some? ==>
      exists j :: i <= j < |items| && ScanFrom(items, i, checkExists, known) == ProblemAt(items, j, checkExists, known)
        && forall k :: i <= k < j ==> ProblemAt(items, k, checkExists, known).None?
  {
    if i < |items| && ProblemAt(items, i, checkExists, known).None? {
      ScanFromFirst(items, i + 1, checkExists, known);
    }
  }

  lemma ItemIdsPrefix(items: seq<Item>, j: nat)
    requires j <= |items|
    ensures ItemIds(items[..j]) == ItemIds(items)[..j]
  {
  }

  /** No position has a problem exactly when the prefix is clean. */
  lemma NoProblemIff(items: seq<Item>, j: nat, checkExists: bool, known: set<int>)
    requires j <= |items|
    ensures (forall k :: 0 <= k < j ==> ProblemAt(items, k, checkExists, known).None?) <==>
      CleanPrefix(items, j, checkExists, known)
  {
    var ids := ItemIds(items[..j]);
    NoDupPrefixes(ids);
    forall k | 0 <= k < j
      ensures ProblemAt(items, k, checkExists, known).None? <==>
        ids[k] !in ids[..k] && (checkExists ==> items[k].id in known)
    {
      ItemIdsPrefix(items, k);
      ItemIdsPrefix(items, j);
      assert ids[k] == items[k].id && ids[..k] == ItemIds(items[..k]);
    }
  }

  /** The check passes exactly for a non-empty list without repeats (and, when checked, of known ids). */
  lemma IngredientsProblemIff(items: seq<Item>, checkExists: bool, known: set<int>)
    ensures IngredientsProblem(items, checkExists, known).None? <==>
      items != [] && NoDup(ItemIds(items)) && (checkExists ==> forall k :: 0 <= k < |items| ==> items[k].id in known)
  {
    if items != [] {
      ScanFromFirst(items, 0, checkExists, known);
      NoProblemIff(items, |items|, checkExists, known);
      assert items[..|items|] == items;
    }
  }

  /**
   * A refusal names the first offending item: a repeat is an id met
   * earlier in the list, an unknown id one not met before and naming no
   * Ingredient, and every item before it passed both tests.
   */
  lemma FirstProblemReported(items: seq<Item>, checkExists: bool, known: set<int>, x: int)
    ensures IngredientsProblem(items, checkExists, known) == Some(RepeatedIngredient(x)) ==>
      exists j :: 0 < j < |items| && items[j].id == x && x in ItemIds(items[..j])
        && CleanPrefix(items, j, checkExists, known)
    ensures IngredientsProblem(items, checkExists, known) == Some(UnknownIngredient(x)) ==>
      checkExists &&
      exists j :: 0 <= j < |items| && items[j].id == x && x !in known
        && x !in ItemIds(items[..j]) && CleanPrefix(items, j, checkExists, known)
  {
    var r := IngredientsProblem(items, checkExists, known);
    if items != [] && r.Some? {
      ScanFromFirst(items, 0, checkExists, known);
      var j :| 0 <= j < |items| && r == ProblemAt(items, j, checkExists, known)
        && forall k :: 0 <= k < j ==> ProblemAt(items, k, checkExists, known).None?;
      NoProblemIff(items, j, checkExists, known);
    }
  }
}
