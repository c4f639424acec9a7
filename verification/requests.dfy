/**
 * What a request brings to the core: the session user, the HTTP method of
 * the relation endpoints, the recipe payload (scalar fields and the
 * `ingredients` list of `{"id", "amount"}` items), the outcome statuses,
 * and the numeric limits configured in the project's constants module.
 */
module Requests {
  import opened Collections
  import opened Text
  import opened UsersModels
  import opened RecipesModels

  /** The session user: anonymous, or a user of the store. */
  datatype Requester = Anonymous | Authenticated(id: UserId)

  /** The two methods the relation endpoints accept. */
  datatype Method = Post | Delete

  /** The status codes the core's write paths answer with. */
  datatype Status = Created201 | NoContent204 | Ok200 | BadRequest400 | NotFound404

  /** Why a relation endpoint answers 400. */
  datatype ViewError = CannotSubscribeToSelf | AlreadySubscribed | AlreadyAdded | NotInList

  /** The answer of a relation endpoint. */
  datatype Reply = Created | Deleted | NotFound | BadRequest(error: ViewError)
  {
    function Status(): Status
    {
      match this
      case Created => Created201
      case Deleted => NoContent204
      case NotFound => NotFound404
      case BadRequest(_) => BadRequest400
    }
  }

  /**
   * MIN_COOKING_TIME, MIN_INGREDIENT_AMOUNT and MAX_INGREDIENT_AMOUNT;
   * their values live in a settings module that is not part of this model,
   * so every operation takes them as a parameter.
   */
  datatype Limits = Limits(minCookingTime: int, minIngredientAmount: int, maxIngredientAmount: int)

  /** Why a recipe payload is refused (every refusal is a 400 answer). */
  datatype Rejection =
    | InvalidFields                  // a scalar field is missing on create or out of range
    | InvalidItems                   // an item failed its own field validation
    | MissingIngredients             // no `ingredients` key
    | EmptyIngredients               // `ingredients` is an empty list
    | RepeatedIngredients            // the list holds some id twice (the set-size test)
    | RepeatedIngredient(id: int)    // the first id already seen, in list order
    | UnknownIngredient(id: int)     // the first id naming no Ingredient, in list order

  /** One entry of the `ingredients` payload. */
  datatype Item = Item(id: int, amount: int)

  /**
   * The writable payload of RecipeCreateSerializer. A key the client left
   * out is None; the image is not modelled.
   */
  datatype RecipeInput = RecipeInput(
    name: Option<string>,
    text: Option<string>,
    cookingTime: Option<int>,
    ingredients: Option<seq<Item>>)

  function ItemIds(items: seq<Item>): (ids: seq<int>)
    ensures |ids| == |items|
    ensures forall i :: 0 <= i < |items| ==> ids[i] == items[i].id
  {
    if items == [] then [] else [items[0].id] + ItemIds(items[1..])
  }

  /** The composition an item list describes: the item's id is the ingredient's id. */
  function Portions(items: seq<Item>): (ps: seq<Portion>)
    ensures |ps| == |items|
    ensures forall i :: 0 <= i < |items| ==> ps[i] == Portion(items[i].id, items[i].amount)
  {
    if items == [] then [] else [Portion(items[0].id, items[0].amount)] + Portions(items[1..])
  }

  lemma {:induction false} IngredientIdsOfPortions(items: seq<Item>)
    ensures IngredientIds(Portions(items)) == ItemIds(items)
  {
    if items != [] {
      IngredientIdsOfPortions(items[1..]);
      assert Portions(items)[1..] == Portions(items[1..]);
    }
  }

  /**
   * The scalar fields as ModelSerializer derives them from the Recipe
   * model: on create all three are required; name and text have no
   * `blank=True`, so a value that is empty once its surrounding
   * whitespace is trimmed is refused; a supplied cooking time must reach
   * MIN_COOKING_TIME.
   */
  predicate FieldsValid(input: RecipeInput, creating: bool, limits: Limits)
  {
    && (creating ==> input.name.Some? && input.text.Some? && input.cookingTime.Some?)
    && (input.name.Some? ==> Strip(input.name.value) != "")
    && (input.text.Some? ==> Strip(input.text.value) != "")
    && (input.cookingTime.Some? ==> input.cookingTime.value >= limits.minCookingTime)
  }

  /**
   * The Recipe row `Recipe.objects.create(author=..., **validated_data)`
   * writes; the serializer's CharFields have trimmed name and text.
   */
  function NewRecipe(author: UserId, input: RecipeInput, now: int): Recipe
    requires input.name.Some? && input.text.Some? && input.cookingTime.Some?
  {
    Recipe(author, Strip(input.name.value), Strip(input.text.value), input.cookingTime.value, now)
  }

  /**
   * `super().update(instance, validated_data)`: every supplied scalar is
   * written (name and text trimmed), the rest kept.
   */
  function ApplyFields(r: Recipe, input: RecipeInput): (u: Recipe)
    ensures u.author == r.author && u.pubDate == r.pubDate
    ensures u.name == (if input.name.Some? then Strip(input.name.value) else r.name)
    ensures u.text == (if input.text.Some? then Strip(input.text.value) else r.text)
    ensures u.cookingTime == (if input.cookingTime.Some? then input.cookingTime.value else r.cookingTime)
  {
    r.(name := if input.name.Some? then Strip(input.name.value) else r.name,
       text := if input.text.Some? then Strip(input.text.value) else r.text,
       cookingTime := if input.cookingTime.Some? then input.cookingTime.value else r.cookingTime)
  }
}
