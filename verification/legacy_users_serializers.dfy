/**
 * backend/foodgram/users/serializers.py: the data-URL header split of
 * `Base64ImageField.to_internal_value`, `is_subscribed`,
 * `get_recipes_count` and the `recipes_limit` truncation of `get_recipes`.
 * The base64 decoding itself and the image checks of the parent field are
 * not modelled: a decoded value keeps the payload text.
 */
module LegacyUsersSerializers {
  import opened Collections
  import opened Text
  import opened UsersModels
  import opened RecipesModels
  import opened Store

  /** What the field receives: a string, or anything else (an uploaded file, a number, ...). */
  datatype ImageData = Text(s: string) | Other

  /** What is handed to `ImageField.to_internal_value`. */
  datatype ImageValue =
    | PassThrough(data: ImageData)
    | Decoded(payload: string, filename: string)

  /** The tuple unpacking `format, imgstr = ...` raises ValueError unless there are exactly two pieces. */
  datatype ImageResult = Value(value: ImageValue) | Malformed

  const DataImage: string := "data:image"
  const Base64Marker: string := ";base64,"

  /**
   * `to_internal_value`: a string starting with "data:image" is split at
   * ";base64,"; the file extension is what follows the last "/" of the
   * header, and the file is named "temp." + extension.
   */
  function ToInternalValue(data: ImageData): (r: ImageResult)
    ensures !(data.Text? && StartsWith(data.s, DataImage)) ==> r == Value(PassThrough(data))
    ensures data.Text? && StartsWith(data.s, DataImage) ==>
      (r.Malformed? <==> |Split(data.s, Base64Marker)| != 2)
    ensures r.Value? && r.value.Decoded? ==>
      && data.Text?
      && StartsWith(data.s, DataImage)
      && (exists header :: data.s == header + Base64Marker + r.value.payload)
      && (forall k :: !OccursAt(r.value.payload, Base64Marker, k))
  {
    if data.Text? && StartsWith(data.s, DataImage) then
      var parts := Split(data.s, Base64Marker);
      if |parts| != 2 then Malformed
      else
        JoinSplit(data.s, Base64Marker);
        SplitLastPiece(data.s, Base64Marker);
        assert data.s == parts[0] + Base64Marker + parts[1];
        var ext := Last(Split(parts[0], "/"));
        Value(Decoded(parts[1], "temp." + ext))
    else
      Value(PassThrough(data))
  }

  /** The extension holds no "/" and ends the header. */
  lemma ExtensionIsLastPathPiece(data: ImageData)
    requires data.Text? && StartsWith(data.s, DataImage) && |Split(data.s, Base64Marker)| == 2
    ensures var header := Split(data.s, Base64Marker)[0];
      var ext := Last(Split(header, "/"));
      && ToInternalValue(data) == Value(Decoded(Split(data.s, Base64Marker)[1], "temp." + ext))
      && '/' !in ext
      && |ext| <= |header| && header[|header| - |ext|..] == ext
  {
    var header := Split(data.s, Base64Marker)[0];
    SplitLastPiece(header, "/");
    var ext := Last(Split(header, "/"));
    forall i | 0 <= i < |ext|
      ensures ext[i] != '/'
    {
      assert !OccursAt(ext, "/", i);
      assert ext[i..i + 1] == [ext[i]];
    }
  }

  /**
   * Round trip: the data URL "data:image/<ext>;base64,<payload>" yields
   * the payload and the file "temp.<ext>", for an extension without "/"
   * or ";" and a payload in the base64 alphabet.
   */
  lemma DataUrlRoundTrip(ext: string, payload: string)
    requires '/' !in ext && ';' !in ext
    requires forall i :: 0 <= i < |payload| ==> IsBase64Char(payload[i])
    ensures ToInternalValue(Text(DataImage + "/" + ext + Base64Marker + payload))
         == Value(Decoded(payload, "temp." + ext))
  {
    var header := DataImage + "/" + ext;
    var s := header + Base64Marker + payload;
    assert s[..|DataImage|] == DataImage;
    assert ';' !in DataImage;
    assert ';' !in header;
    assert ';' !in payload;
    SplitTwo(header, Base64Marker, payload);
    assert '/' !in DataImage;
    SplitTwo(DataImage, "/", ext);
  }

  predicate IsBase64Char(c: char)
  {
    'A' <= c <= 'Z' || 'a' <= c <= 'z' || '0' <= c <= '9' || c == '+' || c == '/' || c == '='
  }

  /** A string with two ";base64," markers is refused by the unpacking (ValueError). */
  lemma TwoMarkersMalformed()
    ensures ToInternalValue(Text(DataImage + "/png" + Base64Marker + "QQ" + Base64Marker)) == Malformed
  {
    var s := DataImage + "/png" + Base64Marker + "QQ" + Base64Marker;
    var head := DataImage + "/png";
    assert s == head + Base64Marker + ("QQ" + Base64Marker);
    assert s[..|DataImage|] == DataImage;
    assert ';' !in head;
    FindFirst(s, Base64Marker, 0, |head|);
    var rest := "QQ" + Base64Marker;
    assert s[|head| + |Base64Marker|..] == rest;
    assert rest == "QQ" + Base64Marker + "";
    assert ';' !in "QQ" && ';' !in "";
    SplitTwo("QQ", Base64Marker, "");
  }

  /** `get_recipes_count`: `obj.recipes.count()`. */
  function RecipesCount(t: Tables, author: UserId): nat
  {
    |t.AuthoredBy(author)|
  }

  /** Creating a recipe adds one to its author's count and to nobody else's. */
  lemma RecipesCountAfterInsert(t: Tables, recipe: Recipe, user: UserId)
    requires t.Valid()
    ensures RecipesCount(t.InsertRecipe(recipe), user) == RecipesCount(t, user) + (if user == recipe.author then 1 else 0)
  {
    var u := t.InsertRecipe(recipe);
    assert t.nextRecipeId !in t.recipes;
    if user == recipe.author {
      assert u.AuthoredBy(user) == t.AuthoredBy(user) + {t.nextRecipeId};
    } else {
      assert u.AuthoredBy(user) == t.AuthoredBy(user);
    }
  }

  /** Deleting a recipe takes one from its author's count and from nobody else's. */
  lemma RecipesCountAfterDelete(t: Tables, id: RecipeId, user: UserId)
    requires id in t.recipes
    ensures RecipesCount(t.DeleteRecipe(id), user) == RecipesCount(t, user) - (if user == t.recipes[id].author then 1 else 0)
  {
    var u := t.DeleteRecipe(id);
    if user == t.recipes[id].author {
      assert u.AuthoredBy(user) == t.AuthoredBy(user) - {id};
    } else {
      assert u.AuthoredBy(user) == t.AuthoredBy(user);
    }
  }

  /**
   * `get_recipes`: with a non-empty `recipes_limit` that `int()` accepts,
   * the first `int(limit)` recipes; otherwise all of them. A negative
   * limit makes the queryset slice raise ValueError, which is caught, so
   * all recipes are returned.
   */
  function GetRecipes(recipes: seq<RecipeId>, limit: Option<string>): (r: seq<RecipeId>)
    ensures r <= recipes
    ensures limit.None? || limit.value == "" ==> r == recipes
    ensures limit.Some? && ParseInt(limit.value).None? ==> r == recipes
    ensures limit.Some? && ParseInt(limit.value).Some? && ParseInt(limit.value).value < 0 ==> r == recipes
    ensures limit.Some? && ParseInt(limit.value).Some? && ParseInt(limit.value).value >= 0 ==>
      |r| == if ParseInt(limit.value).value < |recipes| then ParseInt(limit.value).value else |recipes|
  {
    if limit.Some? && limit.value != "" then
      match ParseInt(limit.value)
      case None => recipes
      case Some(n) =>
        if n < 0 then recipes
        else if n < |recipes| then recipes[..n]
        else recipes
    else
      recipes
  }

  /**
   * A negative limit is ignored however it is written around the number:
   * with any whitespace on either side, every recipe is returned.
   */
  lemma NegativeLimitIgnored(recipes: seq<RecipeId>, w1: string, n: int, w2: string)
    requires n < 0 && AllSpace(w1) && AllSpace(w2)
    ensures GetRecipes(recipes, Some(w1 + IntToString(n) + w2)) == recipes
  {
    ParseIntIgnoresSurroundingSpace(w1, n, w2);
  }

  /** A limit written as a number `n` keeps exactly the first `n` recipes. */
  lemma GetRecipesOfNumber(recipes: seq<RecipeId>, n: nat)
    requires n <= |recipes|
    ensures GetRecipes(recipes, Some(NatToString(n))) == recipes[..n]
  {
    ParseIntOfIntToString(n);
  }
}
