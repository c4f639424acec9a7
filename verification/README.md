# foodgram core in Dafny

A model of the bookkeeping at the heart of the foodgram recipe service (a
Django/DRF backend), in its two revisions: the newer
`backend/{api,recipes,users}` and the older `backend/foodgram/{recipes,users}`.

The database is a class `Store.Database` whose fields are the tables:
- users, ingredients and recipes, as maps keyed by id;
- composition rows (IngredientInRecipe), favorites, cart rows and subscriptions, as sequences.

`State()` packs the tables into the value `Store.Tables`, whose `Valid()` holds:
- every unique constraint of the model files (email, username, (name, unit), (recipe, ingredient), (user, recipe), (user, author));
- every foreign key pointing at an existing row.

Every write the core performs is a pure function on `Tables`: insert, bulk insert, clear, cascade delete. The lemmas about the model are proved against these functions. The view and serializer methods change the `Database` fields in place and ensure that the new `State()` is that function applied to the old one.

The three pieces modelled:

1. **Recipe composition.** Each revision has its own validation, create and update, kept as separate variants:
   - `ApiSerializers`: per-item existence and amount bounds, then missing or empty, then repeats by the length-of-set test. Update always replaces the composition.
   - `RecipesSerializers`: an in-order scan that checks repeats and then existence. Update must carry the list.
   - `LegacyRecipesSerializers`: the scan without the existence test. `get_object_or_404` runs while the rows are built. Update may leave the list out.
2. **Relation registry.** Add, remove and subscribe are specified by the functions in `RelationEndpoints`, which take as a parameter the answer for removing an absent pair. The per-revision methods in `ApiViews`, `LegacyRecipesViews` and `LegacyUsersViews` pass their own answer (400 or 404). The read flags are in `ReadFlags`; the list filters are in `RecipesFilters`.
3. **Shopping-list aggregation.** `ShoppingList` does four things:
   - joins composition rows with the user's cart rows;
   - groups the rows by (name, unit) and sums the amounts;
   - renders the header and one line per group in a loop;
   - proves that the groups are exactly the distinct keys, that each sum is the total of that key's rows, and that each row is counted once.

Inputs that come from outside the core are parameters:
- the clock (`now`, the publication time);
- the configured limits MIN_COOKING_TIME, MIN_INGREDIENT_AMOUNT and MAX_INGREDIENT_AMOUNT (`Requests.Limits`), whose settings module is not part of this model;
- the requesting user.

## Model

| member | source | states |
|---|---|---|
| RecipesModels.RowsSurviving | backend/recipes/models.py:81-91 | a composition row survives a cascade exactly when neither its recipe nor its ingredient was deleted |
| RecipesModels.RowsSurvivingUnique | backend/recipes/models.py:99-104 | deleting recipes or ingredients keeps at most one row per (recipe, ingredient) |
| RecipesModels.LinksSurviving | backend/recipes/models.py:114-123 | a favorite or cart row survives exactly when neither its user nor its recipe was deleted |
| RecipesModels.LinksSurvivingUnique | backend/recipes/models.py:138-143 | the cascade keeps at most one favorite or cart row per (user, recipe) |
| RecipesModels.NewRows | backend/api/serializers.py:142-149 | bulk_create writes one row per portion, in order, carrying its ingredient and amount |
| RecipesModels.NewRowsUnique | backend/recipes/models.py:99-104 | the rows of a new composition meet unique_ingredient_in_recipe exactly when no ingredient id repeats |
| RecipesModels.CompositionOfNewRows | backend/api/serializers.py:142-149 | the rows written for a recipe make up exactly the submitted composition and belong to no other recipe |
| RecipesModels.CompositionAfterClear | backend/api/serializers.py:160 | `ingredients.clear()` empties this recipe's composition and leaves every other recipe's as it was |
| RecipesModels.OrderNewestFirst | backend/recipes/models.py:71 | the recipe listing is a permutation of the table with publication dates non-increasing |
| RecipesModels.OrderByIngredientName | backend/recipes/models.py:29 | the ingredient listing is a permutation of the table sorted by name |
| RecipesModels.OrderRowsByIngredientName | backend/recipes/models.py:98 | a recipe's rows, amounts included, are listed as a permutation of themselves sorted by the name of their ingredient |
| Store.Tables.DeleteRecipe | backend/recipes/models.py:81-123 | deleting a recipe removes exactly its composition rows and the favorite and cart rows naming it |
| Store.Tables.DeleteIngredient | backend/recipes/models.py:87-91 | deleting an ingredient removes exactly the composition rows using it |
| Store.Tables.DeleteUser | backend/recipes/models.py:39-44 | deleting a user removes exactly the following, and nothing else: their recipes and everything hanging off those, their favorite and cart rows, and every subscription they are either end of |
| Store.EmptyValid | backend/recipes/models.py:22-28 | the empty store meets every constraint |
| Store.DeleteRecipeValid | backend/recipes/models.py:81-86 | a recipe deletion keeps every unique constraint and foreign key |
| Store.DeleteIngredientValid | backend/recipes/models.py:87-91 | an ingredient deletion keeps every unique constraint and foreign key |
| Store.DeleteUserValid | backend/users/models.py:49-60 | a user deletion keeps every constraint and leaves none of that user's recipes |
| Store.ModelAllowsSelfSubscription | backend/users/models.py:62-68 | a valid store may hold a self-subscription: the table has no user ≠ author constraint |
| Store.InsertRecipeValid | backend/recipes/models.py:39-44 | a recipe by an existing author gets a fresh id, keeps the store valid and starts with an empty composition |
| Store.CreateRecipeValid | backend/api/serializers.py:151-156 | a recipe plus rows of distinct existing ingredients keeps the store valid; the new recipe's composition is the submitted list, and other compositions are unchanged |
| Store.ReplaceCompositionValid | backend/api/serializers.py:158-162 | clearing and re-inserting distinct existing ingredients keeps the store valid; the recipe's composition is the new list, and other compositions are unchanged |
| Store.ReplaceOverwrites | backend/api/serializers.py:160-161 | two replacements in a row leave the rows the second one alone would leave |
| Store.AddLinkValid | backend/recipes/models.py:138-143 | inserting an absent pair keeps the store valid, adds exactly that pair and leaves the other relation alone |
| Store.RemoveLinkValid | backend/recipes/models.py:155-160 | deleting a pair keeps the store valid, removes exactly that pair and leaves the other relation alone |
| Store.AddRemoveLink | backend/api/views.py:124 | inserting an absent pair and deleting it gives back the store |
| Store.AddSubscriptionValid | backend/users/models.py:62-68 | inserting an absent subscription between existing users keeps the store valid and adds exactly it |
| Store.RemoveSubscriptionValid | backend/users/models.py:48-68 | deleting a subscription keeps the store valid and removes exactly it |
| Store.Database.constructor | backend/recipes/models.py:11-31 | a new database holds the empty, valid store |
| UsersModels.SubscriptionsSurviving | backend/users/models.py:49-60 | a subscription survives exactly when neither its subscriber nor its author was deleted, in both revisions (also backend/foodgram/users/models.py:40-51) |
| UsersModels.SubscriptionsSurvivingUnique | backend/users/models.py:62-68 | the cascade keeps at most one subscription per (user, author), as unique_subscription demands in both revisions |
| UsersModels.OrderByUsername | backend/users/models.py:40 | the user listing is a permutation of the table sorted by username |
| LegacyUsersModels.TrailingNewlineAccepted | backend/foodgram/users/models.py:18 | the pattern as written accepts "a\n", which the full-match pattern refuses |
| LegacyUsersModels.AsWrittenIsCorrectedPlusNewline | backend/foodgram/users/models.py:18 | the pattern as written accepts exactly two kinds of name: valid names, and valid names followed by one line break |
| LegacyUsersModels.CorrectedDropsOnlyNewlines | backend/foodgram/users/models.py:17-18 | the full-match pattern accepts exactly the names the written one accepts that hold no line break |
| LegacyUsersModels.OrderById | backend/foodgram/users/models.py:31 | the older user listing is a permutation of the table sorted by id |
| LegacyUsersModels.OrderByIdStrict | backend/foodgram/users/models.py:31 | with distinct primary keys, the listing's ids strictly increase |
| Requests.ApplyFields | backend/api/serializers.py:162 | an update writes each supplied scalar (name and text trimmed of surrounding whitespace), keeps the rest, and never changes author or publication time |
| IngredientScan.IngredientsProblemIff | backend/recipes/serializers.py:98-115 | the list check passes exactly for a non-empty list with no repeated id and, when existence is checked, only known ids |
| IngredientScan.FirstProblemReported | backend/recipes/serializers.py:102-112 | a reported repeat or unknown id is at the first faulty position, and every item before it is clean |
| ApiSerializers.Validate | backend/api/serializers.py:126-140 | a payload is accepted exactly when all of these hold: the three scalars are present on create; a supplied name or text is not blank once trimmed; a supplied cooking time reaches the minimum; the list is present and non-empty; every item exists and is within [min, max]; no id repeats. A repeat is reported only for a list that has one |
| ApiSerializers.AcceptedItems | backend/api/serializers.py:53-64 | an accepted list names distinct existing ingredients with amounts within the bounds |
| ApiSerializers.Create | backend/api/serializers.py:151-156 | create writes the recipe under the next id, then its rows |
| ApiSerializers.CreateIngredients | backend/api/serializers.py:142-149 | create_ingredients appends one row per item |
| ApiSerializers.Update | backend/api/serializers.py:158-162 | update clears the rows, writes the new list, then the supplied scalars |
| ApiSerializers.CreateEffect | backend/api/serializers.py:151-156 | after create, the following hold: the store is valid; the new recipe gets a fresh id and is the requester's, with the submitted fields (name and text trimmed and not blank, cooking time at least the minimum) and the creation time; its composition is exactly the list; users, ingredients, every other recipe, their compositions and all relation rows are unchanged; stored amounts stay within bounds |
| ApiSerializers.UpdateEffect | backend/api/serializers.py:158-162 | after update, the following hold: the store is valid; the composition is exactly the new list with no residue; the recipe row is the old one with the supplied scalars written, so author and publication time are kept; a non-blank name and text and a cooking time of at least the minimum stay so; other recipes and the relation rows are untouched |
| ApiSerializers.UpdateTwice | backend/api/serializers.py:158-162 | the last update alone decides the composition |
| ApiSerializers.GetRecipes | backend/api/serializers.py:179-189 | the result is always a prefix of the author's recipes. It is all of them without a request or a non-empty limit, or when the limit does not parse. It is the first min(n, len) when the limit parses to n ≥ 0, and all of them when it parses to a negative number |
| Text.ParseIntOfIntToString | backend/api/serializers.py:184 | `int(str(i)) == i` for every integer, so a limit written out as a number is read back as that number |
| Text.ParseIntIgnoresSurroundingSpace | backend/api/serializers.py:184 | `int()` reads any integer, signed or not, surrounded by any ASCII whitespace as that integer |
| ApiSerializers.GetRecipesOfNumber | backend/api/serializers.py:181-184 | a limit written as the number n returns exactly the first n recipes |
| RecipesSerializers.ValidateIngredients | backend/recipes/serializers.py:98-115 | the loop reports the empty list, else the first repeated id, else the first unknown id, in list order |
| RecipesSerializers.Validate | backend/recipes/serializers.py:87-96 | a payload is accepted exactly when all of these hold: the scalars are present on create; a supplied name or text is not blank once trimmed; a supplied cooking time reaches the minimum; the list is present and non-empty; each amount is ≥ 1; ids exist and do not repeat |
| RecipesSerializers.AcceptedItems | backend/recipes/serializers.py:28-34 | an accepted list names distinct existing ingredients with amounts ≥ 1 |
| RecipesSerializers.CreateIngredients | backend/recipes/serializers.py:117-125 | one row per item, by id and amount |
| RecipesSerializers.Create | backend/recipes/serializers.py:127-133 | create writes the recipe authored by the requester, then its rows |
| RecipesSerializers.Update | backend/recipes/serializers.py:135-142 | update writes the scalars, then replaces the rows only for a non-empty list |
| RecipesSerializers.CreateEffect | backend/recipes/serializers.py:127-133 | after create the store is valid, the recipe is the requester's and its composition is exactly the list |
| RecipesSerializers.ValidatedUpdateReplaces | backend/recipes/serializers.py:135-142 | a validated update always carries a list, so the composition becomes exactly that list |
| RecipesSerializers.UpdateWithoutList | backend/recipes/serializers.py:139 | without a non-empty list only the scalars change |
| RecipesSerializers.ExistenceCheckNeeded | backend/recipes/serializers.py:109-112 | an unknown id is refused by the existence test and would pass without it |
| LegacyRecipesSerializers.ValidateIngredients | backend/foodgram/recipes/serializers.py:75-83 | the loop reports the empty list, else the first repeated id; ids are never looked up |
| LegacyRecipesSerializers.Validate | backend/foodgram/recipes/serializers.py:23-83 | a payload is accepted exactly when all of these hold: the scalars are present on create; a supplied name or text is not blank once trimmed; a supplied cooking time reaches the minimum; the list is present, or the call is an update; a present list is non-empty, has amounts ≥ 1 and has no repeat |
| LegacyRecipesSerializers.AcceptedItems | backend/foodgram/recipes/serializers.py:75-83 | an accepted list has distinct ids and amounts ≥ 1 |
| LegacyRecipesSerializers.CreateIngredients | backend/foodgram/recipes/serializers.py:85-92 | it reports success exactly when every id exists, and then writes one row per item; one unknown id aborts the bulk insert with nothing written |
| LegacyRecipesSerializers.Create | backend/foodgram/recipes/serializers.py:94-99 | the recipe row is written first; the answer is 404 exactly when some id is unknown |
| LegacyRecipesSerializers.Update | backend/foodgram/recipes/serializers.py:101-107 | scalars first, then for a non-empty list the rows are cleared and rebuilt; 404 exactly when some id is unknown |
| LegacyRecipesSerializers.CreateEffect | backend/foodgram/recipes/serializers.py:94-99 | with known ids, create keeps the store valid and the composition is exactly the list |
| LegacyRecipesSerializers.UpdateWithoutList | backend/foodgram/recipes/serializers.py:101-104 | an absent or empty list changes only the scalars |
| LegacyRecipesSerializers.UpdateWithList | backend/foodgram/recipes/serializers.py:104-106 | a non-empty list of known ids replaces the composition exactly; other recipes are untouched |
| LegacyRecipesSerializers.CreateUnknownIngredientLeavesRecipe | backend/foodgram/recipes/serializers.py:94-99 | a validated create with an unknown id leaves a new recipe with no ingredients |
| LegacyRecipesSerializers.CreateUnknownIngredientExample | backend/foodgram/recipes/serializers.py:97-98 | a concrete payload passes validation, answers 404 and still adds recipe 0 |
| LegacyRecipesSerializers.UpdateUnknownIngredientEmptiesRecipe | backend/foodgram/recipes/serializers.py:104-106 | an update with an unknown id has already deleted the recipe's composition |
| LegacyRecipesSerializers.CheckedCreateAtomic | backend/foodgram/recipes/serializers.py:85-99 | resolving ids first: a 404 leaves the store unchanged, and a success is valid with the submitted composition |
| LegacyRecipesSerializers.CheckedUpdateAtomic | backend/foodgram/recipes/serializers.py:101-107 | resolving ids first: a 404 leaves the store unchanged, and a success is valid with the new composition |
| ReadFlags.RelatedFlag | backend/api/serializers.py:95-106 | is_favorited / is_in_shopping_cart are false when anonymous and otherwise true exactly when one row holds the pair; the older getters (backend/foodgram/recipes/serializers.py:54-64) are the same |
| ReadFlags.SubscribedFlag | backend/api/serializers.py:20-25 | is_subscribed is false when anonymous and otherwise true exactly when one subscription row holds the pair, as in the older revision (backend/foodgram/users/serializers.py:28-32) |
| RelationEndpoints.AddTo | backend/api/views.py:119-126 | add_to (the same code as backend/foodgram/recipes/views.py:42-48) leaves the store and gives the answer that AddToResult describes, whose outcomes AddToOutcome states |
| RelationEndpoints.AddToOutcome | backend/api/views.py:119-126 | 404 exactly for a missing recipe; 400 exactly when the flag was set; otherwise 201. Only 201 changes the store, inserting exactly the pair and keeping the store valid |
| RelationEndpoints.AddToTwice | backend/api/views.py:121-123 | adding the same pair again answers 400 and changes nothing |
| RelationEndpoints.DeleteFromOutcome | backend/api/views.py:128-137 | 404 for a missing recipe; the absent-pair answer exactly when the flag was unset; otherwise 204, which deletes exactly the pair |
| RelationEndpoints.AddThenDelete | backend/api/views.py:119-137 | add (201) then remove (204) gives back the store |
| RelationEndpoints.SubscribeOutcome | backend/api/views.py:63-90 | covers the following: the author 404 check comes first; self-subscription is refused before the duplicate check; a duplicate POST gets 400 (AlreadySubscribed) and changes nothing; a DELETE of a missing row gets the absent-pair answer (400 in this revision) and changes nothing; 201/204 insert or delete exactly the one row; the store stays valid; a store with no self-subscription gains none; favorites, carts and recipes are untouched; this holds for the older subscribe (backend/foodgram/users/views.py:41-58) too, with 404 as the absent-pair answer |
| RelationEndpoints.SubscribeThenUnsubscribe | backend/api/views.py:77-90 | subscribing (201) then unsubscribing (204) gives back the store |
| ApiViews.DeleteFrom | backend/api/views.py:128-137 | delete_from computes DeleteFromResult with 400 for an absent pair |
| ApiViews.Favorite | backend/api/views.py:139-144 | POST is add_to, DELETE is delete_from, on favorites |
| ApiViews.ShoppingCart | backend/api/views.py:146-151 | POST is add_to, DELETE is delete_from, on cart rows |
| ApiViews.Subscribe | backend/api/views.py:63-90 | subscribe computes SubscribeResult with 400 for a missing row |
| ApiViews.DownloadShoppingCart | backend/api/views.py:153-167 | the text is the header plus one em-dash line per group of the user's cart rows |
| LegacyRecipesViews.DeleteFrom | backend/foodgram/recipes/views.py:50-53 | delete_from computes DeleteFromResult with 404 for an absent pair |
| LegacyRecipesViews.RemovalOutcome | backend/foodgram/recipes/views.py:50-53 | removal answers only 404 or 204: 404 exactly for a missing recipe or pair and then no change; 204 deletes exactly the pair |
| LegacyRecipesViews.Favorite | backend/foodgram/recipes/views.py:55-59 | POST is add_to, anything else is delete_from, on favorites |
| LegacyRecipesViews.ShoppingCart | backend/foodgram/recipes/views.py:61-65 | POST is add_to, anything else is delete_from, on cart rows |
| LegacyRecipesViews.DownloadShoppingCart | backend/foodgram/recipes/views.py:67-77 | the same groups, each line using the three-character "â€”" separator |
| LegacyRecipesViews.RevisionsDifferInDashOnly | backend/foodgram/recipes/views.py:77 | for the same groups, the older list is exactly two characters longer per line, because its separator has three characters where the newer one has one |
| LegacyUsersViews.Subscribe | backend/foodgram/users/views.py:41-58 | subscribe computes SubscribeResult with 404 for a missing row |
| ShoppingList.JoinCountsOnce | backend/api/views.py:155-156 | with unique cart pairs, the join yields every composition row of a carted recipe exactly once |
| ShoppingList.GroupSpec | backend/api/views.py:157-159 | grouping yields one group per distinct (name, unit) and no other; each group's amount is that key's total; the grand total is conserved |
| ShoppingList.ShoppingGroupsSpec | backend/api/views.py:155-159 | in a valid store, the list holds exactly one group per distinct (name, unit) among the user's carted recipes' rows, each summing those rows once |
| ShoppingList.EmptyCartNoGroups | backend/api/views.py:155-161 | a user with an empty cart gets no group, so the text is the header alone |
| ShoppingList.RenderShoppingList | backend/api/views.py:161-167 | the `+=` loop yields the header followed by one line per group, in order |
| ShoppingList.RenderedLineCount | backend/api/views.py:161-167 | the text holds 2 + (number of groups) line breaks: one line per group |
| LegacyUsersSerializers.ToInternalValue | backend/foodgram/users/serializers.py:11-16 | covers three cases. Non-strings, and strings not starting with "data:image", pass through unchanged. Otherwise the unpacking fails exactly when the split does not give two pieces. A decoded value's payload follows the header and ";base64," and holds no further marker |
| LegacyUsersSerializers.ExtensionIsLastPathPiece | backend/foodgram/users/serializers.py:14-15 | the file is "temp." + the header's text after its last "/", which holds no "/" |
| LegacyUsersSerializers.DataUrlRoundTrip | backend/foodgram/users/serializers.py:12-15 | "data:image/<ext>;base64,<payload>" gives back the payload and "temp.<ext>" |
| LegacyUsersSerializers.TwoMarkersMalformed | backend/foodgram/users/serializers.py:13 | two ";base64," markers make the unpacking fail |
| LegacyUsersSerializers.RecipesCountAfterInsert | backend/foodgram/users/serializers.py:48-49 | recipes_count goes up by one for the new recipe's author only |
| LegacyUsersSerializers.RecipesCountAfterDelete | backend/foodgram/users/serializers.py:48-49 | recipes_count goes down by one for the deleted recipe's author only |
| LegacyUsersSerializers.GetRecipes | backend/foodgram/users/serializers.py:51-63 | the result is always a prefix. It is everything for an absent, empty or non-numeric limit and for one `int()` reads as negative, and min(n, len) recipes for n ≥ 0 |
| LegacyUsersSerializers.NegativeLimitIgnored | backend/foodgram/users/serializers.py:58-62 | any negative integer, with any whitespace around it, as the limit returns every recipe (the general case, every limit `int()` reads as negative, is an ensures of GetRecipes) |
| LegacyUsersSerializers.GetRecipesOfNumber | backend/foodgram/users/serializers.py:58-62 | a limit written as the number n returns exactly the first n recipes |
| RecipesFilters.NameStartsWith | backend/recipes/filters.py:10 | keeps exactly the ingredients whose name starts with the prefix, letter case ignored |
| RecipesFilters.IngredientFilter | backend/recipes/filters.py:9-14 | the value is trimmed of surrounding whitespace; no value, or one blank once trimmed, keeps all; otherwise the filter keeps exactly the ingredients whose name starts with the trimmed value, case ignored |
| RecipesFilters.IngredientFilterIgnoresCase | backend/recipes/filters.py:10 | a prefix typed in capitals finds the same ingredients |
| RecipesFilters.JoinRelated | backend/recipes/filters.py:29 | the join keeps exactly the recipes with a row for the user |
| RecipesFilters.JoinKeepsEachOnce | backend/recipes/filters.py:29 | with unique pairs, the join keeps each selected recipe once, in queryset order |
| RecipesFilters.FilterByRelation | backend/recipes/filters.py:26-36 | the result is always a subset of the input. A true value from a signed-in user keeps exactly the flagged recipes. Otherwise the input is returned unchanged |
| RecipesFilters.FilterByRelationInValidStore | backend/recipes/filters.py:26-36 | in a valid store the filter is the plain in-order selection of related recipes |
| RecipesFilters.AsWrittenFailsOnAnyValue | backend/recipes/filters.py:18-36 | as declared, the relation filters fail with TypeError for every boolean value, false included; only an absent or non-boolean value returns the queryset |
| RecipesFilters.DispatchCorrected | backend/recipes/filters.py:26-36 | with the field name accepted: no value or a false one keeps the queryset, as does an anonymous requester; true from a signed-in user keeps exactly the related recipes |
| RecipesFilters.CorrectedFilterAnswers | backend/recipes/filters.py:26-36 | `?is_favorited=1` from a signed-in user fails as written and, corrected, gives exactly the related recipes in order |
| RecipesFilters.KeepRelatedIdempotent | backend/recipes/filters.py:26-30 | applying the selection twice equals applying it once |
| RecipesFilters.FilterAuthor | backend/recipes/filters.py:24 | no value keeps all; an id naming no user is refused (a 400 from the invalid filter set); otherwise the filter keeps exactly that user's recipes |

## Left out

- HTTP plumbing is not modelled: response bodies, content type, the download's file name, authentication and permission classes (`IsAuthenticated`, `IsAuthorOrReadOnly`), pagination, routing and admin registration. The relation endpoints answer with a `Reply` value.
- `get_link`, the avatar PUT/DELETE action and the `subscriptions` listing action are outside the core.
- Image handling is not modelled: `validate_image`, `base64.b64decode`, `ContentFile` and the ImageField checks. A decoded data URL keeps its payload text and file name only.
- The `load_ingredients` management command (file and JSON I/O) is not part of this model. Its conflict-ignoring bulk insert can only produce what the (name, unit) uniqueness invariant already allows.
- `__str__` methods are not modelled.
- The constants module behind MIN_AMOUNT, MIN_COOKING_TIME, MIN_INGREDIENT_AMOUNT, MAX_INGREDIENT_AMOUNT, USERNAME_REGEX_PATTERN and the maximum lengths is not part of this model. The numeric limits are parameters. The newer username pattern is not modelled.
- Field widths are not modelled: PositiveSmallIntegerField's 0..32767 range, CharField lengths and the 254-character email. Integers are unbounded. The model-level MinValueValidator on amounts is not a store invariant, because `bulk_create` does not run model validators. The amount bounds are proved preserved by the serializers instead.
- Transactions, concurrent requests and database unique-index errors are not modelled. Every request runs alone, and add/subscribe are check-then-insert.
- Text handling is simplified. `\w` in the username pattern is taken as ASCII letters, digits and underscore; Python's default is Unicode. `istartswith` folds ASCII letters only. `int()` and the serializers' and filters' trimming remove ASCII whitespace only (tab to carriage return, 0x1C-0x1F and the space), not Unicode spaces such as U+00A0. `int()` reads only the ASCII digits '0' to '9': Python also reads other Unicode decimal digits, so a limit of "３" keeps three recipes in the source and all of them in the model. Underscores in numerals are not accepted.
- Database collation is not modelled: names are ordered by code point.
- ApiViews.DownloadShoppingCart: the query has no `order_by`, so the model fixes one order of the groups. Only order-free properties are proved: the set of keys, the sums, and the line count.
- The older view's lookup `recipe__shopping_cart__user` names a relation the newer models call `shopping_carts`. The model uses the evident meaning: recipes in this user's cart.
- The relation filters as written cannot run: django-filter calls a `method=` filter as `method(queryset, field_name, value)` for every boolean value, and `filter_is_favorited` and `filter_is_in_shopping_cart` take no field name (backend/recipes/filters.py:26,32), so `?is_favorited=1` and `?is_favorited=0` both raise TypeError (see Findings). The model's filter answers use the corrected dispatch. Turning the query string into a boolean or None is not modelled.
- Field-level validation in DRF collects every failing field, while the model reports one `Rejection`. Which payloads are accepted is the same, up to the maximum lengths and non-string JSON values, which are not modelled.
- RecipesSerializers.Validate, LegacyRecipesSerializers.Validate: the newer revision's item `id` is a plain IntegerField and its existence is checked by the loop. Non-integer JSON values are not modelled.
- ApiSerializers.GetRecipes: a negative limit is modelled as Django 4 and later behave: the slice raises ValueError, which is caught, so all recipes are returned.
- RecipesFilters.FilterAuthor: a value that is not an integer is also refused with 400 by the filter set; the model takes the author as an id, so that case is not modelled.
- LegacyUsersSerializers.GetRecipes: a missing request (`None`) is not modelled; that path raises AttributeError in the source. A negative limit is modelled as Django 4 and later behave: the slice raises ValueError, which is caught, so all recipes are returned.
- PUT updates are not modelled. In both revisions `get_serializer_class` returns the write serializer only for `create` and `partial_update` (backend/api/views.py:114-117, backend/foodgram/recipes/views.py:37-40). A PUT is served by RecipeListSerializer, whose `ingredients` field is read-only: it writes name, text, cooking time and image, runs no ingredient validation, and leaves the composition as it was.
- The newer users model (backend/users/models.py:11-45) is covered only through the shared invariants. Its unique email and username are part of `Store.Tables.Valid`; its username pattern is not modelled.

## Findings

| source | as written | input that shows it | evidently intended | confidence | as-written member | corrected member |
|---|---|---|---|---|---|---|
| backend/foodgram/recipes/serializers.py:85-106 | ingredient ids are resolved with `get_object_or_404` only while the rows are built, after the Recipe row was created (create) or the old rows were cleared (update) | POST a recipe with ingredients `[{"id": 7, "amount": 1}]` when no Ingredient 7 exists: validation passes, the answer is 404, and a recipe with no ingredients stays in the table | unknown ids refused before anything is written, as the newer revision's `validate_ingredients` does (backend/recipes/serializers.py:109-112) | not executed; medium, because a project-wide ATOMIC_REQUESTS setting (not visible here) would roll the write back | LegacyRecipesSerializers.CreateUnknownIngredientExample | LegacyRecipesSerializers.CheckedCreateAtomic |
| backend/recipes/filters.py:26-36 | `filter_is_favorited(self, queryset, value)` and `filter_is_in_shopping_cart` omit the field name that django-filter passes to a `method=` filter | `GET /api/recipes/?is_favorited=1` (or `=0`): the call gets three arguments for two parameters and raises TypeError, a 500 | `(self, queryset, name, value)`, so the bodies run | not executed; high, the dispatch always passes the field name | RecipesFilters.CorrectedFilterAnswers | RecipesFilters.DispatchCorrected |
| backend/foodgram/users/models.py:17-18 | the username validator `^[\w.@+-]+$` anchors with `$`, which in Python also matches before a final newline | the username "a\n" passes the validator | a full match (`\Z`), as the comment about replacing `\z` indicates | not executed; low, because DRF and form CharFields strip surrounding whitespace before validators run | LegacyUsersModels.TrailingNewlineAccepted | LegacyUsersModels.CorrectedDropsOnlyNewlines |
