# Foodgram business rules in Dafny

Foodgram is a recipe-sharing backend. Users publish recipes made of tags and
ingredient amounts. They mark recipes as favorites, put recipes in a shopping
cart and download the summed ingredient list, and subscribe to other authors.
This project models the rules behind that service:

- the tables and their constraints (unique keys, check constraints, foreign
  keys with ON DELETE CASCADE, smallint ranges, default orderings);
- the recipe write path: validation, then `create` and `update`, which replace
  a recipe's tag and ingredient rows inside one transaction;
- the favorite, shopping-cart and subscription relation endpoints (create and
  destroy), in the API version and in the two earlier view sets;
- the shopping-list download: group by (name, unit), sum, order by name, render;
- the read side: the recipe and ingredient filters, the permission classes,
  the `is_*` flags, `recipes` / `recipes_count` of a subscription, and the
  registration checks.

The database is the class `Database.Store`. It has one `seq` field per table,
plus the users and recipes primary-key sequences. Its methods are the ORM
calls the code makes. Each method enforces the unique, check and foreign-key
constraints that models.py declares, and the user columns' lengths. It
reports a failed INSERT or UPDATE as a `false` / `None` result.
`Store.Restore` rolls back a `transaction.atomic` block. `Schema.Valid` states
every unique, check and foreign-key constraint of every table, and every
state-changing method keeps it.
Pure code (validators, filters, permissions, flags) is written as functions
over the value `Schema.Db`. Statuses are tags (`Responses.Status`), not HTTP
objects.

Modules, one per source file or shared concept:

| file | module | models |
|---|---|---|
| wrappers.dfy | Wrappers | `Option`, `Result` |
| tables.dfy | Tables | uniqueness predicates, `filter`, `order_by`, string order, `str`/`int` of naturals, `"\r\n".join` |
| schema.dfy | Schema | recipes/models.py, users/models.py, favorites/models.py |
| store.dfy | Database | the ORM writes on those tables |
| responses.dfy | Responses | response statuses and 400 reasons |
| api_serializers.dfy | ApiSerializers | api/serializers.py |
| shopping_cart.dfy | ShoppingCart | the grouped query and the report lines of `download_shopping_cart` |
| api_permissions.dfy | ApiPermissions | api/permissions.py and the permission classes used |
| api_filters.dfy | ApiFilters | api/filters.py |
| api_views.dfy | ApiViews | api/views.py |
| users_serializers.dfy | UsersSerializers | users/serializers.py |
| users_views.dfy | UsersViews | users/views.py and the subscription view set of favorites/views.py |
| recipes_views.dfy | RecipesViews | recipes/views.py |

## Model

| member | source | states |
|---|---|---|
| Schema.LinkInsertPreservesValid | backend/foodgram/recipes/models.py:158-215 | a Favorite, ShoppingList or Subscription row that is new, whose keys exist and (for Subscription) whose subscriber is not the author keeps every constraint; the Subscription tables of users/models.py:64-76 and favorites/models.py:77-89 carry the same check and unique constraint |
| Schema.LinksExcept | backend/foodgram/api/views.py:157-167 | deleting one (actor, target) pair keeps exactly the other rows and keeps the table free of duplicates |
| Schema.LinksExceptAppend | backend/foodgram/api/views.py:154-167 | deleting a pair just inserted into a duplicate-free table gives back the table as it was |
| Schema.RecipesEdited | backend/foodgram/recipes/models.py:60-95 | saving a recipe edits only the row with its id, keeps every id, and keeps the length |
| Schema.EditPreservesValid | backend/foodgram/recipes/models.py:67-87 | an edit whose name is free among the other recipes, whose author exists and whose cooking time lies in [MIN_COOKING_TIME, 32767] keeps every constraint |
| Schema.Cascade | backend/foodgram/recipes/models.py:98-155 | removing users and recipes removes exactly the rows referring to them (tag, ingredient, favorite, shopping-list, subscription rows) and keeps every other row |
| Schema.CascadeKeepsValid | backend/foodgram/recipes/models.py:62-66 | a cascade that removes each removed user's recipes leaves every constraint intact, including the foreign keys |
| Schema.DeleteRecipe | backend/foodgram/recipes/models.py:158-185 | deleting a recipe removes exactly that recipe and its TagRecipe, IngredientRecipe, Favorite and ShoppingList rows; every other row of those tables stays; users, subscriptions, tags and ingredients are unchanged; every row left was there before |
| Schema.DeleteRecipeKeepsValid | backend/foodgram/recipes/models.py:188-215 | the database stays consistent after a recipe is deleted |
| Schema.DeleteUser | backend/foodgram/users/models.py:48-62 | deleting a user removes exactly that user; a recipe, TagRecipe or IngredientRecipe row stays iff its recipe is not one of theirs; a Favorite or ShoppingList row stays iff it is neither theirs nor on one of their recipes; a subscription stays iff they are on neither side; tags and ingredients are unchanged; every row left was there before |
| Schema.DeleteUserKeepsOtherRecipes | backend/foodgram/recipes/models.py:62-66 | a recipe survives the deletion of a user iff someone else wrote it |
| Schema.DeleteUserKeepsValid | backend/foodgram/users/models.py:48-62 | the database stays consistent after a user is deleted |
| Schema.RecipeIdsBy | backend/foodgram/recipes/models.py:62-66 | exactly the ids of the recipes the user wrote |
| Schema.TagListing | backend/foodgram/recipes/models.py:25-26 | a permutation of the tags, in strictly ascending id order when ids are unique |
| Schema.UserListing | backend/foodgram/users/models.py:39-40 | a permutation of the users, in strictly ascending id order when ids are unique |
| Schema.RecipeListing | backend/foodgram/recipes/models.py:89-90 | a permutation of the recipes, newest (largest id) first |
| Schema.TagsOfTagRows | backend/foodgram/recipes/models.py:98-121 | the rows inserted for a recipe give back exactly its input tags, and none to another recipe |
| Schema.EntriesOfIngredientRows | backend/foodgram/recipes/models.py:124-155 | the rows inserted for a recipe give back exactly its input entries with their amounts, and none to another recipe |
| Schema.TagsOfWithout | backend/foodgram/recipes/models.py:104-108 | deleting a recipe's tag rows empties its tag list and leaves every other recipe's |
| Schema.EntriesOfWithout | backend/foodgram/recipes/models.py:131-135 | deleting a recipe's ingredient rows empties its entry list and leaves every other recipe's |
| Schema.AppendedAssociations | backend/foodgram/api/serializers.py:176-186 | inserting a new recipe's rows gives it exactly the input tags and entries and changes no other recipe's |
| Schema.ReplacedAssociations | backend/foodgram/api/serializers.py:194-204 | delete-then-insert gives the recipe exactly the new tags and entries, whatever it had before, and changes no other recipe's |
| Database.Store.InsertUser | backend/foodgram/users/models.py:8-19 | succeeds iff email and username are both free and fit their columns (254 and 150 characters); the new row has a fresh id; a failure changes nothing |
| Database.Store.InsertRecipe | backend/foodgram/recipes/models.py:60-87 | succeeds iff the author exists, the name is free and the cooking time fits a smallint; appends one row with the next id |
| Database.Store.SaveRecipe | backend/foodgram/recipes/models.py:67-72 | succeeds iff the author exists, the name is free among the other recipes and the time fits a smallint; the new state is the edited table |
| Database.Store.InsertTagRecipe | backend/foodgram/recipes/models.py:110-119 | succeeds iff both keys exist and the pair is new; appends exactly that row |
| Database.Store.InsertIngredientRecipe | backend/foodgram/recipes/models.py:137-152 | succeeds iff both keys exist, no row pairs that ingredient and recipe, and the amount fits a smallint |
| Database.Store.DeleteTagRows | backend/foodgram/api/serializers.py:194 | removes exactly the recipe's tag rows |
| Database.Store.DeleteIngredientRows | backend/foodgram/api/serializers.py:195 | removes exactly the recipe's ingredient rows |
| Database.Store.InsertLink | backend/foodgram/recipes/models.py:174-185 | succeeds iff the row meets the unique, check and foreign-key constraints; appends exactly that row |
| Database.Store.DeleteLink | backend/foodgram/api/views.py:159-161 | removes exactly the given pair from the chosen relation table |
| Database.Store.Restore | backend/foodgram/api/serializers.py:172-173 | leaving an atomic block by an exception restores every table to its snapshot |
| ApiSerializers.FirstEntryError | backend/foodgram/api/serializers.py:157-165 | no error iff every later entry passes both checks; otherwise the error names the first failing entry, a repeat before a low amount |
| ApiSerializers.ValidateRecipe | backend/foodgram/api/serializers.py:155-170 | accepts iff no whole entry repeats, every amount >= MIN_AMOUNT and cooking time >= MIN_COOKING_TIME; returns the data unchanged; the time is checked only after all entries pass |
| ApiSerializers.TagErrors | backend/foodgram/api/serializers.py:134-135 | no error iff every tag id names a tag |
| ApiSerializers.EntryErrors | backend/foodgram/api/serializers.py:78-81 | no error iff every ingredient id names an ingredient and every amount lies between MIN_AMOUNT and the smallint maximum (recipes/models.py:137-140) |
| ApiSerializers.NameErrors | backend/foodgram/recipes/models.py:67-72 | no error iff the name is non-blank, at most 200 characters, and no other recipe has it (the edited instance excepted) |
| ApiSerializers.RecipeFieldErrors | backend/foodgram/api/serializers.py:133-153 | no field error iff tags, ingredients, amounts, name, text, cooking time (recipes/models.py:79-87) and a given author all pass their field checks |
| ApiSerializers.ValidateRecipeBody | backend/foodgram/api/serializers.py:133-170 | `is_valid` accepts iff the fields pass and then `validate` passes; the data is returned unchanged; field errors are non-empty; once the fields pass, `validate` can only report a repeated entry, so its amount and time branches never fire |
| ApiSerializers.CreateFailsOnlyOnRepeats | backend/foodgram/api/serializers.py:172-187 | after `is_valid`, create fails iff a tag or an ingredient is given twice |
| ApiSerializers.UpdateFailsOnlyOnRepeats | backend/foodgram/api/serializers.py:189-205 | after `is_valid` of a PATCH, update fails iff a tag or an ingredient is given twice |
| ApiSerializers.SameIngredientTwicePassesValidation | backend/foodgram/api/serializers.py:157-161 | for any existing ingredient, two different valid amounts of it, a free name and valid other fields, the body passes `is_valid`, but create then refuses it through the unique constraint |
| ApiSerializers.InsertTags | backend/foodgram/api/serializers.py:178-181 | the loop succeeds iff every tag exists and none repeats; it appends one row per tag in input order |
| ApiSerializers.InsertEntries | backend/foodgram/api/serializers.py:182-186 | the loop succeeds iff every ingredient exists, none repeats and every amount fits; it appends one row per entry |
| ApiSerializers.InsertAssociations | backend/foodgram/api/serializers.py:178-186 | both loops together succeed iff every tag and every entry can be inserted; then both tables gain exactly the rows of the input |
| ApiSerializers.CreateRecipe | backend/foodgram/api/serializers.py:172-187 | succeeds iff every insert meets the constraints; then one new recipe whose tags and entries equal the input exactly and no other recipe's change; else nothing changes |
| ApiSerializers.UpdateRecipe | backend/foodgram/api/serializers.py:189-205 | succeeds iff every write meets the constraints; then the recipe's tags and entries equal the new input exactly and other recipes are untouched; else nothing changes |
| ApiSerializers.ValidateShort | backend/foodgram/api/serializers.py:216-235 | 'favorite' rejects a pair already favorited, 'shopping_cart' one already in the cart, any other context passes |
| ApiSerializers.ShortPassInsertable | backend/foodgram/api/serializers.py:216-235 | for an existing user and recipe, the check passes iff the insert after it meets every constraint |
| ApiSerializers.ValidateSubscribe | backend/foodgram/api/serializers.py:272-287 | an existing subscription is rejected first, then subscriber == author; passes iff neither |
| ApiSerializers.SubscribePassInsertable | backend/foodgram/users/models.py:66-75 | for existing users, the serializer passes iff the Subscription row meets the check and unique constraints |
| ApiSerializers.IsSubscribed | backend/foodgram/api/serializers.py:24-28 | false for the anonymous viewer; otherwise true iff the (viewer, author) subscription exists; users/serializers.py:17-22 computes the same flag |
| ApiSerializers.IsFavorited | backend/foodgram/api/serializers.py:111-115 | false for the anonymous viewer; otherwise true iff the favorite row exists |
| ApiSerializers.IsInShoppingCart | backend/foodgram/api/serializers.py:117-121 | false for the anonymous viewer; otherwise true iff the shopping-list row exists |
| ApiSerializers.Related | backend/foodgram/api/serializers.py:254-259 | false for the anonymous viewer; otherwise membership of the viewer's pair |
| ApiSerializers.SubscribedToAnother | backend/foodgram/users/models.py:66-71 | in a consistent database a shown subscription is the viewer's, to another existing user |
| ApiSerializers.AuthorRecipes | backend/foodgram/api/serializers.py:264-266 | exactly the author's recipes, newest first |
| ApiSerializers.ParseLimit | backend/foodgram/api/serializers.py:268 | `int()` of a digit string is its decimal value; a negative result comes from a leading minus sign |
| ApiSerializers.GetRecipes | backend/foodgram/api/serializers.py:264-270 | no limit or an empty one gives all the author's recipes; a limit n >= 0 gives the first min(n, count); a non-integer or negative limit is an error; any result is a prefix of the list |
| ApiSerializers.GetRecipesLimit | backend/foodgram/api/serializers.py:267-268 | the limit written as `str(n)` keeps exactly the first min(n, count) recipes |
| ApiSerializers.GetRecipesCount | backend/foodgram/api/serializers.py:261-262 | the number of the author's recipes, at most the table's size |
| ApiSerializers.RecipesCountMatchesList | backend/foodgram/api/serializers.py:261-270 | `recipes_count` equals the length of the unlimited `recipes` list |
| ApiSerializers.RegistrationErrors | backend/foodgram/api/serializers.py:34-45 | each CharField strips its value and refuses it blank; a taken stripped username and a taken stripped email are each reported; no error iff both stripped values are non-blank and free |
| ApiSerializers.RegistrationIgnoresPadding | backend/foodgram/api/serializers.py:34-45 | surrounding whitespace changes no verdict: the checks see only the stripped values |
| ApiSerializers.Register | backend/foodgram/api/serializers.py:31-56 | refused with the fields' errors iff a value is blank or taken; the stripped values are stored; otherwise an over-long username or email (the fields drop the model's max_length, users/models.py:8-19) passes validation and the INSERT fails with a server error; either way nothing is written; else one new non-staff user with a fresh id |
| ShoppingCart.FindIngredient | backend/foodgram/api/views.py:121-122 | the ingredient row with the given id, or none when no row has it |
| ShoppingCart.RowPortion | backend/foodgram/api/views.py:119-121 | a row yields a portion iff its recipe is in the user's cart and its ingredient exists; the portion carries the row's amount and that ingredient's name and unit |
| ShoppingCart.PortionsOf | backend/foodgram/api/views.py:119-121 | every portion comes from a row of a cart recipe, and every such row gives its portion; at most one portion per row |
| ShoppingCart.PortionsCount | backend/foodgram/api/views.py:119-121 | each portion occurs exactly as often as there are rows giving it |
| ShoppingCart.CartTotal | backend/foodgram/api/views.py:119-125 | the summed amount for a (name, unit) equals the sum of the amounts of the cart recipes' rows whose ingredient has that name and unit |
| ShoppingCart.EmptyCartNoPortions | backend/foodgram/api/views.py:119-121 | a user with nothing in the cart has no ingredient rows to sum |
| ShoppingCart.PlaceMembers | backend/foodgram/api/views.py:122-125 | adding a portion touches only the group of its own (name, unit) and adds that key |
| ShoppingCart.PlaceOrdered | backend/foodgram/api/views.py:123-124 | adding a portion keeps one group per key and the groups in name order |
| ShoppingCart.PlaceTotals | backend/foodgram/api/views.py:125 | the portion's amount is added to its own group, or starts a new group with that amount |
| ShoppingCart.PlaceGrouped | backend/foodgram/api/views.py:119-125 | placing the next portion into a grouping of the earlier ones groups them all |
| ShoppingCart.GroupPortionsGrouped | backend/foodgram/api/views.py:119-125 | a grouping with one row per (name, unit), in name order, whose totals are the sums, always exists |
| ShoppingCart.SameGroups | backend/foodgram/api/views.py:122-125 | two groupings of the same rows hold the same groups, so the query result is fixed up to ties in name |
| ShoppingCart.NoPortionsNoGroups | backend/foodgram/api/views.py:119-125 | the grouping of no rows is empty |
| ShoppingCart.TotalAbsent | backend/foodgram/api/views.py:125 | a key with no rows sums to 0 |
| ShoppingCart.FormatLine | backend/foodgram/api/views.py:131-134 | the line starts with the ingredient's name and ends with its unit |
| ShoppingCart.ReportLines | backend/foodgram/api/views.py:126-134 | the two headers, then exactly one line per group in query order |
| ShoppingCart.FormatLineOneLine | backend/foodgram/api/views.py:134 | a line built from a name and a unit without line breaks holds no line break |
| ApiPermissions.IsGuest | backend/foodgram/api/permissions.py:4-6 | passes iff the requester is anonymous |
| ApiPermissions.IsAdminOwnerOrReadOnly | backend/foodgram/api/permissions.py:9-13 | safe methods, staff and the author pass; an unsafe method by anyone else is denied |
| ApiPermissions.RequestAllowed | backend/foodgram/api/views.py:99 | IsAuthenticatedOrReadOnly lets safe methods or an account through; the owner class allows every request |
| ApiPermissions.ObjectAllowed | backend/foodgram/api/views.py:111 | the owner class decides per object through IsAdminOwnerOrReadOnly; the default class allows every object |
| ApiPermissions.Permits | backend/foodgram/api/views.py:108-112 | a request passes iff every class allows both the request and the object |
| ApiFilters.ByAuthor | backend/foodgram/api/filters.py:7 | no author keeps all; an unknown author is an error; otherwise exactly that author's recipes |
| ApiFilters.ByTags | backend/foodgram/api/filters.py:8 | no slug keeps all; an unknown slug is an error; otherwise exactly the recipes having a tag with one of the slugs |
| ApiFilters.ByFavorited | backend/foodgram/api/filters.py:13-18 | true with an account keeps exactly the viewer's favorites; anything else keeps the input |
| ApiFilters.ByInShoppingCart | backend/foodgram/api/filters.py:20-23 | true with an account keeps exactly the recipes in the viewer's cart; anything else keeps the input |
| ApiFilters.FlagFiltersCommute | backend/foodgram/api/filters.py:13-23 | the two flag filters give the same list in either order |
| ApiFilters.FilterRecipes | backend/foodgram/api/filters.py:6-27 | the filter set fails iff an author or a slug is not a valid choice |
| ApiFilters.FilterRecipesExact | backend/foodgram/api/filters.py:6-23 | a recipe is listed iff it is in the input and passes every filter the query names |
| ApiFilters.FilterRecipesNewestFirst | backend/foodgram/api/filters.py:13-23 | filtering the recipe listing keeps it newest first |
| ApiFilters.IngredientsByName | backend/foodgram/api/filters.py:30-31 | exactly the ingredients whose name starts with the stripped value; a value that strips to nothing keeps all |
| ApiViews.SerializerFor | backend/foodgram/api/views.py:103-106 | the read serializer iff the action is list or retrieve; create and both updates get the write serializer; recipes/views.py:52-55 chooses the same way |
| ApiViews.RecipeViewSet.GetPermissions | backend/foodgram/api/views.py:108-112 | DELETE and PATCH replace the classes by the owner class; other methods keep them; the current classes are returned; recipes/views.py:57-61 swaps its classes for the same two methods |
| ApiViews.ClassesFor | backend/foodgram/api/views.py:108-112 | the owner class is checked iff the method is DELETE or PATCH |
| ApiViews.CheckRecipeRequest | backend/foodgram/api/views.py:96-112 | a fresh view set allows the request iff the classes for its method permit it |
| ApiViews.RecipePermissions | backend/foodgram/api/views.py:108-112 | DELETE and PATCH pass iff staff or author; every other method passes iff safe or authenticated |
| ApiViews.DownloadShoppingCart | backend/foodgram/api/views.py:118-135 | the loop builds the two headers plus one line per group, and the text is those lines joined with CRLF |
| ApiViews.ReportLinesRecovered | backend/foodgram/api/views.py:135 | splitting the CRLF text gives back exactly the report's lines when no name or unit holds a line break |
| ApiViews.EmptyCartReport | backend/foodgram/api/views.py:126-128 | an empty cart downloads only the two header lines |
| ApiViews.RecipeLinkCreate | backend/foodgram/api/views.py:144-155 | anonymous gives 401 and a missing recipe 404; an existing pair gives 400 and changes nothing; otherwise exactly one row is added (201); the shopping-cart action (api/views.py:174-185) and the earlier favorites/views.py:31-41 and 59-69 follow the same rules |
| ApiViews.LinkDestroy | backend/foodgram/api/views.py:157-167 | a missing recipe or author gives 404; a present pair is deleted (204); an absent one gives 400 and changes nothing; afterwards the pair is absent; the same holds for the shopping-cart and subscription actions (api/views.py:187-197, 219-229) and the earlier favorites/views.py:43-52, 71-82, 107-118 and users/views.py:69-80 |
| ApiViews.CreateThenDestroyRestores | backend/foodgram/api/views.py:144-167 | destroying the row create just added gives back the database as it was |
| ApiViews.SubscribeCreate | backend/foodgram/api/views.py:206-217 | a missing author gives 404; the serializer's verdict decides 400; when it passes, exactly one row is added, and the answer is 201 iff `recipes_limit` is absent, empty or a non-negative integer (api/serializers.py:264-268), else a server error with the row kept |
| UsersSerializers.Lower | backend/foodgram/users/serializers.py:42 | lower-cases every character and keeps the length |
| UsersSerializers.ValidateUsername | backend/foodgram/users/serializers.py:41-44 | rejects iff the lower-cased name is "me"; any other name is returned unchanged |
| UsersSerializers.ReservedUsernames | backend/foodgram/users/serializers.py:41-43 | the refused names are exactly "me", "Me", "mE" and "ME" |
| UsersSerializers.RegistrationErrors | backend/foodgram/users/serializers.py:25-44 | both values are stripped and refused blank; a taken username is reported before the "me" rule, which sees the stripped name; a taken email on its own; no error iff both are non-blank and free and the name is allowed |
| UsersSerializers.RegistrationStricter | backend/foodgram/users/serializers.py:28-44 | this serializer refuses everything the API's does and at most the "me" rule on top |
| UsersViews.SubscribeOutcome | backend/foodgram/users/views.py:56-67 | 404 for a missing author, 400 iff already subscribed, a server error iff the pair is new and either subscriber == author or `recipes_limit` is malformed, 201 otherwise |
| UsersViews.SubscribeCreate | backend/foodgram/users/views.py:56-67 | answers as SubscribeOutcome says; exactly one row is added whenever the pair is new and not a self-subscription, even when the answer is a server error because `recipes_limit` is malformed (favorites/views.py:91-105 and favorites/serializers.py:29-32); nothing changes otherwise; users/views.py passes no limit |
| UsersViews.SelfSubscriptionIsServerError | backend/foodgram/users/views.py:58-65 | subscribing to oneself reaches the check constraint and fails with a server error, where the API answers 400 |
| UsersViews.AgreesWithApiElsewhere | backend/foodgram/favorites/views.py:93-100 | for a subscriber other than the author the earlier view answers as the API's |
| RecipesViews.DownloadShoppingCart | backend/foodgram/recipes/views.py:67-85 | the same report lines, joined with two spaces |
| RecipesViews.TwoSpaceJoinLosesLines | backend/foodgram/recipes/views.py:77-85 | the empty-cart text is also the two-space join of a different list of lines |
| Tables.Filter | backend/foodgram/api/filters.py:15-22 | `queryset.filter`: a sublist holding exactly the rows that pass |
| Tables.FilterCommutes | backend/foodgram/api/filters.py:15-22 | two filters applied in either order give the same list |
| Tables.SortBy | backend/foodgram/recipes/models.py:90 | `order_by` gives a permutation in key order |
| Tables.ParseNatToString | backend/foodgram/api/serializers.py:268 | `int(str(n)) == n` for every natural n |
| Tables.Strip | backend/foodgram/api/serializers.py:34-45 | `str.strip()` as the CharFields apply it: a slice of the input that neither starts nor ends with Python whitespace, with only whitespace cut off; empty iff the input is all whitespace |
| Tables.StripIdempotent | backend/foodgram/api/filters.py:31 | stripping a stripped value changes nothing |
| Tables.SplitJoinCrlf | backend/foodgram/api/views.py:135 | splitting a CRLF join of lines without CR or LF gives the lines back |

## Left out

- Image upload: `Base64ImageField` decodes base64 and stores a file through library calls. The recipe input holds no image.
- HTTP wiring: URL routing, response bodies, the Russian messages and the `ModelViewSet` list, retrieve and destroy mixins. Responses are status tags.
- Concurrency: every operation is one atomic step. Two requests racing on the same unique key are not modelled.
- Passwords, tokens and authentication (djoser, `AbstractUser`). The requester is `Anonymous` or an `Account` with a staff flag.
- Password validation in djoser's `UserCreateSerializer`: `Register` models only the two unique validators.
- The `me` and `subscriptions` actions of the user view sets, and pagination of every list. Only the set-level meaning of the querysets is modelled.
- `load_ingredients`: file and JSON I/O.
- Admin registrations: configuration with no behaviour.
- Migrations: the database is taken to carry every `Meta.constraints` entry of the models.py files. users/migrations/0002_subscription.py, the one migration in the repository, creates Subscription without `constraint_self_follow` and without the unique (subscriber, author) constraint. Without a later migration adding them, `Database.Store.InsertLink` would accept a self-subscription or a repeated one. The server error of `UsersViews.SubscribeOutcome` for a self-subscription would then be a 201.
- Column lengths other than a user's email and username are not checked by the Store. `Recipe.name` (200) is bounded by `ApiSerializers.NameErrors` before any write. Tag and ingredient rows are never written by the modelled code. The model's user row has no first name, last name or password.
- recipes/serializers.py: an unfinished draft with no behaviour to model. favorites/serializers.py: the output fields of its `SubscribeSerializer` are not modelled; its `get_recipes` (lines 29-36) behaves as `ApiSerializers.GetRecipes` and is modelled through it.
- users/permissions.py: the same predicate as `ApiPermissions.IsGuest`.
- The settings module is not part of this model. `MIN_AMOUNT` and `MIN_COOKING_TIME` are taken as 1.
- The earlier app's tables: favorites/models.py declares Favorite, ShoppingList and Subscription again with the same constraints. The model has one set of these tables.
- users/views.py imports `PostDeleteViewSet` from recipes/views.py, which does not define it, and `SubscribeSerializer` from users/serializers.py, which defines only `UserSerializer` and `CustomUserCreateSerializer` (lines 8 and 25). Either import would stop the module from loading. The model ignores both imports and treats the view set as working, with no `recipes_limit`.
- The earlier download in recipes/views.py returns a framework `Response`, which would render the string as JSON. The model keeps only the joined text.
- Primary-key sequences are not rolled back with a transaction, as in PostgreSQL. The model's counters only grow.
- ShoppingCart.SameGroups: the database's order among groups with equal names is left open. The result `q` of the grouped query is a parameter constrained by `IsGrouped`, so two results may differ in that order.
- ShoppingCart.NameOrdered: names are compared by code point (`Tables.StrLe`). The database's collation is not modelled.
- ApiSerializers.UpdateRecipe: takes a whole body. A PATCH that omits `ingredients`, `cooking_time` or `tags` makes `validate` or `update` raise KeyError (api/serializers.py:156, 166, 191), a server error before any write; this path is not modelled.
- ApiSerializers.Register: Django's `create_user` lower-cases the domain of the email before the INSERT, and djoser turns the resulting IntegrityError into a 400. Both are library code outside the repository; the model stores the stripped email as given.
- ApiSerializers.NameErrors: DRF trims surrounding whitespace from `name` and `text` before the blank and length checks; trimming is not modelled.
- ApiSerializers.RecipeFieldErrors: the image field's own checks and the `required` errors of a POST that omits a field are not modelled; the recipe input always holds every field.
- ApiSerializers.ParseLimit: accepts only an optional sign followed by ASCII digits. Python's `int()` also accepts surrounding whitespace, underscores and non-ASCII digits, which are not modelled.
- UsersSerializers.Lower: lower-cases ASCII letters only. Python's `str.lower()` also maps letters of other alphabets; those mappings are not modelled.
- ApiViews.DownloadShoppingCart: an anonymous requester makes the query fail. This is modelled as no text rather than as the framework's error.

## Findings

| source | as written | input that shows it | evidently intended | confidence | as-written member | corrected member |
|---|---|---|---|---|---|---|
| backend/foodgram/api/views.py:108-112 | only DELETE and PATCH switch to the owner-or-staff class; PUT keeps IsAuthenticatedOrReadOnly, and since the author field defaults to the requesting user (api/serializers.py:139-141), such a PUT also makes the requester the recipe's author (`UpdateRecipe` with `author := Some(viewer.id)`) | PUT on recipe of user 1 by non-staff account 2 is permitted | every method that changes a recipe (PUT too) is limited to its author and staff | not executed | ApiViews.PutByNonAuthorPermitted | ApiViews.IntendedOnlyOwnerOrStaffChange |
| backend/foodgram/recipes/views.py:84-85 | lines are joined with two spaces, and the column header itself contains two spaces | the empty-cart text equals the two-space join of a different list of three lines | lines joined with CRLF, so the text can be split back into its lines | not executed | RecipesViews.TwoSpaceJoinLosesLines | ApiViews.ReportLinesRecovered |
| backend/foodgram/users/views.py:56-67 | create checks only for an existing subscription and inserts; the self-follow check constraint raises an uncaught IntegrityError | account 5 subscribing to user 5 ends in a server error | a self-subscription is refused with 400, as the API's serializer does | not executed; assumes the check constraint of users/models.py:67-71 exists in the database, which users/migrations/0002_subscription.py does not create | UsersViews.SelfSubscriptionIsServerError | ApiViews.SubscribeCreate |
