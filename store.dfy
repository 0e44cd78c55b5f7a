/**
 * The database as the views and serializers see it: one table per model plus
 * the primary-key sequences of the users and recipes tables.  Each method is
 * one SQL statement; it either succeeds or, when the row would break a
 * constraint the database itself enforces (unique, check, foreign key,
 * smallint range), fails with an IntegrityError and leaves the tables as they
 * were.  Validators that run only in Python (MinValueValidator) are required
 * of the caller instead.
 */
module Database {
  import opened Wrappers
  import opened Tables
  import opened Schema

  /** A number above every id in `ids`, to seed a primary-key sequence. */
  function Above(ids: seq<Id>): (n: Id)
    ensures forall x | x in ids :: x < n
  {
    if ids == [] then 0
    else
      var n := Above(ids[..|ids| - 1]);
      var last := ids[|ids| - 1];
      assert ids == ids[..|ids| - 1] + [last];
      if last < n then n else last + 1
  }

  function UserIdList(users: seq<User>): (ids: seq<Id>)
    ensures forall u | u in users :: u.id in ids
  {
    if users == [] then []
    else
      assert users == users[..|users| - 1] + [users[|users| - 1]];
      UserIdList(users[..|users| - 1]) + [users[|users| - 1].id]
  }

  function RecipeIdList(recipes: seq<Recipe>): (ids: seq<Id>)
    ensures forall r | r in recipes :: r.id in ids
  {
    if recipes == [] then []
    else
      assert recipes == recipes[..|recipes| - 1] + [recipes[|recipes| - 1]];
      RecipeIdList(recipes[..|recipes| - 1]) + [recipes[|recipes| - 1].id]
  }

  class Store {
    var users: seq<User>
    var tags: seq<Tag>
    var ingredients: seq<Ingredient>
    var recipes: seq<Recipe>
    var tagRecipes: seq<TagRecipe>
    var ingredientRecipes: seq<IngredientRecipe>
    var favorites: seq<Link>
    var shoppingLists: seq<Link>
    var subscriptions: seq<Link>
    /** The next value of the users and recipes primary-key sequences. */
    var nextUserId: Id
    var nextRecipeId: Id

    function State(): Db
      reads this
    {
      Db(users, tags, ingredients, recipes, tagRecipes, ingredientRecipes, favorites, shoppingLists, subscriptions)
    }

    /** Every id in `db` was handed out by the sequences before their current values. */
    predicate Below(db: Db)
      reads this
    {
      && (forall u | u in db.users :: u.id < nextUserId)
      && (forall r | r in db.recipes :: r.id < nextRecipeId)
    }

    predicate Valid()
      reads this
    {
      Schema.Valid(State()) && Below(State())
    }

    /** Opens a database holding `db`. */
    constructor (db: Db)
      requires Schema.Valid(db)
      ensures State() == db
      ensures Valid()
    {
      users, tags, ingredients, recipes := db.users, db.tags, db.ingredients, db.recipes;
      tagRecipes, ingredientRecipes := db.tagRecipes, db.ingredientRecipes;
      favorites, shoppingLists, subscriptions := db.favorites, db.shoppingLists, db.subscriptions;
      nextUserId := Above(UserIdList(db.users));
      nextRecipeId := Above(RecipeIdList(db.recipes));
    }

    /**
     * `User.objects.create(...)`: email and username are unique columns of
     * at most 254 and 150 characters; a duplicate or an over-long value makes
     * the INSERT fail.
     */
    method InsertUser(email: string, username: string, isStaff: bool) returns (id: Option<Id>)
      requires Valid()
      modifies this
      ensures Valid()
      ensures id.Some? <==> UserInsertable(old(State()), email, username) && UserFits(email, username)
      ensures id.Some? ==> id.value !in UserIds(old(users))
      ensures id.Some? ==> State() == old(State()).(users := old(users) + [User(id.value, email, username, isStaff)])
      ensures id.None? ==> State() == old(State())
      ensures old(nextUserId) <= nextUserId && nextRecipeId == old(nextRecipeId)
    {
      var newId := nextUserId;
      nextUserId := nextUserId + 1;
      if UserInsertable(State(), email, username) && UserFits(email, username) {
        var u := User(newId, email, username, isStaff);
        PairwiseAppend(users, u, UserKeysDiffer);
        users := users + [u];
        id := Some(newId);
      } else {
        id := None;
      }
    }

    /**
     * `Recipe.objects.create(...)`: the author must exist, the name is a unique
     * column and cooking_time a smallint.  The sequence value is used up even
     * when the insert fails.
     */
    method InsertRecipe(author: Id, name: string, text: string, cookingTime: int) returns (id: Option<Id>)
      requires Valid()
      requires cookingTime >= MIN_COOKING_TIME
      modifies this
      ensures Valid()
      ensures id.Some? <==> author in UserIds(old(users)) && name !in RecipeNames(old(recipes)) && cookingTime <= SMALL_MAX
      ensures id.Some? ==> id.value == old(nextRecipeId) && id.value !in RecipeIds(old(recipes))
      ensures id.Some? ==> State() == old(State()).(recipes := old(recipes) + [Recipe(id.value, author, name, text, cookingTime)])
      ensures id.None? ==> State() == old(State())
      ensures nextUserId == old(nextUserId) && nextRecipeId == old(nextRecipeId) + 1
    {
      var newId := nextRecipeId;
      nextRecipeId := nextRecipeId + 1;
      if author in UserIds(users) && name !in RecipeNames(recipes) && cookingTime <= SMALL_MAX {
        var r := Recipe(newId, author, name, text, cookingTime);
        PairwiseAppend(recipes, r, RecipeKeysDiffer);
        recipes := recipes + [r];
        id := Some(newId);
      } else {
        id := None;
      }
    }

    /** `instance.save()` with new field values: the new name must be free among the other recipes. */
    method SaveRecipe(id: Id, author: Option<Id>, name: string, text: string, cookingTime: int) returns (ok: bool)
      requires Valid()
      requires id in RecipeIds(recipes)
      requires cookingTime >= MIN_COOKING_TIME
      modifies this
      ensures Valid()
      ensures ok <==> && (author.Some? ==> author.value in UserIds(old(users)))
                      && (forall r | r in old(recipes) && r.id != id :: r.name != name)
                      && cookingTime <= SMALL_MAX
      ensures ok ==> State() == old(State()).(recipes := RecipesEdited(old(recipes), id, author, name, text, cookingTime))
      ensures !ok ==> State() == old(State())
      ensures nextUserId == old(nextUserId) && nextRecipeId == old(nextRecipeId)
    {
      ok := && (author.Some? ==> author.value in UserIds(users))
            && (forall r | r in recipes && r.id != id :: r.name != name)
            && cookingTime <= SMALL_MAX;
      if ok {
        var db := State();
        EditPreservesValid(db, id, author, name, text, cookingTime);
        var edited := RecipesEdited(recipes, id, author, name, text, cookingTime);
        assert forall r | r in edited :: r.id < nextRecipeId by {
          forall r | r in edited ensures r.id < nextRecipeId {
            var k :| 0 <= k < |edited| && edited[k] == r;
            assert recipes[k] in recipes;
          }
        }
        recipes := edited;
      }
    }

    /** `TagRecipe.objects.filter(recipe=...).delete()`. */
    method DeleteTagRows(recipe: Id)
      requires Valid()
      modifies this
      ensures Valid()
      ensures State() == old(State()).(tagRecipes := TagRowsWithout(old(tagRecipes), {recipe}))
      ensures nextUserId == old(nextUserId) && nextRecipeId == old(nextRecipeId)
    {
      tagRecipes := TagRowsWithout(tagRecipes, {recipe});
    }

    /** `IngredientRecipe.objects.filter(recipe=...).delete()`. */
    method DeleteIngredientRows(recipe: Id)
      requires Valid()
      modifies this
      ensures Valid()
      ensures State() == old(State()).(ingredientRecipes := IngredientRowsWithout(old(ingredientRecipes), {recipe}))
      ensures nextUserId == old(nextUserId) && nextRecipeId == old(nextRecipeId)
    {
      ingredientRecipes := IngredientRowsWithout(ingredientRecipes, {recipe});
    }

    /** `TagRecipe.objects.create(recipe=..., tag=...)`: both keys must exist and the pair is unique. */
    method InsertTagRecipe(tag: Id, recipe: Id) returns (ok: bool)
      requires Valid()
      modifies this
      ensures Valid()
      ensures ok <==> tag in TagIds(old(tags)) && recipe in RecipeIds(old(recipes)) && TagRecipe(tag, recipe) !in old(tagRecipes)
      ensures ok ==> State() == old(State()).(tagRecipes := old(tagRecipes) + [TagRecipe(tag, recipe)])
      ensures !ok ==> State() == old(State())
      ensures nextUserId == old(nextUserId) && nextRecipeId == old(nextRecipeId)
    {
      ok := tag in TagIds(tags) && recipe in RecipeIds(recipes) && TagRecipe(tag, recipe) !in tagRecipes;
      if ok {
        DistinctAppend(tagRecipes, TagRecipe(tag, recipe));
        tagRecipes := tagRecipes + [TagRecipe(tag, recipe)];
      }
    }

    /**
     * `IngredientRecipe.objects.create(ingredient=..., recipe=..., amount=...)`:
     * both keys must exist, the pair (ingredient, recipe) is unique and the
     * amount a smallint.
     */
    method InsertIngredientRecipe(ingredient: Id, recipe: Id, amount: int) returns (ok: bool)
      requires Valid()
      requires amount >= MIN_AMOUNT
      modifies this
      ensures Valid()
      ensures ok <==> && ingredient in IngredientIds(old(ingredients))
                      && recipe in RecipeIds(old(recipes))
                      && (forall row | row in old(ingredientRecipes) :: !(row.ingredient == ingredient && row.recipe == recipe))
                      && amount <= SMALL_MAX
      ensures ok ==> State() == old(State()).(ingredientRecipes := old(ingredientRecipes) + [IngredientRecipe(ingredient, recipe, amount)])
      ensures !ok ==> State() == old(State())
      ensures nextUserId == old(nextUserId) && nextRecipeId == old(nextRecipeId)
    {
      ok := && ingredient in IngredientIds(ingredients)
            && recipe in RecipeIds(recipes)
            && (forall row | row in ingredientRecipes :: !(row.ingredient == ingredient && row.recipe == recipe))
            && amount <= SMALL_MAX;
      if ok {
        PairwiseAppend(ingredientRecipes, IngredientRecipe(ingredient, recipe, amount), IngredientRecipeKeysDiffer);
        ingredientRecipes := ingredientRecipes + [IngredientRecipe(ingredient, recipe, amount)];
      }
    }

    /** `Favorite/ShoppingList/Subscription.objects.create(...)`. */
    method InsertLink(kind: Kind, l: Link) returns (ok: bool)
      requires Valid()
      modifies this
      ensures Valid()
      ensures ok <==> LinkInsertable(old(State()), kind, l)
      ensures ok ==> State() == old(State()).WithLinks(kind, old(State()).Links(kind) + [l])
      ensures !ok ==> State() == old(State())
      ensures nextUserId == old(nextUserId) && nextRecipeId == old(nextRecipeId)
    {
      ok := LinkInsertable(State(), kind, l);
      if ok {
        LinkInsertPreservesValid(State(), kind, l);
        var rows := State().Links(kind) + [l];
        match kind
        case Favorites => favorites := rows;
        case ShoppingLists => shoppingLists := rows;
        case Subscriptions => subscriptions := rows;
      }
    }

    /** `....filter(actor, target).delete()` on a relation table. */
    method DeleteLink(kind: Kind, l: Link)
      requires Valid()
      modifies this
      ensures Valid()
      ensures State() == old(State()).WithLinks(kind, LinksExcept(old(State()).Links(kind), l))
      ensures nextUserId == old(nextUserId) && nextRecipeId == old(nextRecipeId)
    {
      var rows := LinksExcept(State().Links(kind), l);
      match kind
      case Favorites => favorites := rows;
      case ShoppingLists => shoppingLists := rows;
      case Subscriptions => subscriptions := rows;
    }

    /**
     * Rolls the tables back to `snapshot`, as leaving a `transaction.atomic`
     * block with an exception does.  The sequences are not rolled back.
     */
    method Restore(snapshot: Db)
      requires Schema.Valid(snapshot) && Below(snapshot)
      modifies this
      ensures Valid()
      ensures State() == snapshot
      ensures nextUserId == old(nextUserId) && nextRecipeId == old(nextRecipeId)
    {
      users, tags, ingredients, recipes := snapshot.users, snapshot.tags, snapshot.ingredients, snapshot.recipes;
      tagRecipes, ingredientRecipes := snapshot.tagRecipes, snapshot.ingredientRecipes;
      favorites, shoppingLists, subscriptions := snapshot.favorites, snapshot.shoppingLists, snapshot.subscriptions;
      assert State() == snapshot;
    }
  }
}
