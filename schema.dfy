/**
 * The tables of the recipe service and the constraints the models declare on
 * them (recipes/models.py, users/models.py, favorites/models.py): unique
 * fields, unique-together constraints, the no-self-subscription check, value
 * validators, foreign keys with ON DELETE CASCADE, and default orderings.
 */
module Schema {
  import opened Wrappers
  import opened Tables

  type Id = nat

  /** Lower bounds from the project settings. */
  const MIN_AMOUNT: int := 1
  const MIN_COOKING_TIME: int := 1
  /** Upper bound of a PositiveSmallIntegerField column. */
  const SMALL_MAX: int := 32767
  const DEFAULT_COLOR: string := "#FF0000"
  /** `max_length` of the `email` and `username` columns of a user. */
  const EMAIL_MAX_LENGTH: int := 254
  const USERNAME_MAX_LENGTH: int := 150

  datatype User = User(id: Id, email: string, username: string, isStaff: bool)
  datatype Tag = Tag(id: Id, name: string, color: string, slug: string)
  datatype Ingredient = Ingredient(id: Id, name: string, unit: string)
  datatype Recipe = Recipe(id: Id, author: Id, name: string, text: string, cookingTime: nat)
  datatype TagRecipe = TagRecipe(tag: Id, recipe: Id)
  datatype IngredientRecipe = IngredientRecipe(ingredient: Id, recipe: Id, amount: nat)

  /**
   * A row of one of the three relation tables: Favorite (user, recipe),
   * ShoppingList (user, recipe) or Subscription (subscriber, author).
   */
  datatype Link = Link(actor: Id, target: Id)
  datatype Kind = Favorites | ShoppingLists | Subscriptions

  /** The person making a request: the anonymous user or an account. */
  datatype Viewer = Anonymous | Account(id: Id, isStaff: bool)

  datatype Db = Db(
    users: seq<User>,
    tags: seq<Tag>,
    ingredients: seq<Ingredient>,
    recipes: seq<Recipe>,
    tagRecipes: seq<TagRecipe>,
    ingredientRecipes: seq<IngredientRecipe>,
    favorites: seq<Link>,
    shoppingLists: seq<Link>,
    subscriptions: seq<Link>)
  {
    function Links(kind: Kind): seq<Link> {
      match kind
      case Favorites => favorites
      case ShoppingLists => shoppingLists
      case Subscriptions => subscriptions
    }

    function WithLinks(kind: Kind, rows: seq<Link>): (d: Db)
      ensures d.Links(kind) == rows
    {
      match kind
      case Favorites => this.(favorites := rows)
      case ShoppingLists => this.(shoppingLists := rows)
      case Subscriptions => this.(subscriptions := rows)
    }
  }

  function UserIds(users: seq<User>): set<Id> { set u | u in users :: u.id }
  function TagIds(tags: seq<Tag>): set<Id> { set t | t in tags :: t.id }
  function IngredientIds(ingredients: seq<Ingredient>): set<Id> { set i | i in ingredients :: i.id }
  function RecipeIds(recipes: seq<Recipe>): set<Id> { set r | r in recipes :: r.id }
  function RecipeNames(recipes: seq<Recipe>): set<string> { set r | r in recipes :: r.name }

  // --------------------------------------------------------------- constraints

  /** id, email and username are each unique. */
  predicate UserKeysDiffer(a: User, b: User) {
    a.id != b.id && a.email != b.email && a.username != b.username
  }

  /** id, name and slug are each unique. */
  predicate TagKeysDiffer(a: Tag, b: Tag) {
    a.id != b.id && a.name != b.name && a.slug != b.slug
  }

  /** id is unique, and so is the pair (name, measurement_unit). */
  predicate IngredientKeysDiffer(a: Ingredient, b: Ingredient) {
    a.id != b.id && !(a.name == b.name && a.unit == b.unit)
  }

  /** id and name are each unique. */
  predicate RecipeKeysDiffer(a: Recipe, b: Recipe) {
    a.id != b.id && a.name != b.name
  }

  /** The pair (ingredient, recipe) is unique. */
  predicate IngredientRecipeKeysDiffer(a: IngredientRecipe, b: IngredientRecipe) {
    !(a.ingredient == b.ingredient && a.recipe == b.recipe)
  }

  predicate UsersValid(users: seq<User>) {
    Pairwise(users, UserKeysDiffer)
  }

  predicate TagsValid(tags: seq<Tag>) {
    Pairwise(tags, TagKeysDiffer)
  }

  predicate IngredientsValid(ingredients: seq<Ingredient>) {
    Pairwise(ingredients, IngredientKeysDiffer)
  }

  predicate RecipeRowValid(r: Recipe, users: seq<User>) {
    r.author in UserIds(users) && MIN_COOKING_TIME <= r.cookingTime <= SMALL_MAX
  }

  predicate RecipesValid(recipes: seq<Recipe>, users: seq<User>) {
    && Pairwise(recipes, RecipeKeysDiffer)
    && forall r | r in recipes :: RecipeRowValid(r, users)
  }

  predicate TagRecipesValid(rows: seq<TagRecipe>, tags: seq<Tag>, recipes: seq<Recipe>) {
    && Distinct(rows)
    && forall row | row in rows :: row.tag in TagIds(tags) && row.recipe in RecipeIds(recipes)
  }

  predicate IngredientRecipeRowValid(row: IngredientRecipe, ingredients: seq<Ingredient>, recipes: seq<Recipe>) {
    && row.ingredient in IngredientIds(ingredients)
    && row.recipe in RecipeIds(recipes)
    && MIN_AMOUNT <= row.amount <= SMALL_MAX
  }

  predicate IngredientRecipesValid(rows: seq<IngredientRecipe>, ingredients: seq<Ingredient>, recipes: seq<Recipe>) {
    && Pairwise(rows, IngredientRecipeKeysDiffer)
    && forall row | row in rows :: IngredientRecipeRowValid(row, ingredients, recipes)
  }

  /** Favorite and ShoppingList: one row per (user, recipe), both existing. */
  predicate RecipeLinksValid(rows: seq<Link>, users: seq<User>, recipes: seq<Recipe>) {
    && Distinct(rows)
    && forall l | l in rows :: l.actor in UserIds(users) && l.target in RecipeIds(recipes)
  }

  /** Subscription: one row per (subscriber, author), both existing, never subscriber == author. */
  predicate SubscriptionsValid(rows: seq<Link>, users: seq<User>) {
    && Distinct(rows)
    && forall l | l in rows :: l.actor != l.target && l.actor in UserIds(users) && l.target in UserIds(users)
  }

  /** Every constraint of every table holds. */
  predicate Valid(db: Db) {
    && UsersValid(db.users)
    && TagsValid(db.tags)
    && IngredientsValid(db.ingredients)
    && RecipesValid(db.recipes, db.users)
    && TagRecipesValid(db.tagRecipes, db.tags, db.recipes)
    && IngredientRecipesValid(db.ingredientRecipes, db.ingredients, db.recipes)
    && RecipeLinksValid(db.favorites, db.users, db.recipes)
    && RecipeLinksValid(db.shoppingLists, db.users, db.recipes)
    && SubscriptionsValid(db.subscriptions, db.users)
  }

  /** The constraints a new user row must meet: email and username are unique. */
  predicate UserInsertable(db: Db, email: string, username: string) {
    forall u | u in db.users :: u.email != email && u.username != username
  }

  /** A user's email and username fit their varchar columns; a longer value makes the INSERT fail. */
  predicate UserFits(email: string, username: string) {
    |email| <= EMAIL_MAX_LENGTH && |username| <= USERNAME_MAX_LENGTH
  }

  /** The constraints a new row of a relation table must meet (unique, check, foreign keys). */
  predicate LinkInsertable(db: Db, kind: Kind, l: Link) {
    && l !in db.Links(kind)
    && l.actor in UserIds(db.users)
    && (if kind == Subscriptions then l.target in UserIds(db.users) && l.actor != l.target
        else l.target in RecipeIds(db.recipes))
  }

  lemma LinkInsertPreservesValid(db: Db, kind: Kind, l: Link)
    requires Valid(db) && LinkInsertable(db, kind, l)
    ensures Valid(db.WithLinks(kind, db.Links(kind) + [l]))
  {
    DistinctAppend(db.Links(kind), l);
  }

  // --------------------------------------------------------------- row edits

  /** The relation rows other than `l`: `filter(actor, target).delete()` on a relation table. */
  function LinksExcept(rows: seq<Link>, l: Link): (r: seq<Link>)
    ensures forall x | x in r :: x in rows && x != l
    ensures forall x | x in rows && x != l :: x in r
    ensures Distinct(rows) ==> Distinct(r)
  {
    var keep := LinkKept(l);
    assert Distinct(rows) ==> Distinct(Filter(rows, keep)) by {
      if Distinct(rows) { FilterDistinct(rows, keep); }
    }
    Filter(rows, keep)
  }

  function LinkKept(l: Link): Link -> bool {
    (x: Link) => x != l
  }

  /** Deleting a row just inserted gives back the table as it was. */
  lemma LinksExceptAppend(rows: seq<Link>, l: Link)
    requires l !in rows
    ensures LinksExcept(rows + [l], l) == rows
  {
    FilterAppend(rows, l, LinkKept(l));
    FilterKeepsAll(rows, LinkKept(l));
  }

  /** A recipe row with its editable fields replaced; `None` keeps the author. */
  function Edited(r: Recipe, author: Option<Id>, name: string, text: string, cookingTime: nat): (e: Recipe)
    ensures e.id == r.id && e.name == name
  {
    Recipe(r.id, if author.Some? then author.value else r.author, name, text, cookingTime)
  }

  /** `instance.save()` after an update: the row with id `id` is edited in place, every other row kept. */
  function RecipesEdited(recipes: seq<Recipe>, id: Id, author: Option<Id>, name: string, text: string, cookingTime: nat): (r: seq<Recipe>)
    ensures |r| == |recipes|
    ensures forall i | 0 <= i < |r| :: r[i] == if recipes[i].id == id then Edited(recipes[i], author, name, text, cookingTime) else recipes[i]
    ensures RecipeIds(r) == RecipeIds(recipes)
  {
    var r := seq(|recipes|, i requires 0 <= i < |recipes| =>
      if recipes[i].id == id then Edited(recipes[i], author, name, text, cookingTime) else recipes[i]);
    assert RecipeIds(r) == RecipeIds(recipes) by {
      forall x | x in RecipeIds(recipes) ensures x in RecipeIds(r) {
        var k :| 0 <= k < |recipes| && recipes[k].id == x;
        assert r[k].id == x;
      }
      forall x | x in RecipeIds(r) ensures x in RecipeIds(recipes) {
        var k :| 0 <= k < |r| && r[k].id == x;
        assert recipes[k].id == x;
      }
    }
    r
  }

  /** Editing a recipe keeps the constraints when the new name is free and the new author and cooking time are valid. */
  lemma EditPreservesValid(db: Db, id: Id, author: Option<Id>, name: string, text: string, cookingTime: nat)
    requires Valid(db)
    requires forall r | r in db.recipes && r.id != id :: r.name != name
    requires author.Some? ==> author.value in UserIds(db.users)
    requires MIN_COOKING_TIME <= cookingTime <= SMALL_MAX
    ensures Valid(db.(recipes := RecipesEdited(db.recipes, id, author, name, text, cookingTime)))
  {
    var rs := RecipesEdited(db.recipes, id, author, name, text, cookingTime);
    forall i, j | 0 <= i < j < |rs| ensures RecipeKeysDiffer(rs[i], rs[j]) {
      assert RecipeKeysDiffer(db.recipes[i], db.recipes[j]);
      assert db.recipes[i] in db.recipes && db.recipes[j] in db.recipes;
    }
    forall r | r in rs ensures RecipeRowValid(r, db.users) {
      var k :| 0 <= k < |rs| && rs[k] == r;
      assert RecipeRowValid(db.recipes[k], db.users);
    }
  }

  // --------------------------------------------------------------- cascades

  /** Removing one user's links on both sides keeps exactly the rows that name someone else twice. */
  lemma LinksWithoutOne(rows: seq<Link>, id: Id)
    ensures forall l | l in rows :: l in LinksWithout(rows, {id}, {id}) <==> l.actor != id && l.target != id
  {
    forall l | l in rows ensures l in LinksWithout(rows, {id}, {id}) <==> l.actor != id && l.target != id {
      assert l.actor !in {id} <==> l.actor != id;
      assert l.target !in {id} <==> l.target != id;
    }
  }

  /** Removing the links to one target keeps exactly the rows that point elsewhere. */
  lemma LinksWithoutTarget(rows: seq<Link>, id: Id)
    ensures forall l | l in rows :: l in LinksWithout(rows, {}, {id}) <==> l.target != id
  {
    forall l | l in rows ensures l in LinksWithout(rows, {}, {id}) <==> l.target != id {
      assert l.actor !in {};
      assert l.target !in {id} <==> l.target != id;
    }
  }

  /** Removing one user's links as actor, and every link to the targets in `gone`, keeps exactly the other rows. */
  lemma LinksWithoutActor(rows: seq<Link>, id: Id, gone: set<Id>)
    ensures forall l | l in rows :: l in LinksWithout(rows, {id}, gone) <==> l.actor != id && l.target !in gone
  {
    forall l | l in rows ensures l in LinksWithout(rows, {id}, gone) <==> l.actor != id && l.target !in gone {
      assert l.actor !in {id} <==> l.actor != id;
    }
  }

  /** Removing one user keeps exactly the users with another id. */
  lemma UsersWithoutOne(users: seq<User>, id: Id)
    ensures forall u | u in users :: u in UsersWithout(users, {id}) <==> u.id != id
  {
    forall u | u in users ensures u in UsersWithout(users, {id}) <==> u.id != id {
      assert u.id !in {id} <==> u.id != id;
    }
  }

  /** Users whose id is not in `gone`. */
  function UsersWithout(users: seq<User>, gone: set<Id>): (r: seq<User>)
    ensures forall u | u in r :: u in users && u.id !in gone
    ensures forall u | u in users && u.id !in gone :: u in r
    ensures UsersValid(users) ==> UsersValid(r)
    ensures gone == {} ==> r == users
  {
    var keep := (u: User) => u.id !in gone;
    assert gone == {} ==> Filter(users, keep) == users by {
      if gone == {} { FilterKeepsAll(users, keep); }
    }
    assert Pairwise(users, UserKeysDiffer) ==> Pairwise(Filter(users, keep), UserKeysDiffer) by {
      if Pairwise(users, UserKeysDiffer) { FilterPairwise(users, keep, UserKeysDiffer); }
    }
    Filter(users, keep)
  }

  /** Recipes whose id is not in `gone`. */
  function RecipesWithout(recipes: seq<Recipe>, gone: set<Id>): (r: seq<Recipe>)
    ensures forall x | x in r :: x in recipes && x.id !in gone
    ensures forall x | x in recipes && x.id !in gone :: x in r
    ensures Pairwise(recipes, RecipeKeysDiffer) ==> Pairwise(r, RecipeKeysDiffer)
  {
    var keep := (x: Recipe) => x.id !in gone;
    assert Pairwise(recipes, RecipeKeysDiffer) ==> Pairwise(Filter(recipes, keep), RecipeKeysDiffer) by {
      if Pairwise(recipes, RecipeKeysDiffer) { FilterPairwise(recipes, keep, RecipeKeysDiffer); }
    }
    Filter(recipes, keep)
  }

  function TagRowKept(gone: set<Id>): TagRecipe -> bool {
    (x: TagRecipe) => x.recipe !in gone
  }

  function IngredientRowKept(gone: set<Id>): IngredientRecipe -> bool {
    (x: IngredientRecipe) => x.recipe !in gone
  }

  /** TagRecipe rows whose recipe is not in `gone`. */
  function TagRowsWithout(rows: seq<TagRecipe>, gone: set<Id>): (r: seq<TagRecipe>)
    ensures forall x | x in r :: x in rows && x.recipe !in gone
    ensures forall x | x in rows && x.recipe !in gone :: x in r
    ensures Distinct(rows) ==> Distinct(r)
  {
    var keep := TagRowKept(gone);
    assert Distinct(rows) ==> Distinct(Filter(rows, keep)) by {
      if Distinct(rows) { FilterDistinct(rows, keep); }
    }
    Filter(rows, keep)
  }

  /** IngredientRecipe rows whose recipe is not in `gone`. */
  function IngredientRowsWithout(rows: seq<IngredientRecipe>, gone: set<Id>): (r: seq<IngredientRecipe>)
    ensures forall x | x in r :: x in rows && x.recipe !in gone
    ensures forall x | x in rows && x.recipe !in gone :: x in r
    ensures Pairwise(rows, IngredientRecipeKeysDiffer) ==> Pairwise(r, IngredientRecipeKeysDiffer)
  {
    var keep := IngredientRowKept(gone);
    assert Pairwise(rows, IngredientRecipeKeysDiffer) ==> Pairwise(Filter(rows, keep), IngredientRecipeKeysDiffer) by {
      if Pairwise(rows, IngredientRecipeKeysDiffer) { FilterPairwise(rows, keep, IngredientRecipeKeysDiffer); }
    }
    Filter(rows, keep)
  }

  /** Relation rows whose actor is not in `actors` and whose target is not in `targets`. */
  function LinksWithout(rows: seq<Link>, actors: set<Id>, targets: set<Id>): (r: seq<Link>)
    ensures forall l | l in r :: l in rows && l.actor !in actors && l.target !in targets
    ensures forall l | l in rows && l.actor !in actors && l.target !in targets :: l in r
    ensures Distinct(rows) ==> Distinct(r)
    ensures actors == {} && targets == {} ==> r == rows
  {
    var keep := (l: Link) => l.actor !in actors && l.target !in targets;
    assert actors == {} && targets == {} ==> Filter(rows, keep) == rows by {
      if actors == {} && targets == {} { FilterKeepsAll(rows, keep); }
    }
    assert Distinct(rows) ==> Distinct(Filter(rows, keep)) by {
      if Distinct(rows) { FilterDistinct(rows, keep); }
    }
    Filter(rows, keep)
  }

  /**
   * Removes the users `users`, the recipes `recipes` and, as ON DELETE CASCADE
   * does, every row that refers to one of them; everything else is kept.
   */
  function Cascade(db: Db, users: set<Id>, recipes: set<Id>): (d: Db)
    ensures d.tags == db.tags && d.ingredients == db.ingredients
    ensures forall u | u in db.users :: u in d.users <==> u.id !in users
    ensures forall u | u in d.users :: u in db.users
    ensures forall r | r in db.recipes :: r in d.recipes <==> r.id !in recipes
    ensures forall r | r in d.recipes :: r in db.recipes
    ensures forall row | row in db.tagRecipes :: row in d.tagRecipes <==> row.recipe !in recipes
    ensures forall row | row in d.tagRecipes :: row in db.tagRecipes
    ensures forall row | row in db.ingredientRecipes :: row in d.ingredientRecipes <==> row.recipe !in recipes
    ensures forall row | row in d.ingredientRecipes :: row in db.ingredientRecipes
    ensures forall l | l in db.favorites :: l in d.favorites <==> l.actor !in users && l.target !in recipes
    ensures forall l | l in d.favorites :: l in db.favorites
    ensures forall l | l in db.shoppingLists :: l in d.shoppingLists <==> l.actor !in users && l.target !in recipes
    ensures forall l | l in d.shoppingLists :: l in db.shoppingLists
    ensures forall l | l in db.subscriptions :: l in d.subscriptions <==> l.actor !in users && l.target !in users
    ensures forall l | l in d.subscriptions :: l in db.subscriptions
    ensures users == {} ==> d.users == db.users && d.subscriptions == db.subscriptions
  {
    db.(
      users := UsersWithout(db.users, users),
      recipes := RecipesWithout(db.recipes, recipes),
      tagRecipes := TagRowsWithout(db.tagRecipes, recipes),
      ingredientRecipes := IngredientRowsWithout(db.ingredientRecipes, recipes),
      favorites := LinksWithout(db.favorites, users, recipes),
      shoppingLists := LinksWithout(db.shoppingLists, users, recipes),
      subscriptions := LinksWithout(db.subscriptions, users, users))
  }

  /**
   * A cascade that removes, with each removed user, every recipe that user
   * wrote leaves every constraint intact.
   */
  lemma CascadeKeepsValid(db: Db, users: set<Id>, recipes: set<Id>)
    requires Valid(db)
    requires forall r | r in db.recipes && r.author in users :: r.id in recipes
    ensures Valid(Cascade(db, users, recipes))
  {
    var d := Cascade(db, users, recipes);
    assert forall x | x in UserIds(db.users) && x !in users :: x in UserIds(d.users) by {
      forall x | x in UserIds(db.users) && x !in users ensures x in UserIds(d.users) {
        var u :| u in db.users && u.id == x;
        assert u in d.users;
      }
    }
    assert forall x | x in RecipeIds(db.recipes) && x !in recipes :: x in RecipeIds(d.recipes) by {
      forall x | x in RecipeIds(db.recipes) && x !in recipes ensures x in RecipeIds(d.recipes) {
        var r :| r in db.recipes && r.id == x;
        assert r in d.recipes;
      }
    }
    assert RecipesValid(d.recipes, d.users) by {
      forall r | r in d.recipes ensures RecipeRowValid(r, d.users) {
        assert RecipeRowValid(r, db.users);
      }
    }
    assert IngredientRecipesValid(d.ingredientRecipes, d.ingredients, d.recipes) by {
      forall row | row in d.ingredientRecipes ensures IngredientRecipeRowValid(row, d.ingredients, d.recipes) {
        assert IngredientRecipeRowValid(row, db.ingredients, db.recipes);
      }
    }
  }

  /** Every table of `d` holds only rows of the same table of `db`: a delete adds nothing. */
  predicate RowsFrom(d: Db, db: Db) {
    && (forall u | u in d.users :: u in db.users)
    && (forall r | r in d.recipes :: r in db.recipes)
    && (forall row | row in d.tagRecipes :: row in db.tagRecipes)
    && (forall row | row in d.ingredientRecipes :: row in db.ingredientRecipes)
    && (forall l | l in d.favorites :: l in db.favorites)
    && (forall l | l in d.shoppingLists :: l in db.shoppingLists)
    && (forall l | l in d.subscriptions :: l in db.subscriptions)
  }

  /** Deleting a recipe removes its tag, ingredient, favorite and shopping-list rows, and nothing else. */
  function DeleteRecipe(db: Db, id: Id): (d: Db)
    ensures id !in RecipeIds(d.recipes)
    ensures forall r | r in db.recipes :: r in d.recipes <==> r.id != id
    ensures forall row | row in db.tagRecipes :: row in d.tagRecipes <==> row.recipe != id
    ensures forall row | row in db.ingredientRecipes :: row in d.ingredientRecipes <==> row.recipe != id
    ensures forall l | l in db.favorites :: l in d.favorites <==> l.target != id
    ensures forall l | l in db.shoppingLists :: l in d.shoppingLists <==> l.target != id
    ensures d.users == db.users && d.subscriptions == db.subscriptions
    ensures d.tags == db.tags && d.ingredients == db.ingredients
    ensures RowsFrom(d, db)
  {
    var d := Cascade(db, {}, {id});
    assert id !in RecipeIds(d.recipes) by {
      forall r | r in d.recipes ensures r.id != id {
        assert r in db.recipes;
      }
    }
    assert forall l | l in db.favorites :: l in d.favorites <==> l.target != id by {
      assert d.favorites == LinksWithout(db.favorites, {}, {id});
      LinksWithoutTarget(db.favorites, id);
    }
    assert forall l | l in db.shoppingLists :: l in d.shoppingLists <==> l.target != id by {
      assert d.shoppingLists == LinksWithout(db.shoppingLists, {}, {id});
      LinksWithoutTarget(db.shoppingLists, id);
    }
    d
  }

  lemma DeleteRecipeKeepsValid(db: Db, id: Id)
    requires Valid(db)
    ensures Valid(DeleteRecipe(db, id))
  {
    CascadeKeepsValid(db, {}, {id});
  }

  /** The ids of the recipes written by `author`. */
  function RecipeIdsBy(recipes: seq<Recipe>, author: Id): (s: set<Id>)
    ensures forall r | r in recipes && r.author == author :: r.id in s
    ensures forall x | x in s :: exists r | r in recipes :: r.author == author && r.id == x
  {
    set r | r in recipes && r.author == author :: r.id
  }

  /**
   * Deleting a user removes the recipes they wrote (with every row of those),
   * their favorite and shopping-list rows, and subscriptions on either side.
   */
  function DeleteUser(db: Db, id: Id): (d: Db)
    ensures id !in UserIds(d.users)
    ensures forall u | u in db.users :: u in d.users <==> u.id != id
    ensures forall r | r in d.recipes :: r.author != id
    ensures forall r | r in db.recipes :: r in d.recipes <==> r.id !in RecipeIdsBy(db.recipes, id)
    ensures forall row | row in db.tagRecipes :: row in d.tagRecipes <==> row.recipe !in RecipeIdsBy(db.recipes, id)
    ensures forall row | row in db.ingredientRecipes ::
      row in d.ingredientRecipes <==> row.recipe !in RecipeIdsBy(db.recipes, id)
    ensures forall l | l in db.favorites :: l in d.favorites <==> l.actor != id && l.target !in RecipeIdsBy(db.recipes, id)
    ensures forall l | l in db.shoppingLists ::
      l in d.shoppingLists <==> l.actor != id && l.target !in RecipeIdsBy(db.recipes, id)
    ensures forall l | l in db.subscriptions :: l in d.subscriptions <==> l.actor != id && l.target != id
    ensures d.tags == db.tags && d.ingredients == db.ingredients
    ensures RowsFrom(d, db)
  {
    var gone := RecipeIdsBy(db.recipes, id);
    var d := Cascade(db, {id}, gone);
    assert forall u | u in db.users :: u in d.users <==> u.id != id by {
      assert d.users == UsersWithout(db.users, {id});
      UsersWithoutOne(db.users, id);
    }
    assert forall l | l in db.favorites :: l in d.favorites <==> l.actor != id && l.target !in gone by {
      assert d.favorites == LinksWithout(db.favorites, {id}, gone);
      LinksWithoutActor(db.favorites, id, gone);
    }
    assert forall l | l in db.shoppingLists :: l in d.shoppingLists <==> l.actor != id && l.target !in gone by {
      assert d.shoppingLists == LinksWithout(db.shoppingLists, {id}, gone);
      LinksWithoutActor(db.shoppingLists, id, gone);
    }
    assert id !in UserIds(d.users) by {
      forall u | u in d.users ensures u.id != id {
        assert u in db.users;
      }
    }
    assert forall r | r in d.recipes :: r.author != id by {
      forall r | r in d.recipes ensures r.author != id {
        assert r in db.recipes && r.id !in gone;
      }
    }
    assert forall l | l in db.subscriptions :: l in d.subscriptions <==> l.actor != id && l.target != id by {
      assert d.subscriptions == LinksWithout(db.subscriptions, {id}, {id});
      LinksWithoutOne(db.subscriptions, id);
    }
    d
  }

  /** With unique recipe ids, deleting a user keeps exactly the recipes other users wrote. */
  lemma DeleteUserKeepsOtherRecipes(db: Db, id: Id)
    requires Pairwise(db.recipes, RecipeKeysDiffer)
    ensures forall r | r in db.recipes :: r in DeleteUser(db, id).recipes <==> r.author != id
  {
    var gone := RecipeIdsBy(db.recipes, id);
    forall r | r in db.recipes && r.author != id ensures r.id !in gone {
      forall r' | r' in db.recipes && r'.author == id ensures r'.id != r.id {
        var i :| 0 <= i < |db.recipes| && db.recipes[i] == r;
        var j :| 0 <= j < |db.recipes| && db.recipes[j] == r';
        if i < j {
          assert RecipeKeysDiffer(db.recipes[i], db.recipes[j]);
        } else {
          assert RecipeKeysDiffer(db.recipes[j], db.recipes[i]);
        }
      }
    }
  }

  lemma DeleteUserKeepsValid(db: Db, id: Id)
    requires Valid(db)
    ensures Valid(DeleteUser(db, id))
  {
    CascadeKeepsValid(db, {id}, RecipeIdsBy(db.recipes, id));
  }

  // --------------------------------------------------------------- associations

  /** One `{ingredient, amount}` entry of a recipe's ingredient list. */
  datatype Entry = Entry(ingredient: Id, amount: int)

  /** The tags of `recipe`, in the order of its TagRecipe rows. */
  function TagsOf(rows: seq<TagRecipe>, recipe: Id): (ts: seq<Id>)
    ensures |ts| <= |rows|
    ensures forall t | t in ts :: TagRecipe(t, recipe) in rows
  {
    if rows == [] then []
    else
      var init, last := rows[..|rows| - 1], rows[|rows| - 1];
      assert rows == init + [last];
      TagsOf(init, recipe) + (if last.recipe == recipe then [last.tag] else [])
  }

  /** The ingredient entries of `recipe`, in the order of its IngredientRecipe rows. */
  function EntriesOf(rows: seq<IngredientRecipe>, recipe: Id): (es: seq<Entry>)
    ensures |es| <= |rows|
    ensures forall e | e in es :: exists row | row in rows :: row.recipe == recipe && e == Entry(row.ingredient, row.amount)
  {
    if rows == [] then []
    else
      var init, last := rows[..|rows| - 1], rows[|rows| - 1];
      assert rows == init + [last];
      EntriesOf(init, recipe) + (if last.recipe == recipe then [Entry(last.ingredient, last.amount)] else [])
  }

  /** The TagRecipe rows `create` and `update` insert for `recipe`, one per tag in input order. */
  function TagRows(recipe: Id, ts: seq<Id>): (rows: seq<TagRecipe>)
    ensures forall row | row in rows :: row.recipe == recipe && row.tag in ts
    ensures forall t | t in ts :: TagRecipe(t, recipe) in rows
  {
    if ts == [] then []
    else
      var init := ts[..|ts| - 1];
      assert forall t | t in init :: t in ts;
      TagRows(recipe, init) + [TagRecipe(ts[|ts| - 1], recipe)]
  }

  /** The IngredientRecipe rows `create` and `update` insert for `recipe`, one per entry in input order. */
  function IngredientRows(recipe: Id, es: seq<Entry>): (rows: seq<IngredientRecipe>)
    requires forall e | e in es :: e.amount >= 0
    ensures forall row | row in rows :: row.recipe == recipe
    ensures forall e | e in es :: IngredientRecipe(e.ingredient, recipe, e.amount) in rows
  {
    if es == [] then []
    else
      var init, e := es[..|es| - 1], es[|es| - 1];
      assert forall x | x in init :: x in es;
      IngredientRows(recipe, init) + [IngredientRecipe(e.ingredient, recipe, e.amount)]
  }

  /** Every row inserted for a recipe comes from one of the entries. */
  lemma {:induction false} IngredientRowsFrom(recipe: Id, es: seq<Entry>, row: IngredientRecipe)
    requires forall e | e in es :: e.amount >= 0
    requires row in IngredientRows(recipe, es)
    ensures exists k | 0 <= k < |es| :: es[k].ingredient == row.ingredient
  {
    var init := es[..|es| - 1];
    assert forall x | x in init :: x in es;
    if row in IngredientRows(recipe, init) {
      IngredientRowsFrom(recipe, init, row);
      var k :| 0 <= k < |init| && init[k].ingredient == row.ingredient;
      assert es[k] == init[k];
    } else {
      assert es[|es| - 1].ingredient == row.ingredient;
    }
  }

  lemma {:induction false} TagsOfAppend(rows: seq<TagRecipe>, more: seq<TagRecipe>, recipe: Id)
    ensures TagsOf(rows + more, recipe) == TagsOf(rows, recipe) + TagsOf(more, recipe)
  {
    if more == [] {
      assert rows + more == rows;
    } else {
      var init, last := more[..|more| - 1], more[|more| - 1];
      assert more == init + [last];
      var all := rows + more;
      assert all[..|all| - 1] == rows + init && all[|all| - 1] == last;
      TagsOfAppend(rows, init, recipe);
    }
  }

  lemma {:induction false} EntriesOfAppend(rows: seq<IngredientRecipe>, more: seq<IngredientRecipe>, recipe: Id)
    ensures EntriesOf(rows + more, recipe) == EntriesOf(rows, recipe) + EntriesOf(more, recipe)
  {
    if more == [] {
      assert rows + more == rows;
    } else {
      var init, last := more[..|more| - 1], more[|more| - 1];
      assert more == init + [last];
      var all := rows + more;
      assert all[..|all| - 1] == rows + init && all[|all| - 1] == last;
      EntriesOfAppend(rows, init, recipe);
    }
  }

  lemma TagsOfOne(row: TagRecipe, recipe: Id)
    ensures TagsOf([row], recipe) == if row.recipe == recipe then [row.tag] else []
  {
    assert [row][..0] == [];
  }

  lemma EntriesOfOne(row: IngredientRecipe, recipe: Id)
    ensures EntriesOf([row], recipe) == if row.recipe == recipe then [Entry(row.ingredient, row.amount)] else []
  {
    assert [row][..0] == [];
  }

  /** The rows inserted for `recipe` give back exactly the input tags, and no tag to any other recipe. */
  lemma {:induction false} TagsOfTagRows(recipe: Id, ts: seq<Id>, other: Id)
    ensures TagsOf(TagRows(recipe, ts), recipe) == ts
    ensures other != recipe ==> TagsOf(TagRows(recipe, ts), other) == []
  {
    if ts != [] {
      var init, t := ts[..|ts| - 1], ts[|ts| - 1];
      assert ts == init + [t];
      TagsOfTagRows(recipe, init, other);
      var row := TagRecipe(t, recipe);
      assert TagRows(recipe, ts) == TagRows(recipe, init) + [row];
      TagsOfAppend(TagRows(recipe, init), [row], recipe);
      TagsOfAppend(TagRows(recipe, init), [row], other);
      TagsOfOne(row, recipe);
      TagsOfOne(row, other);
    }
  }

  /** The rows inserted for `recipe` give back exactly the input entries, and none to any other recipe. */
  lemma {:induction false} EntriesOfIngredientRows(recipe: Id, es: seq<Entry>, other: Id)
    requires forall e | e in es :: e.amount >= 0
    ensures EntriesOf(IngredientRows(recipe, es), recipe) == es
    ensures other != recipe ==> EntriesOf(IngredientRows(recipe, es), other) == []
  {
    if es != [] {
      var init, e := es[..|es| - 1], es[|es| - 1];
      assert es == init + [e];
      EntriesOfIngredientRows(recipe, init, other);
      var row := IngredientRecipe(e.ingredient, recipe, e.amount);
      assert IngredientRows(recipe, es) == IngredientRows(recipe, init) + [row];
      EntriesOfAppend(IngredientRows(recipe, init), [row], recipe);
      EntriesOfAppend(IngredientRows(recipe, init), [row], other);
      EntriesOfOne(row, recipe);
      EntriesOfOne(row, other);
    }
  }

  /** Removing the rows of the recipes in `gone` empties their tag lists and leaves every other recipe's. */
  lemma {:induction false} TagsOfWithout(rows: seq<TagRecipe>, gone: set<Id>, recipe: Id)
    ensures TagsOf(TagRowsWithout(rows, gone), recipe) == if recipe in gone then [] else TagsOf(rows, recipe)
  {
    if rows != [] {
      var init, last := rows[..|rows| - 1], rows[|rows| - 1];
      assert rows == init + [last];
      TagsOfWithout(init, gone, recipe);
      var keep := TagRowKept(gone);
      var tail := if keep(last) then [last] else [];
      FilterAppend(init, last, keep);
      assert TagRowsWithout(rows, gone) == TagRowsWithout(init, gone) + tail;
      TagsOfAppend(TagRowsWithout(init, gone), tail, recipe);
      TagsOfAppend(init, [last], recipe);
      TagsOfOne(last, recipe);
    }
  }

  /** Removing the rows of the recipes in `gone` empties their ingredient lists and leaves every other recipe's. */
  lemma {:induction false} EntriesOfWithout(rows: seq<IngredientRecipe>, gone: set<Id>, recipe: Id)
    ensures EntriesOf(IngredientRowsWithout(rows, gone), recipe) == if recipe in gone then [] else EntriesOf(rows, recipe)
  {
    if rows != [] {
      var init, last := rows[..|rows| - 1], rows[|rows| - 1];
      assert rows == init + [last];
      EntriesOfWithout(init, gone, recipe);
      var keep := IngredientRowKept(gone);
      var tail := if keep(last) then [last] else [];
      FilterAppend(init, last, keep);
      assert IngredientRowsWithout(rows, gone) == IngredientRowsWithout(init, gone) + tail;
      EntriesOfAppend(IngredientRowsWithout(init, gone), tail, recipe);
      EntriesOfAppend(init, [last], recipe);
      EntriesOfOne(last, recipe);
    }
  }

  /** A recipe no row refers to has no tags and no entries. */
  lemma {:induction false} NoRowsNoAssociations(tagRows: seq<TagRecipe>, ingredientRows: seq<IngredientRecipe>, recipe: Id)
    requires forall row | row in tagRows :: row.recipe != recipe
    requires forall row | row in ingredientRows :: row.recipe != recipe
    ensures TagsOf(tagRows, recipe) == [] && EntriesOf(ingredientRows, recipe) == []
    decreases |tagRows| + |ingredientRows|
  {
    if tagRows != [] {
      var init := tagRows[..|tagRows| - 1];
      assert tagRows == init + [tagRows[|tagRows| - 1]];
      NoRowsNoAssociations(init, [], recipe);
    }
    if ingredientRows != [] {
      var init := ingredientRows[..|ingredientRows| - 1];
      assert ingredientRows == init + [ingredientRows[|ingredientRows| - 1]];
      NoRowsNoAssociations([], init, recipe);
    }
  }

  /** A recipe id not yet in the table has no association rows. */
  lemma NoRowsForNewRecipe(db: Db, id: Id)
    requires Valid(db)
    requires id !in RecipeIds(db.recipes)
    ensures forall row | row in db.tagRecipes :: row.recipe != id
    ensures forall row | row in db.ingredientRecipes :: row.recipe != id
  {
    forall row | row in db.ingredientRecipes ensures row.recipe != id {
      assert IngredientRecipeRowValid(row, db.ingredients, db.recipes);
    }
  }

  /**
   * Appending one row per tag and per entry for a recipe that had no rows
   * gives it exactly those tags and entries, and every other recipe keeps its own.
   */
  lemma AppendedAssociations(tagBase: seq<TagRecipe>, entryBase: seq<IngredientRecipe>, recipe: Id, ts: seq<Id>, es: seq<Entry>)
    requires forall row | row in tagBase :: row.recipe != recipe
    requires forall row | row in entryBase :: row.recipe != recipe
    requires forall e | e in es :: e.amount >= 0
    ensures TagsOf(tagBase + TagRows(recipe, ts), recipe) == ts
    ensures EntriesOf(entryBase + IngredientRows(recipe, es), recipe) == es
    ensures forall r | r != recipe :: TagsOf(tagBase + TagRows(recipe, ts), r) == TagsOf(tagBase, r)
    ensures forall r | r != recipe :: EntriesOf(entryBase + IngredientRows(recipe, es), r) == EntriesOf(entryBase, r)
  {
    NoRowsNoAssociations(tagBase, entryBase, recipe);
    forall r ensures
      && TagsOf(tagBase + TagRows(recipe, ts), r) == TagsOf(tagBase, r) + TagsOf(TagRows(recipe, ts), r)
      && EntriesOf(entryBase + IngredientRows(recipe, es), r) == EntriesOf(entryBase, r) + EntriesOf(IngredientRows(recipe, es), r)
      && TagsOf(TagRows(recipe, ts), r) == (if r == recipe then ts else [])
      && EntriesOf(IngredientRows(recipe, es), r) == (if r == recipe then es else [])
    {
      TagsOfAppend(tagBase, TagRows(recipe, ts), r);
      EntriesOfAppend(entryBase, IngredientRows(recipe, es), r);
      TagsOfTagRows(recipe, ts, r);
      EntriesOfIngredientRows(recipe, es, r);
    }
    assert TagsOf(tagBase + TagRows(recipe, ts), recipe) == TagsOf(tagBase, recipe) + ts;
    assert EntriesOf(entryBase + IngredientRows(recipe, es), recipe) == EntriesOf(entryBase, recipe) + es;
  }

  /**
   * Deleting a recipe's rows and appending one row per tag and per entry
   * gives it exactly those tags and entries, and every other recipe keeps its own.
   */
  lemma ReplacedAssociations(tagRows: seq<TagRecipe>, entryRows: seq<IngredientRecipe>, recipe: Id, ts: seq<Id>, es: seq<Entry>)
    requires forall e | e in es :: e.amount >= 0
    ensures TagsOf(TagRowsWithout(tagRows, {recipe}) + TagRows(recipe, ts), recipe) == ts
    ensures EntriesOf(IngredientRowsWithout(entryRows, {recipe}) + IngredientRows(recipe, es), recipe) == es
    ensures forall r | r != recipe :: TagsOf(TagRowsWithout(tagRows, {recipe}) + TagRows(recipe, ts), r) == TagsOf(tagRows, r)
    ensures forall r | r != recipe :: EntriesOf(IngredientRowsWithout(entryRows, {recipe}) + IngredientRows(recipe, es), r) == EntriesOf(entryRows, r)
  {
    AppendedAssociations(TagRowsWithout(tagRows, {recipe}), IngredientRowsWithout(entryRows, {recipe}), recipe, ts, es);
    forall r | r != recipe ensures
      && TagsOf(TagRowsWithout(tagRows, {recipe}), r) == TagsOf(tagRows, r)
      && EntriesOf(IngredientRowsWithout(entryRows, {recipe}), r) == EntriesOf(entryRows, r)
    {
      TagsOfWithout(tagRows, {recipe}, r);
      EntriesOfWithout(entryRows, {recipe}, r);
    }
  }

  // --------------------------------------------------------------- orderings

  function TagId(t: Tag): int { t.id }
  function UserId(u: User): int { u.id }
  function NegatedRecipeId(r: Recipe): int { -(r.id as int) }

  /** `Tag.objects.all()`: ordered by ascending id. */
  function TagListing(tags: seq<Tag>): (r: seq<Tag>)
    ensures multiset(r) == multiset(tags)
    ensures TagsValid(tags) ==> forall i, j | 0 <= i < j < |r| :: r[i].id < r[j].id
  {
    var r := SortBy(tags, TagId);
    assert TagsValid(tags) ==> forall i, j | 0 <= i < j < |r| :: r[i].id < r[j].id by {
      if TagsValid(tags) {
        forall i, j | 0 <= i < j < |tags| ensures TagId(tags[i]) != TagId(tags[j]) {
          assert TagKeysDiffer(tags[i], tags[j]);
        }
        SortByStrict(tags, TagId);
        forall i, j | 0 <= i < j < |r| ensures r[i].id < r[j].id {
          assert TagId(r[i]) < TagId(r[j]);
        }
      }
    }
    r
  }

  /** `User.objects.all()`: ordered by ascending id. */
  function UserListing(users: seq<User>): (r: seq<User>)
    ensures multiset(r) == multiset(users)
    ensures UsersValid(users) ==> forall i, j | 0 <= i < j < |r| :: r[i].id < r[j].id
  {
    var r := SortBy(users, UserId);
    assert UsersValid(users) ==> forall i, j | 0 <= i < j < |r| :: r[i].id < r[j].id by {
      if UsersValid(users) {
        forall i, j | 0 <= i < j < |users| ensures UserId(users[i]) != UserId(users[j]) {
          assert UserKeysDiffer(users[i], users[j]);
        }
        SortByStrict(users, UserId);
        forall i, j | 0 <= i < j < |r| ensures r[i].id < r[j].id {
          assert UserId(r[i]) < UserId(r[j]);
        }
      }
    }
    r
  }

  /** `Recipe.objects.all()`: ordered by descending id, newest first. */
  function RecipeListing(recipes: seq<Recipe>): (r: seq<Recipe>)
    ensures multiset(r) == multiset(recipes)
    ensures forall x :: x in r <==> x in recipes
    ensures Pairwise(recipes, RecipeKeysDiffer) ==> forall i, j | 0 <= i < j < |r| :: r[i].id > r[j].id
  {
    var r := SortBy(recipes, NegatedRecipeId);
    assert forall x :: x in r <==> x in recipes by {
      SameMembers(r, recipes);
    }
    assert Pairwise(recipes, RecipeKeysDiffer) ==> forall i, j | 0 <= i < j < |r| :: r[i].id > r[j].id by {
      if Pairwise(recipes, RecipeKeysDiffer) {
        NewestFirst(recipes, r);
      }
    }
    r
  }

  /** Sorting on the negated id puts recipes with distinct ids in descending id order. */
  lemma NewestFirst(recipes: seq<Recipe>, r: seq<Recipe>)
    requires Pairwise(recipes, RecipeKeysDiffer)
    requires r == SortBy(recipes, NegatedRecipeId)
    ensures forall i, j | 0 <= i < j < |r| :: r[i].id > r[j].id
  {
    forall i, j | 0 <= i < j < |recipes| ensures NegatedRecipeId(recipes[i]) != NegatedRecipeId(recipes[j]) {
      assert RecipeKeysDiffer(recipes[i], recipes[j]);
    }
    SortByStrict(recipes, NegatedRecipeId);
    forall i, j | 0 <= i < j < |r| ensures r[i].id > r[j].id {
      assert NegatedRecipeId(r[i]) < NegatedRecipeId(r[j]);
    }
  }
}
