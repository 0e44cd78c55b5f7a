/**
 * The query-string filters of the recipe and ingredient lists
 * (api/filters.py).  Each filter keeps the rows of its input that pass, in
 * their order; the values a filter accepts as choices are checked first, and
 * an unknown choice makes the whole request fail with 400 Bad Request.
 */
module ApiFilters {
  import opened Wrappers
  import opened Tables
  import opened Schema
  import ApiSerializers

  datatype FilterError = UnknownAuthor | UnknownTagSlug

  /** The parsed query string of the recipe list; `None` and the empty list mean the parameter is absent. */
  datatype RecipeQuery = RecipeQuery(author: Option<Id>, tags: seq<string>, isFavorited: Option<bool>, isInShoppingCart: Option<bool>)

  // ----------------------------------------------------------------- author

  /** `author = ModelChoiceFilter(queryset=User.objects.all())`. */
  function ByAuthor(db: Db, recipes: seq<Recipe>, author: Option<Id>): (r: Result<seq<Recipe>, FilterError>)
    ensures author.None? ==> r == Ok(recipes)
    ensures author.Some? && author.value !in UserIds(db.users) ==> r == Err(UnknownAuthor)
    ensures author.Some? && author.value in UserIds(db.users) ==>
      r.Ok? && forall x :: x in r.value <==> x in recipes && x.author == author.value
  {
    match author
    case None => Ok(recipes)
    case Some(a) => if a in UserIds(db.users) then Ok(Filter(recipes, ApiSerializers.ByAuthor(a))) else Err(UnknownAuthor)
  }

  // ------------------------------------------------------------------- tags

  /** A TagRecipe row ties the recipe to a tag whose slug is one of `slugs`. */
  predicate HasTagAmong(db: Db, r: Recipe, slugs: seq<string>) {
    exists row, t | row in db.tagRecipes && t in db.tags :: row.recipe == r.id && row.tag == t.id && t.slug in slugs
  }

  function TaggedAmong(db: Db, slugs: seq<string>): Recipe -> bool {
    (r: Recipe) => HasTagAmong(db, r, slugs)
  }

  /** The choices `AllValuesMultipleFilter('tags__slug')` offers: the slugs of the tags some recipe carries. */
  function SlugChoices(db: Db): set<string> {
    set row, t | row in db.tagRecipes && t in db.tags && row.tag == t.id :: t.slug
  }

  /** `tags = AllValuesMultipleFilter(field_name='tags__slug')`: a recipe passes when any of its tags has a given slug. */
  function ByTags(db: Db, recipes: seq<Recipe>, slugs: seq<string>): (r: Result<seq<Recipe>, FilterError>)
    ensures slugs == [] ==> r == Ok(recipes)
    ensures r.Err? <==> exists s | s in slugs :: s !in SlugChoices(db)
    ensures r.Ok? && slugs != [] ==> forall x :: x in r.value <==> x in recipes && HasTagAmong(db, x, slugs)
  {
    if slugs == [] then Ok(recipes)
    else if exists s | s in slugs :: s !in SlugChoices(db) then Err(UnknownTagSlug)
    else Ok(Filter(recipes, TaggedAmong(db, slugs)))
  }

  // -------------------------------------------------------- per-viewer flags

  function FavoriteOf(db: Db, user: Id): Recipe -> bool {
    (r: Recipe) => Link(user, r.id) in db.favorites
  }

  function InCartOf(db: Db, user: Id): Recipe -> bool {
    (r: Recipe) => Link(user, r.id) in db.shoppingLists
  }

  /** `RecipeFilter.get_is_favorited`. */
  function ByFavorited(db: Db, recipes: seq<Recipe>, viewer: Viewer, value: bool): (r: seq<Recipe>)
    ensures !(viewer.Account? && value) ==> r == recipes
    ensures viewer.Account? && value ==> forall x :: x in r <==> x in recipes && ApiSerializers.IsFavorited(db, viewer, x.id)
  {
    if viewer.Account? && value then Filter(recipes, FavoriteOf(db, viewer.id)) else recipes
  }

  /** `RecipeFilter.get_is_in_shopping_cart`. */
  function ByInShoppingCart(db: Db, recipes: seq<Recipe>, viewer: Viewer, value: bool): (r: seq<Recipe>)
    ensures !(viewer.Account? && value) ==> r == recipes
    ensures viewer.Account? && value ==> forall x :: x in r <==> x in recipes && ApiSerializers.IsInShoppingCart(db, viewer, x.id)
  {
    if viewer.Account? && value then Filter(recipes, InCartOf(db, viewer.id)) else recipes
  }

  /** The two flag filters give the same rows in either order. */
  lemma FlagFiltersCommute(db: Db, recipes: seq<Recipe>, viewer: Viewer, favorited: bool, inCart: bool)
    ensures ByInShoppingCart(db, ByFavorited(db, recipes, viewer, favorited), viewer, inCart)
         == ByFavorited(db, ByInShoppingCart(db, recipes, viewer, inCart), viewer, favorited)
  {
    if viewer.Account? && favorited && inCart {
      FilterCommutes(recipes, FavoriteOf(db, viewer.id), InCartOf(db, viewer.id));
    }
  }

  // ------------------------------------------------------------ the whole set

  /** Every filter of `RecipeFilter` in declaration order, after the choices are checked. */
  function FilterRecipes(db: Db, recipes: seq<Recipe>, viewer: Viewer, query: RecipeQuery): (r: Result<seq<Recipe>, FilterError>)
    ensures r.Err? <==> ((query.author.Some? && query.author.value !in UserIds(db.users)) ||
      (query.tags != [] && exists s | s in query.tags :: s !in SlugChoices(db)))
  {
    match ByAuthor(db, recipes, query.author)
    case Err(e) => Err(e)
    case Ok(byAuthor) =>
      match ByTags(db, byAuthor, query.tags)
      case Err(e) => Err(e)
      case Ok(byTags) =>
        var favorited := ByFavorited(db, byTags, viewer, query.isFavorited == Some(true));
        Ok(ByInShoppingCart(db, favorited, viewer, query.isInShoppingCart == Some(true)))
  }

  /** A recipe is listed exactly when it passes every filter the query names. */
  lemma FilterRecipesExact(db: Db, recipes: seq<Recipe>, viewer: Viewer, query: RecipeQuery, x: Recipe)
    requires FilterRecipes(db, recipes, viewer, query).Ok?
    ensures x in FilterRecipes(db, recipes, viewer, query).value <==>
      && x in recipes
      && (query.author.Some? ==> x.author == query.author.value)
      && (query.tags != [] ==> HasTagAmong(db, x, query.tags))
      && (query.isFavorited == Some(true) ==> !viewer.Account? || Link(viewer.id, x.id) in db.favorites)
      && (query.isInShoppingCart == Some(true) ==> !viewer.Account? || Link(viewer.id, x.id) in db.shoppingLists)
  {
  }

  /** Filtering keeps the rows in their order, so the recipe list stays newest first. */
  lemma FilterRecipesNewestFirst(db: Db, viewer: Viewer, query: RecipeQuery)
    requires Valid(db)
    requires FilterRecipes(db, RecipeListing(db.recipes), viewer, query).Ok?
    ensures Pairwise(FilterRecipes(db, RecipeListing(db.recipes), viewer, query).value, ApiSerializers.NewerFirst)
  {
    var s0 := RecipeListing(db.recipes);
    assert Pairwise(s0, ApiSerializers.NewerFirst);
    var s1 := ByAuthor(db, s0, query.author).value;
    assert Pairwise(s1, ApiSerializers.NewerFirst) by {
      if query.author.Some? { FilterPairwise(s0, ApiSerializers.ByAuthor(query.author.value), ApiSerializers.NewerFirst); }
    }
    var s2 := ByTags(db, s1, query.tags).value;
    assert Pairwise(s2, ApiSerializers.NewerFirst) by {
      if query.tags != [] { FilterPairwise(s1, TaggedAmong(db, query.tags), ApiSerializers.NewerFirst); }
    }
    var s3 := ByFavorited(db, s2, viewer, query.isFavorited == Some(true));
    assert Pairwise(s3, ApiSerializers.NewerFirst) by {
      if viewer.Account? && query.isFavorited == Some(true) { FilterPairwise(s2, FavoriteOf(db, viewer.id), ApiSerializers.NewerFirst); }
    }
    if viewer.Account? && query.isInShoppingCart == Some(true) {
      FilterPairwise(s3, InCartOf(db, viewer.id), ApiSerializers.NewerFirst);
    }
  }

  // ------------------------------------------------------------- ingredients

  function NameStartsWith(prefix: string): Ingredient -> bool {
    (i: Ingredient) => prefix <= i.name
  }

  /**
   * `IngredientFilter.name` (`startswith`).  The form field strips the query
   * value first, and a value that strips to nothing is no filter.
   */
  function IngredientsByName(ingredients: seq<Ingredient>, name: string): (r: seq<Ingredient>)
    ensures Strip(name) == "" ==> r == ingredients
    ensures forall x :: x in r <==> x in ingredients && Strip(name) <= x.name
  {
    var prefix := Strip(name);
    if prefix == "" then ingredients else Filter(ingredients, NameStartsWith(prefix))
  }
}
