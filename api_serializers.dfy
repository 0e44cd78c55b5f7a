/**
 * The serializers of the API app (api/serializers.py): the recipe write path
 * (`validate`, `create`, `update`), the checks behind adding a favorite, a
 * shopping-cart entry or a subscription, the per-viewer flags, an author's
 * recipe list, and registration's unique checks.
 */
module ApiSerializers {
  import opened Wrappers
  import opened Tables
  import opened Schema
  import opened Database
  import opened Responses

  // ------------------------------------------------- RecipePostPatchSerializer

  /** The validated body of a recipe POST or PATCH (the image is not modelled). */
  datatype RecipeInput = RecipeInput(tags: seq<Id>, ingredients: seq<Entry>, name: string, text: string, cookingTime: int)

  datatype RecipeError = DuplicateEntry(entry: Entry) | AmountTooLow(entry: Entry) | CookingTimeTooLow

  /** An entry gets through both checks of the loop: it occurs once in the list, and its amount is at least MIN_AMOUNT. */
  predicate EntryPasses(es: seq<Entry>, e: Entry) {
    multiset(es)[e] <= 1 && e.amount >= MIN_AMOUNT
  }

  /** The error the loop raises at a failing entry: a repeat is reported before a low amount. */
  function EntryError(es: seq<Entry>, e: Entry): RecipeError {
    if multiset(es)[e] > 1 then DuplicateEntry(e) else AmountTooLow(e)
  }

  /** The loop of `validate` from position `i` on: the first entry that fails a check decides the error. */
  function FirstEntryError(es: seq<Entry>, i: nat): (r: Option<RecipeError>)
    requires i <= |es|
    ensures r.None? <==> forall k | i <= k < |es| :: EntryPasses(es, es[k])
    ensures r.Some? ==> exists k | i <= k < |es| ::
      && (forall j | i <= j < k :: EntryPasses(es, es[j]))
      && !EntryPasses(es, es[k])
      && r.value == EntryError(es, es[k])
    decreases |es| - i
  {
    if i == |es| then None
    else if multiset(es)[es[i]] > 1 then Some(DuplicateEntry(es[i]))
    else if es[i].amount < MIN_AMOUNT then Some(AmountTooLow(es[i]))
    else
      var r := FirstEntryError(es, i + 1);
      assert EntryPasses(es, es[i]);
      assert r.Some? ==> exists k | i <= k < |es| ::
        && (forall j | i <= j < k :: EntryPasses(es, es[j]))
        && !EntryPasses(es, es[k])
        && r.value == EntryError(es, es[k])
      by {
        if r.Some? {
          var k :| && i + 1 <= k < |es|
                   && (forall j | i + 1 <= j < k :: EntryPasses(es, es[j]))
                   && !EntryPasses(es, es[k])
                   && r.value == EntryError(es, es[k]);
          assert forall j | i <= j < k :: EntryPasses(es, es[j]);
        }
      }
      r
  }

  /** What `validate` accepts: no entry repeated as a whole, every amount and the cooking time at their minimum or above. */
  predicate WellFormed(data: RecipeInput) {
    && (forall e | e in data.ingredients :: EntryPasses(data.ingredients, e))
    && data.cookingTime >= MIN_COOKING_TIME
  }

  /** `RecipePostPatchSerializer.validate`. */
  function ValidateRecipe(data: RecipeInput): (r: Result<RecipeInput, RecipeError>)
    ensures r.Ok? <==> WellFormed(data)
    ensures r.Ok? ==> r.value == data
    ensures r == Err(CookingTimeTooLow) ==>
      && (forall e | e in data.ingredients :: EntryPasses(data.ingredients, e))
      && data.cookingTime < MIN_COOKING_TIME
    ensures r.Err? && r.error != CookingTimeTooLow ==> exists k | 0 <= k < |data.ingredients| ::
      && (forall j | 0 <= j < k :: EntryPasses(data.ingredients, data.ingredients[j]))
      && !EntryPasses(data.ingredients, data.ingredients[k])
      && r.error == EntryError(data.ingredients, data.ingredients[k])
  {
    match FirstEntryError(data.ingredients, 0)
    case Some(err) => Err(err)
    case None => if data.cookingTime < MIN_COOKING_TIME then Err(CookingTimeTooLow) else Ok(data)
  }

  /** Two entries for the same ingredient. */
  predicate EntryKeysDiffer(a: Entry, b: Entry) {
    a.ingredient != b.ingredient
  }

  /** One TagRecipe row per tag can be inserted: every tag exists and none repeats. */
  predicate TagsInsertable(db: Db, ts: seq<Id>) {
    Distinct(ts) && forall t | t in ts :: t in TagIds(db.tags)
  }

  /** One IngredientRecipe row per entry can be inserted: every ingredient exists, none repeats, every amount is a smallint. */
  predicate EntriesInsertable(db: Db, es: seq<Entry>) {
    && Pairwise(es, EntryKeysDiffer)
    && forall e | e in es :: e.ingredient in IngredientIds(db.ingredients) && e.amount <= SMALL_MAX
  }

  /** Every insert `create` makes meets the database's constraints. */
  predicate CreateAllowed(db: Db, author: Id, data: RecipeInput) {
    && author in UserIds(db.users)
    && data.name !in RecipeNames(db.recipes)
    && data.cookingTime <= SMALL_MAX
    && TagsInsertable(db, data.tags)
    && EntriesInsertable(db, data.ingredients)
  }

  /** Every write `update` makes meets the database's constraints. */
  predicate UpdateAllowed(db: Db, id: Id, author: Option<Id>, data: RecipeInput) {
    && (author.Some? ==> author.value in UserIds(db.users))
    && (forall r | r in db.recipes && r.id != id :: r.name != data.name)
    && data.cookingTime <= SMALL_MAX
    && TagsInsertable(db, data.tags)
    && EntriesInsertable(db, data.ingredients)
  }

  // ------------------------------------------------------- field validation

  /** `max_length` of `Recipe.name`. */
  const NAME_MAX_LENGTH: int := 200

  /** An error one of the serializer's fields reports before `validate` runs. */
  datatype RecipeFieldError =
    | UnknownTag(tag: Id)
    | UnknownIngredient(ingredient: Id)
    | AmountOutOfRange(entry: Entry)
    | NameBlank
    | NameTooLong
    | NameTaken
    | TextBlank
    | CookingTimeOutOfRange
    | UnknownAuthor(author: Id)

  /**
   * What the fields of a recipe body accept: every tag and ingredient id
   * names a row (PrimaryKeyRelatedField), every amount and the cooking time
   * lie between their MinValueValidator and the smallint maximum, the name
   * is non-blank, at most NAME_MAX_LENGTH long and not the name of another
   * recipe (the UniqueValidator, which leaves out the instance a PATCH
   * edits), the text is non-blank, and an author given names a user.
   */
  predicate FieldsValid(db: Db, data: RecipeInput, instance: Option<Id>, author: Option<Id>) {
    && (forall t | t in data.tags :: t in TagIds(db.tags))
    && (forall e | e in data.ingredients :: e.ingredient in IngredientIds(db.ingredients))
    && (forall e | e in data.ingredients :: MIN_AMOUNT <= e.amount <= SMALL_MAX)
    && 0 < |data.name| <= NAME_MAX_LENGTH
    && (forall r | r in db.recipes && Some(r.id) != instance :: r.name != data.name)
    && |data.text| > 0
    && MIN_COOKING_TIME <= data.cookingTime <= SMALL_MAX
    && (author.Some? ==> author.value in UserIds(db.users))
  }

  /** The errors of the `tags` field: one per id that names no tag. */
  function TagErrors(db: Db, tags: seq<Id>): (errs: set<RecipeFieldError>)
    ensures errs == {} <==> forall t | t in tags :: t in TagIds(db.tags)
  {
    var errs := set t | t in tags && t !in TagIds(db.tags) :: UnknownTag(t);
    assert forall t | t in tags && t !in TagIds(db.tags) :: UnknownTag(t) in errs;
    errs
  }

  /** The errors of the nested `ingredients` field: an unknown id, an amount out of range. */
  function EntryErrors(db: Db, es: seq<Entry>): (errs: set<RecipeFieldError>)
    ensures errs == {} <==> forall e | e in es :: e.ingredient in IngredientIds(db.ingredients) && MIN_AMOUNT <= e.amount <= SMALL_MAX
  {
    var unknown := set e | e in es && e.ingredient !in IngredientIds(db.ingredients) :: UnknownIngredient(e.ingredient);
    var amounts := set e | e in es && !(MIN_AMOUNT <= e.amount <= SMALL_MAX) :: AmountOutOfRange(e);
    assert forall e | e in es && e.ingredient !in IngredientIds(db.ingredients) :: UnknownIngredient(e.ingredient) in unknown;
    assert forall e | e in es && !(MIN_AMOUNT <= e.amount <= SMALL_MAX) :: AmountOutOfRange(e) in amounts;
    unknown + amounts
  }

  /** The errors of the `name` field: blank, too long, or the name of another recipe. */
  function NameErrors(db: Db, name: string, instance: Option<Id>): (errs: set<RecipeFieldError>)
    ensures errs == {} <==> 0 < |name| <= NAME_MAX_LENGTH && forall r | r in db.recipes && Some(r.id) != instance :: r.name != name
  {
    (if |name| == 0 then {NameBlank} else {})
    + (if |name| > NAME_MAX_LENGTH then {NameTooLong} else {})
    + (if exists r | r in db.recipes && Some(r.id) != instance :: r.name == name then {NameTaken} else {})
  }

  /** The errors `is_valid` collects from the fields, all of them at once. */
  function RecipeFieldErrors(db: Db, data: RecipeInput, instance: Option<Id>, author: Option<Id>): (errs: set<RecipeFieldError>)
    ensures errs == {} <==> FieldsValid(db, data, instance, author)
  {
    TagErrors(db, data.tags) + EntryErrors(db, data.ingredients) + NameErrors(db, data.name, instance)
      + (if |data.text| == 0 then {TextBlank} else {})
      + (if !(MIN_COOKING_TIME <= data.cookingTime <= SMALL_MAX) then {CookingTimeOutOfRange} else {})
      + (if author.Some? && author.value !in UserIds(db.users) then {UnknownAuthor(author.value)} else {})
  }

  /** Why `is_valid` refuses a recipe body: the fields' errors, or the one `validate` raises. */
  datatype BodyError = FieldErrors(errors: set<RecipeFieldError>) | Invalid(error: RecipeError)

  /**
   * `is_valid()` on a recipe body: the field checks first, and `validate`
   * only once they all pass.  The amount and time checks of `validate` then
   * never fire, because the fields have already bounded those values from
   * below, so the only error `validate` can still raise is a repeated entry.
   * `instance` is the recipe a PATCH edits, `author` the author id the
   * body's data carries.
   */
  function ValidateRecipeBody(db: Db, data: RecipeInput, instance: Option<Id>, author: Option<Id>): (r: Result<RecipeInput, BodyError>)
    ensures r.Ok? <==> FieldsValid(db, data, instance, author) && WellFormed(data)
    ensures r.Ok? ==> r.value == data
    ensures r.Err? && r.error.FieldErrors? ==> r.error.errors != {} && !FieldsValid(db, data, instance, author)
    ensures r.Err? && r.error.Invalid? ==> FieldsValid(db, data, instance, author) && r.error.error.DuplicateEntry?
  {
    var errs := RecipeFieldErrors(db, data, instance, author);
    if errs != {} then Err(FieldErrors(errs))
    else match ValidateRecipe(data)
      case Ok(v) => Ok(v)
      case Err(e) => Err(Invalid(e))
  }

  /**
   * Once a body passes `is_valid`, `create` can still fail on one thing
   * only: a tag or an ingredient given twice, which breaks a unique
   * constraint of the association tables.
   */
  lemma CreateFailsOnlyOnRepeats(db: Db, author: Id, data: RecipeInput)
    requires ValidateRecipeBody(db, data, None, Some(author)).Ok?
    ensures CreateAllowed(db, author, data) <==> Distinct(data.tags) && Pairwise(data.ingredients, EntryKeysDiffer)
  {
    forall r | r in db.recipes ensures r.name != data.name {
      assert Some(r.id) != None;
    }
  }

  /** The same for `update`: after `is_valid`, only a repeated tag or ingredient makes it fail. */
  lemma UpdateFailsOnlyOnRepeats(db: Db, id: Id, author: Option<Id>, data: RecipeInput)
    requires ValidateRecipeBody(db, data, Some(id), author).Ok?
    ensures UpdateAllowed(db, id, author, data) <==> Distinct(data.tags) && Pairwise(data.ingredients, EntryKeysDiffer)
  {
    assert forall r | r in db.recipes && r.id != id :: r.name != data.name by {
      forall r | r in db.recipes && r.id != id ensures r.name != data.name {
        assert Some(r.id) != Some(id);
      }
    }
  }

  /**
   * `validate` compares whole entries, so one ingredient listed with two
   * different amounts gets through `is_valid`; the unique (ingredient,
   * recipe) constraint then makes `create` fail.
   */
  lemma SameIngredientTwicePassesValidation(db: Db, author: Id, ingredient: Id, a: int, b: int, name: string, text: string, time: int)
    requires author in UserIds(db.users)
    requires ingredient in IngredientIds(db.ingredients)
    requires a != b && MIN_AMOUNT <= a <= SMALL_MAX && MIN_AMOUNT <= b <= SMALL_MAX
    requires 0 < |name| <= NAME_MAX_LENGTH && name !in RecipeNames(db.recipes)
    requires |text| > 0 && MIN_COOKING_TIME <= time <= SMALL_MAX
    ensures var data := RecipeInput([], [Entry(ingredient, a), Entry(ingredient, b)], name, text, time);
      ValidateRecipeBody(db, data, None, Some(author)).Ok? && !CreateAllowed(db, author, data)
  {
    var data := RecipeInput([], [Entry(ingredient, a), Entry(ingredient, b)], name, text, time);
    var es := data.ingredients;
    assert multiset(es)[es[0]] == 1 && multiset(es)[es[1]] == 1;
    assert !EntryKeysDiffer(es[0], es[1]);
    forall r | r in db.recipes ensures r.name != data.name {
      assert r.name in RecipeNames(db.recipes);
    }
    assert FieldsValid(db, data, None, Some(author));
  }

  /** When the rows already inserted hold tag `i`, an earlier position holds it too. */
  lemma TagClash(base: seq<TagRecipe>, recipe: Id, ts: seq<Id>, i: nat)
    requires i < |ts|
    requires forall row | row in base :: row.recipe != recipe
    requires TagRecipe(ts[i], recipe) in base + TagRows(recipe, ts[..i])
    ensures !Distinct(ts)
  {
    assert TagRecipe(ts[i], recipe) in TagRows(recipe, ts[..i]);
    var j :| 0 <= j < i && ts[j] == ts[i];
  }

  /** A tag whose row could be inserted extends the insertable prefix by one. */
  lemma TagStep(db: Db, base: seq<TagRecipe>, recipe: Id, ts: seq<Id>, i: nat)
    requires i < |ts|
    requires TagsInsertable(db, ts[..i])
    requires ts[i] in TagIds(db.tags)
    requires TagRecipe(ts[i], recipe) !in base + TagRows(recipe, ts[..i])
    ensures TagsInsertable(db, ts[..i + 1])
    ensures base + TagRows(recipe, ts[..i + 1]) == base + TagRows(recipe, ts[..i]) + [TagRecipe(ts[i], recipe)]
  {
    assert ts[i] !in ts[..i];
    assert ts[..i + 1] == ts[..i] + [ts[i]];
    assert ts[..i + 1][..i] == ts[..i];
    DistinctAppend(ts[..i], ts[i]);
  }

  /** The loop `for tag in tags: TagRecipe.objects.create(recipe=..., tag=tag)`. */
  method InsertTags(store: Store, recipe: Id, ts: seq<Id>) returns (ok: bool)
    requires store.Valid()
    requires recipe in RecipeIds(store.recipes)
    requires forall row | row in store.tagRecipes :: row.recipe != recipe
    modifies store
    ensures store.Valid()
    ensures ok <==> TagsInsertable(old(store.State()), ts)
    ensures ok ==> store.State() == old(store.State()).(tagRecipes := old(store.tagRecipes) + TagRows(recipe, ts))
    ensures store.nextUserId == old(store.nextUserId) && store.nextRecipeId == old(store.nextRecipeId)
  {
    ghost var start := store.State();
    var base := store.tagRecipes;
    var i := 0;
    while i < |ts|
      invariant 0 <= i <= |ts|
      invariant store.Valid()
      invariant store.State() == start.(tagRecipes := base + TagRows(recipe, ts[..i]))
      invariant TagsInsertable(start, ts[..i])
      invariant store.nextUserId == old(store.nextUserId) && store.nextRecipeId == old(store.nextRecipeId)
    {
      var t := ts[i];
      ok := store.InsertTagRecipe(t, recipe);
      if !ok {
        assert !TagsInsertable(start, ts) by {
          if t in TagIds(start.tags) {
            TagClash(base, recipe, ts, i);
          }
        }
        return;
      }
      TagStep(start, base, recipe, ts, i);
      i := i + 1;
    }
    assert ts[..i] == ts;
    ok := true;
  }

  /** When the rows already inserted hold the ingredient of entry `i`, an earlier entry names it too. */
  lemma EntryClash(base: seq<IngredientRecipe>, recipe: Id, es: seq<Entry>, i: nat)
    requires i < |es|
    requires forall e | e in es :: e.amount >= 0
    requires forall row | row in base :: row.recipe != recipe
    requires exists row | row in base + IngredientRows(recipe, es[..i]) :: row.ingredient == es[i].ingredient && row.recipe == recipe
    ensures !Pairwise(es, EntryKeysDiffer)
  {
    var row :| row in base + IngredientRows(recipe, es[..i]) && row.ingredient == es[i].ingredient && row.recipe == recipe;
    assert row in IngredientRows(recipe, es[..i]);
    IngredientRowsFrom(recipe, es[..i], row);
    var j :| 0 <= j < i && es[..i][j].ingredient == es[i].ingredient;
    assert !EntryKeysDiffer(es[j], es[i]);
  }

  /** An entry whose row could be inserted extends the insertable prefix by one. */
  lemma EntryStep(db: Db, base: seq<IngredientRecipe>, recipe: Id, es: seq<Entry>, i: nat)
    requires i < |es|
    requires forall e | e in es :: e.amount >= 0
    requires EntriesInsertable(db, es[..i])
    requires es[i].ingredient in IngredientIds(db.ingredients) && es[i].amount <= SMALL_MAX
    requires forall row | row in base + IngredientRows(recipe, es[..i]) :: !(row.ingredient == es[i].ingredient && row.recipe == recipe)
    ensures EntriesInsertable(db, es[..i + 1])
    ensures base + IngredientRows(recipe, es[..i + 1]) ==
      base + IngredientRows(recipe, es[..i]) + [IngredientRecipe(es[i].ingredient, recipe, es[i].amount)]
  {
    forall y | y in es[..i] ensures EntryKeysDiffer(y, es[i]) {
      assert IngredientRecipe(y.ingredient, recipe, y.amount) in IngredientRows(recipe, es[..i]);
    }
    assert es[..i + 1] == es[..i] + [es[i]];
    assert es[..i + 1][..i] == es[..i];
    PairwiseAppend(es[..i], es[i], EntryKeysDiffer);
  }

  /** The loop `for ingredient in ingredients: IngredientRecipe.objects.create(...)`. */
  method InsertEntries(store: Store, recipe: Id, es: seq<Entry>) returns (ok: bool)
    requires store.Valid()
    requires recipe in RecipeIds(store.recipes)
    requires forall row | row in store.ingredientRecipes :: row.recipe != recipe
    requires forall e | e in es :: e.amount >= MIN_AMOUNT
    modifies store
    ensures store.Valid()
    ensures ok <==> EntriesInsertable(old(store.State()), es)
    ensures ok ==> store.State() == old(store.State()).(ingredientRecipes := old(store.ingredientRecipes) + IngredientRows(recipe, es))
    ensures store.nextUserId == old(store.nextUserId) && store.nextRecipeId == old(store.nextRecipeId)
  {
    ghost var start := store.State();
    var base := store.ingredientRecipes;
    var i := 0;
    while i < |es|
      invariant 0 <= i <= |es|
      invariant store.Valid()
      invariant store.State() == start.(ingredientRecipes := base + IngredientRows(recipe, es[..i]))
      invariant EntriesInsertable(start, es[..i])
      invariant store.nextUserId == old(store.nextUserId) && store.nextRecipeId == old(store.nextRecipeId)
    {
      var e := es[i];
      assert e in es;
      ok := store.InsertIngredientRecipe(e.ingredient, recipe, e.amount);
      if !ok {
        assert !EntriesInsertable(start, es) by {
          if e.ingredient in IngredientIds(start.ingredients) && e.amount <= SMALL_MAX {
            EntryClash(base, recipe, es, i);
          }
        }
        return;
      }
      EntryStep(start, base, recipe, es, i);
      i := i + 1;
    }
    assert es[..i] == es;
    ok := true;
  }

  /**
   * The two loops `create` and `update` both end with: one TagRecipe row per
   * tag, then one IngredientRecipe row per entry, for a recipe that has none.
   */
  method InsertAssociations(store: Store, recipe: Id, ts: seq<Id>, es: seq<Entry>) returns (ok: bool)
    requires store.Valid()
    requires recipe in RecipeIds(store.recipes)
    requires forall row | row in store.tagRecipes :: row.recipe != recipe
    requires forall row | row in store.ingredientRecipes :: row.recipe != recipe
    requires forall e | e in es :: e.amount >= MIN_AMOUNT
    modifies store
    ensures store.Valid()
    ensures ok <==> TagsInsertable(old(store.State()), ts) && EntriesInsertable(old(store.State()), es)
    ensures ok ==> store.State() == old(store.State()).(
      tagRecipes := old(store.tagRecipes) + TagRows(recipe, ts),
      ingredientRecipes := old(store.ingredientRecipes) + IngredientRows(recipe, es))
    ensures store.nextUserId == old(store.nextUserId) && store.nextRecipeId == old(store.nextRecipeId)
  {
    ghost var start := store.State();
    ok := InsertTags(store, recipe, ts);
    if ok {
      assert store.ingredients == start.ingredients && store.ingredientRecipes == start.ingredientRecipes;
      ok := InsertEntries(store, recipe, es);
    }
  }

  /**
   * `RecipePostPatchSerializer.create`, inside `transaction.atomic`: one
   * recipe row, then one TagRecipe row per tag and one IngredientRecipe row
   * per entry; an IntegrityError on any of them rolls everything back.
   */
  method CreateRecipe(store: Store, author: Id, data: RecipeInput) returns (id: Option<Id>)
    requires store.Valid()
    requires WellFormed(data)
    modifies store
    ensures store.Valid()
    ensures id.Some? <==> CreateAllowed(old(store.State()), author, data)
    ensures id.None? ==> store.State() == old(store.State())
    ensures id.Some? ==> id.value !in RecipeIds(old(store.recipes))
    ensures id.Some? ==> store.State() == old(store.State()).(
      recipes := old(store.recipes) + [Recipe(id.value, author, data.name, data.text, data.cookingTime)],
      tagRecipes := old(store.tagRecipes) + TagRows(id.value, data.tags),
      ingredientRecipes := old(store.ingredientRecipes) + IngredientRows(id.value, data.ingredients))
    ensures id.Some? ==> TagsOf(store.tagRecipes, id.value) == data.tags
    ensures id.Some? ==> EntriesOf(store.ingredientRecipes, id.value) == data.ingredients
    ensures forall r | id.None? || r != id.value ::
      TagsOf(store.tagRecipes, r) == TagsOf(old(store.tagRecipes), r) &&
      EntriesOf(store.ingredientRecipes, r) == EntriesOf(old(store.ingredientRecipes), r)
  {
    var snapshot := store.State();
    assert forall e | e in data.ingredients :: e.amount >= MIN_AMOUNT;
    id := store.InsertRecipe(author, data.name, data.text, data.cookingTime);
    if id.None? {
      assert !CreateAllowed(snapshot, author, data);
      return;
    }
    var rid := id.value;
    NoRowsForNewRecipe(snapshot, rid);
    assert rid in RecipeIds(store.recipes) by {
      assert store.recipes[|store.recipes| - 1].id == rid;
    }
    ghost var mid := store.State();
    assert mid.tags == snapshot.tags && mid.ingredients == snapshot.ingredients;
    assert TagsInsertable(mid, data.tags) == TagsInsertable(snapshot, data.tags);
    assert EntriesInsertable(mid, data.ingredients) == EntriesInsertable(snapshot, data.ingredients);
    var ok := InsertAssociations(store, rid, data.tags, data.ingredients);
    if !ok {
      assert !CreateAllowed(snapshot, author, data);
      store.Restore(snapshot);
      id := None;
      return;
    }
    assert CreateAllowed(snapshot, author, data);
    AppendedAssociations(snapshot.tagRecipes, snapshot.ingredientRecipes, rid, data.tags, data.ingredients);
  }

  /**
   * `RecipePostPatchSerializer.update`, inside `transaction.atomic`: the
   * recipe's fields are saved, all its TagRecipe and IngredientRecipe rows
   * deleted, and one row per input tag and entry inserted.  `author` is the
   * author the validated data holds, if any: the value the request gives;
   * on a full update (PUT) that omits it, the requesting user, through
   * `CurrentUserDefault`; on a partial update (PATCH) that omits it, none,
   * and the recipe keeps its author.
   */
  method UpdateRecipe(store: Store, id: Id, author: Option<Id>, data: RecipeInput) returns (ok: bool)
    requires store.Valid()
    requires id in RecipeIds(store.recipes)
    requires WellFormed(data)
    modifies store
    ensures store.Valid()
    ensures ok <==> UpdateAllowed(old(store.State()), id, author, data)
    ensures !ok ==> store.State() == old(store.State())
    ensures ok ==> store.State() == old(store.State()).(
      recipes := RecipesEdited(old(store.recipes), id, author, data.name, data.text, data.cookingTime),
      tagRecipes := TagRowsWithout(old(store.tagRecipes), {id}) + TagRows(id, data.tags),
      ingredientRecipes := IngredientRowsWithout(old(store.ingredientRecipes), {id}) + IngredientRows(id, data.ingredients))
    ensures ok ==> TagsOf(store.tagRecipes, id) == data.tags
    ensures ok ==> EntriesOf(store.ingredientRecipes, id) == data.ingredients
    ensures forall r | r != id ::
      TagsOf(store.tagRecipes, r) == TagsOf(old(store.tagRecipes), r) &&
      EntriesOf(store.ingredientRecipes, r) == EntriesOf(old(store.ingredientRecipes), r)
  {
    var snapshot := store.State();
    assert forall e | e in data.ingredients :: e.amount >= MIN_AMOUNT;
    ok := store.SaveRecipe(id, author, data.name, data.text, data.cookingTime);
    if !ok {
      return;
    }
    store.DeleteTagRows(id);
    store.DeleteIngredientRows(id);
    assert id in RecipeIds(store.recipes);
    ghost var mid := store.State();
    assert mid.tags == snapshot.tags && mid.ingredients == snapshot.ingredients;
    assert TagsInsertable(mid, data.tags) == TagsInsertable(snapshot, data.tags);
    assert EntriesInsertable(mid, data.ingredients) == EntriesInsertable(snapshot, data.ingredients);
    ok := InsertAssociations(store, id, data.tags, data.ingredients);
    if !ok {
      assert !UpdateAllowed(snapshot, id, author, data);
      store.Restore(snapshot);
      return;
    }
    assert UpdateAllowed(snapshot, id, author, data);
    ReplacedAssociations(snapshot.tagRecipes, snapshot.ingredientRecipes, id, data.tags, data.ingredients);
  }

  // ------------------------------------------------------ RecipeShortSerializer

  /** The `model` entry of the serializer's context. */
  datatype ShortContext = FavoriteContext | ShoppingCartContext | OtherContext

  /** `RecipeShortSerializer.validate`: refuses a pair that is already in the table the context names. */
  function ValidateShort(db: Db, ctx: ShortContext, user: Id, recipe: Id): (v: Verdict)
    ensures ctx == FavoriteContext ==>
      (v.Pass? <==> Link(user, recipe) !in db.favorites) && (v.Reject? ==> v.reason == AlreadyFavorited)
    ensures ctx == ShoppingCartContext ==>
      (v.Pass? <==> Link(user, recipe) !in db.shoppingLists) && (v.Reject? ==> v.reason == AlreadyInCart)
    ensures ctx == OtherContext ==> v == Pass
  {
    if ctx == FavoriteContext && exists l | l in db.favorites :: l.actor == user && l.target == recipe then
      Reject(AlreadyFavorited)
    else if ctx == ShoppingCartContext && exists l | l in db.shoppingLists :: l.actor == user && l.target == recipe then
      Reject(AlreadyInCart)
    else Pass
  }

  /** The relation table a context checks. */
  function ContextKind(ctx: ShortContext): Kind
    requires ctx != OtherContext
  {
    if ctx == FavoriteContext then Favorites else ShoppingLists
  }

  /** Once the check passes for an existing user and recipe, the insert that follows it meets every constraint. */
  lemma ShortPassInsertable(db: Db, ctx: ShortContext, user: Id, recipe: Id)
    requires ctx != OtherContext
    requires user in UserIds(db.users) && recipe in RecipeIds(db.recipes)
    ensures ValidateShort(db, ctx, user, recipe).Pass? <==> LinkInsertable(db, ContextKind(ctx), Link(user, recipe))
  {
  }

  // -------------------------------------------------------- SubscribeSerializer

  /** `SubscribeSerializer.validate`: an existing subscription is reported before a self-subscription. */
  function ValidateSubscribe(db: Db, subscriber: Id, author: Id): (v: Verdict)
    ensures Link(subscriber, author) in db.subscriptions ==> v == Reject(AlreadySubscribed)
    ensures Link(subscriber, author) !in db.subscriptions && subscriber == author ==> v == Reject(SelfSubscription)
    ensures v.Pass? <==> Link(subscriber, author) !in db.subscriptions && subscriber != author
  {
    if exists l | l in db.subscriptions :: l.actor == subscriber && l.target == author then Reject(AlreadySubscribed)
    else if author == subscriber then Reject(SelfSubscription)
    else Pass
  }

  /** The serializer's checks cover every constraint of the Subscription table but the foreign keys. */
  lemma SubscribePassInsertable(db: Db, subscriber: Id, author: Id)
    requires subscriber in UserIds(db.users) && author in UserIds(db.users)
    ensures ValidateSubscribe(db, subscriber, author).Pass? <==> LinkInsertable(db, Subscriptions, Link(subscriber, author))
  {
  }

  // ------------------------------------------------------------ per-viewer flags

  /** Whether the viewer has a row to `target` in `rows`; the anonymous viewer has none. */
  function Related(rows: seq<Link>, viewer: Viewer, target: Id): (b: bool)
    ensures viewer.Anonymous? ==> !b
    ensures viewer.Account? ==> (b <==> Link(viewer.id, target) in rows)
  {
    match viewer
    case Anonymous => false
    case Account(id, _) => exists l | l in rows :: l.actor == id && l.target == target
  }

  /** `get_is_subscribed` of UserSerializer and SubscribeSerializer. */
  function IsSubscribed(db: Db, viewer: Viewer, author: Id): (b: bool)
    ensures viewer.Anonymous? ==> !b
    ensures viewer.Account? ==> (b <==> Link(viewer.id, author) in db.subscriptions)
  {
    Related(db.subscriptions, viewer, author)
  }

  /** `RecipeGetSerializer.get_is_favorited`. */
  function IsFavorited(db: Db, viewer: Viewer, recipe: Id): (b: bool)
    ensures viewer.Anonymous? ==> !b
    ensures viewer.Account? ==> (b <==> Link(viewer.id, recipe) in db.favorites)
  {
    Related(db.favorites, viewer, recipe)
  }

  /** `RecipeGetSerializer.get_is_in_shopping_cart`. */
  function IsInShoppingCart(db: Db, viewer: Viewer, recipe: Id): (b: bool)
    ensures viewer.Anonymous? ==> !b
    ensures viewer.Account? ==> (b <==> Link(viewer.id, recipe) in db.shoppingLists)
  {
    Related(db.shoppingLists, viewer, recipe)
  }

  /** In a consistent database nobody is shown as subscribed to themselves, nor to an account that does not exist. */
  lemma SubscribedToAnother(db: Db, viewer: Viewer, author: Id)
    requires Valid(db)
    requires IsSubscribed(db, viewer, author)
    ensures viewer.Account? && viewer.id != author && author in UserIds(db.users)
  {
    assert Link(viewer.id, author) in db.subscriptions;
  }

  // ------------------------------------------------------------ an author's recipes

  /** Rows written by `author`. */
  function ByAuthor(author: Id): Recipe -> bool {
    (r: Recipe) => r.author == author
  }

  predicate NewerFirst(a: Recipe, b: Recipe) {
    a.id > b.id
  }

  /** `author.recipes.all()`: the author's recipes, newest first. */
  function AuthorRecipes(db: Db, author: Id): (rs: seq<Recipe>)
    ensures forall r :: r in rs <==> r in db.recipes && r.author == author
    ensures Pairwise(db.recipes, RecipeKeysDiffer) ==> Pairwise(rs, NewerFirst)
  {
    var listing := RecipeListing(db.recipes);
    assert Pairwise(db.recipes, RecipeKeysDiffer) ==> Pairwise(Filter(listing, ByAuthor(author)), NewerFirst) by {
      if Pairwise(db.recipes, RecipeKeysDiffer) {
        FilterPairwise(listing, ByAuthor(author), NewerFirst);
      }
    }
    Filter(listing, ByAuthor(author))
  }

  /** Why `int(recipes_limit)` or the slice it feeds fails (both end in a server error). */
  datatype LimitError = NotAnInteger | NegativeLimit

  predicate AllDigits(s: string) {
    |s| >= 1 && forall i | 0 <= i < |s| :: '0' <= s[i] <= '9'
  }

  /** `int(s)` on an optionally signed decimal literal. */
  function ParseLimit(s: string): (r: Result<int, LimitError>)
    ensures AllDigits(s) ==> r == Ok(ParseNat(s))
    ensures r.Ok? && r.value < 0 ==> |s| >= 2 && s[0] == '-'
  {
    if |s| >= 1 && (s[0] == '-' || s[0] == '+') && AllDigits(s[1..]) then
      Ok(if s[0] == '-' then -(ParseNat(s[1..]) as int) else ParseNat(s[1..]))
    else if AllDigits(s) then Ok(ParseNat(s))
    else Err(NotAnInteger)
  }

  /**
   * `SubscribeSerializer.get_recipes`: the author's recipes, cut to the
   * `recipes_limit` query parameter when it is given and not empty.
   */
  function GetRecipes(db: Db, author: Id, recipesLimit: Option<string>): (r: Result<seq<Recipe>, LimitError>)
    ensures recipesLimit == None || recipesLimit == Some("") ==> r == Ok(AuthorRecipes(db, author))
    ensures r.Ok? ==> r.value <= AuthorRecipes(db, author)
    ensures recipesLimit.Some? && ParseLimit(recipesLimit.value).Ok? && ParseLimit(recipesLimit.value).value >= 0 ==>
      r.Ok? && |r.value| == Min(ParseLimit(recipesLimit.value).value, |AuthorRecipes(db, author)|)
    ensures r.Err? <==> (recipesLimit.Some? && recipesLimit.value != "" &&
      (ParseLimit(recipesLimit.value).Err? || ParseLimit(recipesLimit.value).value < 0))
  {
    var all := AuthorRecipes(db, author);
    match recipesLimit
    case None => Ok(all)
    case Some(s) =>
      if s == "" then Ok(all)
      else match ParseLimit(s)
        case Err(e) => Err(e)
        case Ok(n) => if n < 0 then Err(NegativeLimit) else Ok(all[..Min(n, |all|)])
  }

  function Min(a: int, b: int): int { if a <= b then a else b }

  /** A limit written as `str(n)` keeps exactly the first `n` recipes, or all of them when there are fewer. */
  lemma GetRecipesLimit(db: Db, author: Id, n: nat)
    ensures var all := AuthorRecipes(db, author);
      GetRecipes(db, author, Some(NatToString(n))) == Ok(all[..Min(n, |all|)])
  {
    ParseNatToString(n);
  }

  /** `SubscribeSerializer.get_recipes_count`: `author.recipes.all().count()`. */
  function GetRecipesCount(db: Db, author: Id): (n: nat)
    ensures n <= |db.recipes|
  {
    |Filter(db.recipes, ByAuthor(author))|
  }

  /** The count is the length of the unlimited list. */
  lemma RecipesCountMatchesList(db: Db, author: Id)
    ensures GetRecipes(db, author, None) == Ok(AuthorRecipes(db, author))
    ensures GetRecipesCount(db, author) == |AuthorRecipes(db, author)|
  {
    FilterSameRows(db.recipes, RecipeListing(db.recipes), ByAuthor(author));
  }

  // -------------------------------------------------- CustomUserCreateSerializer

  datatype FieldError = UsernameBlank | UsernameTaken | UsernameReserved | EmailBlank | EmailTaken

  /**
   * The `username` and `email` CharFields of `CustomUserCreateSerializer`:
   * each strips surrounding whitespace, refuses a value left blank, and runs
   * its UniqueValidator on the stripped value; each field reports its own
   * error.
   */
  function RegistrationErrors(db: Db, email: string, username: string): (errs: set<FieldError>)
    ensures UsernameBlank in errs <==> Strip(username) == []
    ensures UsernameTaken in errs <==> Strip(username) != [] && exists u | u in db.users :: u.username == Strip(username)
    ensures EmailBlank in errs <==> Strip(email) == []
    ensures EmailTaken in errs <==> Strip(email) != [] && exists u | u in db.users :: u.email == Strip(email)
    ensures UsernameReserved !in errs
    ensures errs == {} <==> Strip(email) != [] && Strip(username) != [] && UserInsertable(db, Strip(email), Strip(username))
  {
    var name, mail := Strip(username), Strip(email);
    (if name == [] then {UsernameBlank} else if exists u | u in db.users :: u.username == name then {UsernameTaken} else {}) +
    (if mail == [] then {EmailBlank} else if exists u | u in db.users :: u.email == mail then {EmailTaken} else {})
  }

  /** Surrounding whitespace changes nothing: the checks see the stripped values only. */
  lemma RegistrationIgnoresPadding(db: Db, email: string, username: string)
    ensures RegistrationErrors(db, email, username) == RegistrationErrors(db, Strip(email), Strip(username))
  {
    StripIdempotent(email);
    StripIdempotent(username);
  }

  /** How a registration ends: a new account, the validation errors (400), or a failed INSERT (a server error). */
  datatype Registration = Registered(id: Id) | Refused(errors: set<FieldError>) | InsertFailed

  /**
   * `is_valid()` followed by `save()`, which stores the stripped values.  The
   * two fields are plain CharFields without the model's `max_length`, so an
   * over-long username or email passes validation and is refused only by
   * the INSERT.
   */
  method Register(store: Store, email: string, username: string) returns (r: Registration)
    requires store.Valid()
    modifies store
    ensures store.Valid()
    ensures r.Refused? <==> RegistrationErrors(old(store.State()), email, username) != {}
    ensures r.Refused? ==> r.errors == RegistrationErrors(old(store.State()), email, username)
    ensures r.InsertFailed? <==> RegistrationErrors(old(store.State()), email, username) == {} && !UserFits(Strip(email), Strip(username))
    ensures !r.Registered? ==> store.State() == old(store.State())
    ensures r.Registered? ==> r.id !in UserIds(old(store.users))
    ensures r.Registered? ==> store.State() == old(store.State()).(users := old(store.users) + [User(r.id, Strip(email), Strip(username), false)])
  {
    var errs := RegistrationErrors(store.State(), email, username);
    if errs != {} {
      return Refused(errs);
    }
    var id := store.InsertUser(Strip(email), Strip(username), false);
    if id.None? {
      return InsertFailed;
    }
    r := Registered(id.value);
  }
}
