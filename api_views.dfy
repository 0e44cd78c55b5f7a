/**
 * The view sets of the API (api/views.py): the recipe view set's choice of
 * serializer and permission classes and its shopping-list download, and the
 * create/destroy actions of the favorite, shopping-cart and subscription
 * endpoints over the database.
 */
module ApiViews {
  import opened Wrappers
  import opened Tables
  import opened Schema
  import opened Database
  import opened Responses
  import opened ApiPermissions
  import opened ApiSerializers
  import opened ShoppingCart

  // ------------------------------------------------------------ RecipeViewSet

  datatype Action = List | Retrieve | Create | Update | PartialUpdate | Destroy | DownloadShoppingCartAction

  datatype SerializerClass = RecipeGetSerializer | RecipePostPatchSerializer

  /** `RecipeViewSet.get_serializer_class`: the read serializer for list and retrieve, the write serializer otherwise. */
  function SerializerFor(action: Action): (s: SerializerClass)
    ensures s == RecipeGetSerializer <==> action == List || action == Retrieve
    ensures action == Create || action == Update || action == PartialUpdate ==> s == RecipePostPatchSerializer
  {
    if action == List || action == Retrieve then RecipeGetSerializer else RecipePostPatchSerializer
  }

  /** The per-request instance of the recipe view set; only its permission classes are modelled. */
  class RecipeViewSet {
    var permissionClasses: seq<PermissionClass>

    /** The class attribute `permission_classes = (IsAuthenticatedOrReadOnly, )`. */
    constructor ()
      ensures permissionClasses == [IsAuthenticatedOrReadOnly]
    {
      permissionClasses := [IsAuthenticatedOrReadOnly];
    }

    /** `RecipeViewSet.get_permissions`: DELETE and PATCH swap the classes for the owner/staff class. */
    method GetPermissions(m: HttpMethod) returns (classes: seq<PermissionClass>)
      modifies this
      ensures m == DELETE || m == PATCH ==> permissionClasses == [AdminOwnerOrReadOnly]
      ensures !(m == DELETE || m == PATCH) ==> permissionClasses == old(permissionClasses)
      ensures classes == permissionClasses
    {
      if m == DELETE || m == PATCH {
        permissionClasses := [AdminOwnerOrReadOnly];
      }
      classes := permissionClasses;
    }
  }

  /** The classes a fresh view set checks for method `m`. */
  function ClassesFor(m: HttpMethod): (cs: seq<PermissionClass>)
    ensures AdminOwnerOrReadOnly in cs <==> m == DELETE || m == PATCH
  {
    if m == DELETE || m == PATCH then [AdminOwnerOrReadOnly] else [IsAuthenticatedOrReadOnly]
  }

  /** A request on a recipe goes through the permission check of a fresh view set. */
  method CheckRecipeRequest(m: HttpMethod, viewer: Viewer, author: Id) returns (allowed: bool)
    ensures allowed <==> Permits(ClassesFor(m), m, viewer, author)
  {
    var view := new RecipeViewSet();
    var classes := view.GetPermissions(m);
    allowed := Permits(classes, m, viewer, author);
  }

  /** Only DELETE and PATCH are restricted to the author and staff; every other unsafe method needs only an account. */
  lemma RecipePermissions(m: HttpMethod, viewer: Viewer, author: Id)
    ensures m == DELETE || m == PATCH ==>
      (Permits(ClassesFor(m), m, viewer, author) <==> viewer.Account? && (viewer.isStaff || viewer.id == author))
    ensures !(m == DELETE || m == PATCH) ==>
      (Permits(ClassesFor(m), m, viewer, author) <==> Safe(m) || viewer.Account?)
  {
    var cs := ClassesFor(m);
    assert cs[0] in cs;
  }

  /** PUT keeps the default class, so an account that is neither staff nor the author may replace someone's recipe. */
  lemma PutByNonAuthorPermitted()
    ensures var viewer := Account(2, false);
      Permits(ClassesFor(PUT), PUT, viewer, 1) && !IsAdminOwnerOrReadOnly(PUT, viewer, 1)
  {
    RecipePermissions(PUT, Account(2, false), 1);
  }

  /** The classes the owner rule calls for: every method that changes an existing recipe is restricted. */
  function IntendedClassesFor(m: HttpMethod): (cs: seq<PermissionClass>)
    ensures AdminOwnerOrReadOnly in cs <==> m == DELETE || m == PATCH || m == PUT
  {
    if m == DELETE || m == PATCH || m == PUT then [AdminOwnerOrReadOnly] else [IsAuthenticatedOrReadOnly]
  }

  /** With the intended classes only the author and staff may change or delete a recipe. */
  lemma IntendedOnlyOwnerOrStaffChange(m: HttpMethod, viewer: Viewer, author: Id)
    requires m == DELETE || m == PATCH || m == PUT
    ensures Permits(IntendedClassesFor(m), m, viewer, author) <==> viewer.Account? && (viewer.isStaff || viewer.id == author)
  {
    var cs := IntendedClassesFor(m);
    assert cs[0] in cs;
  }

  // ------------------------------------------------------ download_shopping_cart

  /**
   * `RecipeViewSet.download_shopping_cart`.  `q` is the grouped query's
   * result; an anonymous requester makes the query fail (a server error).
   */
  method DownloadShoppingCart(db: Db, viewer: Viewer, q: seq<Group>) returns (text: Option<string>)
    requires viewer.Account? ==> IsGrouped(q, CartPortions(db, viewer.id))
    ensures viewer.Anonymous? ==> text.None?
    ensures viewer.Account? ==> text == Some(Join(ReportLines(q), CRLF))
  {
    if viewer.Anonymous? {
      return None;
    }
    var data := [TITLE, COLUMNS];
    for i := 0 to |q|
      invariant data == ReportLines(q[..i])
    {
      assert q[..i + 1] == q[..i] + [q[i]];
      data := data + [FormatLine(q[i])];
    }
    assert q[..|q|] == q;
    text := Some(Join(data, CRLF));
  }

  /** Splitting the report at CRLF gives back the headers and one line per group, as long as no name or unit holds a line break. */
  lemma ReportLinesRecovered(q: seq<Group>)
    requires forall g | g in q :: OneLine(g.name) && OneLine(g.unit)
    ensures SplitCrlf(Join(ReportLines(q), CRLF)) == ReportLines(q)
  {
    var lines := ReportLines(q);
    assert OneLine(TITLE) && OneLine(COLUMNS);
    forall i | 0 <= i < |lines| ensures NoCrlf(lines[i]) {
      if i >= 2 {
        assert q[i - 2] in q;
        FormatLineOneLine(q[i - 2]);
      }
      OneLineNoCrlf(lines[i]);
    }
    SplitJoinCrlf(lines);
  }

  /** A user with an empty cart downloads just the two header lines. */
  lemma EmptyCartReport(db: Db, user: Id, q: seq<Group>)
    requires IsGrouped(q, CartPortions(db, user))
    requires forall l | l in db.shoppingLists :: l.actor != user
    ensures Join(ReportLines(q), CRLF) == TITLE + CRLF + COLUMNS
  {
    EmptyCartNoPortions(db.ingredientRecipes, db.ingredients, db.shoppingLists, user);
    NoPortionsNoGroups(q);
    assert ReportLines(q) == [TITLE, COLUMNS];
  }

  // ------------------------------------------------ favorite and shopping cart

  /** An authenticated requester is a user of the database. */
  predicate Known(store: Store, viewer: Viewer)
    reads store
  {
    viewer.Account? ==> viewer.id in UserIds(store.users)
  }

  /** The reason destroy gives when the row is absent. */
  function AbsentReason(kind: Kind): Reason {
    match kind
    case Favorites => NotFavorited
    case ShoppingLists => NotInCart
    case Subscriptions => NotSubscribed
  }

  function PresentReason(ctx: ShortContext): Reason {
    if ctx == FavoriteContext then AlreadyFavorited else AlreadyInCart
  }

  /**
   * `FavoriteViewSet.create` (context `favorite`) and
   * `ShoppongCartViewSet.create` (context `shopping_cart`).
   */
  method RecipeLinkCreate(store: Store, ctx: ShortContext, viewer: Viewer, recipe: Id) returns (status: Status)
    requires store.Valid() && Known(store, viewer)
    requires ctx != OtherContext
    modifies store
    ensures store.Valid()
    ensures viewer.Anonymous? ==> status == Unauthorized
    ensures viewer.Account? && recipe !in RecipeIds(old(store.recipes)) ==> status == NotFound
    ensures status == Created <==>
      viewer.Account? && recipe in RecipeIds(old(store.recipes)) && Link(viewer.id, recipe) !in old(store.State()).Links(ContextKind(ctx))
    ensures status.BadRequest? <==>
      viewer.Account? && recipe in RecipeIds(old(store.recipes)) && Link(viewer.id, recipe) in old(store.State()).Links(ContextKind(ctx))
    ensures status.BadRequest? ==> status.reason == PresentReason(ctx)
    ensures status == Created ==>
      store.State() == old(store.State()).WithLinks(ContextKind(ctx), old(store.State()).Links(ContextKind(ctx)) + [Link(viewer.id, recipe)])
    ensures status != Created ==> store.State() == old(store.State())
    ensures viewer.Account? && recipe in RecipeIds(old(store.recipes)) ==> Link(viewer.id, recipe) in store.State().Links(ContextKind(ctx))
  {
    if viewer.Anonymous? {
      return Unauthorized;
    }
    if recipe !in RecipeIds(store.recipes) {
      return NotFound;
    }
    var verdict := ValidateShort(store.State(), ctx, viewer.id, recipe);
    if verdict.Reject? {
      return BadRequest(verdict.reason);
    }
    ShortPassInsertable(store.State(), ctx, viewer.id, recipe);
    var ok := store.InsertLink(ContextKind(ctx), Link(viewer.id, recipe));
    status := Created;
  }

  /**
   * `destroy` of the favorite, shopping-cart and subscription view sets:
   * the target must exist; a present row is deleted, an absent one is a 400.
   */
  method LinkDestroy(store: Store, kind: Kind, viewer: Viewer, target: Id) returns (status: Status)
    requires store.Valid()
    modifies store
    ensures store.Valid()
    ensures viewer.Anonymous? ==> status == Unauthorized
    ensures viewer.Account? && !TargetExists(old(store.State()), kind, target) ==> status == NotFound
    ensures status == NoContent <==>
      viewer.Account? && TargetExists(old(store.State()), kind, target) && Link(viewer.id, target) in old(store.State()).Links(kind)
    ensures status.BadRequest? <==>
      viewer.Account? && TargetExists(old(store.State()), kind, target) && Link(viewer.id, target) !in old(store.State()).Links(kind)
    ensures status.BadRequest? ==> status.reason == AbsentReason(kind)
    ensures status == NoContent ==>
      store.State() == old(store.State()).WithLinks(kind, LinksExcept(old(store.State()).Links(kind), Link(viewer.id, target)))
    ensures status != NoContent ==> store.State() == old(store.State())
    ensures viewer.Account? ==> Link(viewer.id, target) !in store.State().Links(kind)
  {
    if viewer.Anonymous? {
      return Unauthorized;
    }
    if !TargetExists(store.State(), kind, target) {
      assert Link(viewer.id, target) !in store.State().Links(kind);
      return NotFound;
    }
    var l := Link(viewer.id, target);
    if l in store.State().Links(kind) {
      store.DeleteLink(kind, l);
      status := NoContent;
    } else {
      status := BadRequest(AbsentReason(kind));
    }
  }

  /** `get_object_or_404` on the row a relation points to: a user for subscriptions, a recipe otherwise. */
  predicate TargetExists(db: Db, kind: Kind, target: Id) {
    if kind == Subscriptions then target in UserIds(db.users) else target in RecipeIds(db.recipes)
  }

  /** Deleting the row that create just added gives back the database as it was. */
  lemma CreateThenDestroyRestores(db: Db, kind: Kind, l: Link)
    requires l !in db.Links(kind)
    ensures var added := db.WithLinks(kind, db.Links(kind) + [l]);
      added.WithLinks(kind, LinksExcept(added.Links(kind), l)) == db
  {
    LinksExceptAppend(db.Links(kind), l);
  }

  // ---------------------------------------------------------------- subscribe

  /** The requests on which `SubscribeViewSet.create` reaches its insert, and the insert succeeds. */
  predicate SubscribeInserts(db: Db, viewer: Viewer, author: Id) {
    viewer.Account? && author in UserIds(db.users) && Link(viewer.id, author) !in db.subscriptions && viewer.id != author
  }

  /**
   * `SubscribeViewSet.create`: the author must exist, then the serializer's
   * checks run before the insert.  The response body is built after the
   * insert, outside any transaction: a `recipes_limit` that `get_recipes`
   * cannot apply raises there, so the row stays and the answer is a 500.
   */
  method SubscribeCreate(store: Store, viewer: Viewer, author: Id, recipesLimit: Option<string>) returns (status: Status)
    requires store.Valid() && Known(store, viewer)
    modifies store
    ensures store.Valid()
    ensures viewer.Anonymous? ==> status == Unauthorized
    ensures viewer.Account? && author !in UserIds(old(store.users)) ==> status == NotFound
    ensures viewer.Account? && author in UserIds(old(store.users)) ==>
      match ValidateSubscribe(old(store.State()), viewer.id, author)
      case Pass => status == (if GetRecipes(old(store.State()), author, recipesLimit).Ok? then Created else ServerError)
      case Reject(reason) => status == BadRequest(reason)
    ensures status == Created <==>
      SubscribeInserts(old(store.State()), viewer, author) && GetRecipes(old(store.State()), author, recipesLimit).Ok?
    ensures status == ServerError <==>
      SubscribeInserts(old(store.State()), viewer, author) && GetRecipes(old(store.State()), author, recipesLimit).Err?
    ensures SubscribeInserts(old(store.State()), viewer, author) ==>
      store.State() == old(store.State()).(subscriptions := old(store.subscriptions) + [Link(viewer.id, author)])
    ensures !SubscribeInserts(old(store.State()), viewer, author) ==> store.State() == old(store.State())
  {
    if viewer.Anonymous? {
      return Unauthorized;
    }
    if author !in UserIds(store.users) {
      return NotFound;
    }
    var verdict := ValidateSubscribe(store.State(), viewer.id, author);
    if verdict.Reject? {
      return BadRequest(verdict.reason);
    }
    SubscribePassInsertable(store.State(), viewer.id, author);
    var ok := store.InsertLink(Subscriptions, Link(viewer.id, author));
    var shown := GetRecipes(store.State(), author, recipesLimit);
    status := if shown.Ok? then Created else ServerError;
  }
}
