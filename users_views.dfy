/**
 * The earlier subscription view sets (favorites/views.py, and the one in
 * users/views.py, which differs only in building its response without the
 * query's `recipes_limit`).  They check only for an existing subscription and
 * leave a self-subscription to the table's check constraint, whose
 * IntegrityError nobody catches.
 */
module UsersViews {
  import opened Wrappers
  import opened Schema
  import opened Database
  import opened Responses
  import ApiSerializers

  /**
   * What the earlier `SubscribeViewSet.create` answers for a request on `db`.
   * The self-subscription fails at the insert; every other new pair is
   * inserted before the body is built, and a `recipes_limit` that
   * `get_recipes` cannot apply raises only then.
   */
  function SubscribeOutcome(db: Db, viewer: Viewer, author: Id, recipesLimit: Option<string>): (s: Status)
    ensures viewer.Anonymous? ==> s == Unauthorized
    ensures viewer.Account? && author !in UserIds(db.users) ==> s == NotFound
    ensures s == BadRequest(AlreadySubscribed) <==>
      viewer.Account? && author in UserIds(db.users) && Link(viewer.id, author) in db.subscriptions
    ensures s == ServerError <==>
      viewer.Account? && author in UserIds(db.users) && Link(viewer.id, author) !in db.subscriptions &&
      (viewer.id == author || ApiSerializers.GetRecipes(db, author, recipesLimit).Err?)
    ensures s == Created <==> Inserts(db, viewer, author) && ApiSerializers.GetRecipes(db, author, recipesLimit).Ok?
    ensures s.BadRequest? || s in {Unauthorized, NotFound, ServerError, Created}
  {
    match viewer
    case Anonymous => Unauthorized
    case Account(id, _) =>
      if author !in UserIds(db.users) then NotFound
      else if exists l | l in db.subscriptions :: l.actor == id && l.target == author then BadRequest(AlreadySubscribed)
      else if id == author then ServerError
      else if ApiSerializers.GetRecipes(db, author, recipesLimit).Err? then ServerError
      else Created
  }

  /** The requests on which the insert runs and succeeds: a new pair of an existing author and another user. */
  predicate Inserts(db: Db, viewer: Viewer, author: Id) {
    viewer.Account? && author in UserIds(db.users) && Link(viewer.id, author) !in db.subscriptions && viewer.id != author
  }

  /**
   * `SubscribeViewSet.create` of the earlier view sets.  favorites/views.py
   * passes the request's `recipes_limit` to its serializer; users/views.py
   * passes no context, which is `recipesLimit == None`.
   */
  method SubscribeCreate(store: Store, viewer: Viewer, author: Id, recipesLimit: Option<string>) returns (status: Status)
    requires store.Valid()
    requires viewer.Account? ==> viewer.id in UserIds(store.users)
    modifies store
    ensures store.Valid()
    ensures status == SubscribeOutcome(old(store.State()), viewer, author, recipesLimit)
    ensures Inserts(old(store.State()), viewer, author) ==>
      store.State() == old(store.State()).(subscriptions := old(store.subscriptions) + [Link(viewer.id, author)])
    ensures !Inserts(old(store.State()), viewer, author) ==> store.State() == old(store.State())
  {
    if viewer.Anonymous? {
      return Unauthorized;
    }
    if author !in UserIds(store.users) {
      return NotFound;
    }
    var l := Link(viewer.id, author);
    if l in store.subscriptions {
      return BadRequest(AlreadySubscribed);
    }
    var ok := store.InsertLink(Subscriptions, l);
    if !ok {
      return ServerError;
    }
    var shown := ApiSerializers.GetRecipes(store.State(), author, recipesLimit);
    status := if shown.Ok? then Created else ServerError;
  }

  /**
   * Subscribing to oneself, which the API's serializer refuses with 400,
   * ends here in the constraint's IntegrityError.
   */
  lemma SelfSubscriptionIsServerError(db: Db, user: Id, recipesLimit: Option<string>)
    requires user in UserIds(db.users) && Link(user, user) !in db.subscriptions
    ensures SubscribeOutcome(db, Account(user, false), user, recipesLimit) == ServerError
    ensures ApiSerializers.ValidateSubscribe(db, user, user) == Reject(SelfSubscription)
  {
  }

  /** Apart from subscribing to oneself, the earlier view answers as the API's does, `recipes_limit` included. */
  lemma AgreesWithApiElsewhere(db: Db, user: Id, author: Id, recipesLimit: Option<string>)
    requires author in UserIds(db.users) && user != author
    ensures SubscribeOutcome(db, Account(user, false), author, recipesLimit) ==
      match ApiSerializers.ValidateSubscribe(db, user, author)
      case Pass => if ApiSerializers.GetRecipes(db, author, recipesLimit).Ok? then Created else ServerError
      case Reject(reason) => BadRequest(reason)
  {
  }
}
