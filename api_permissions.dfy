/**
 * The permission classes of the API (api/permissions.py) and the two
 * framework classes the recipe endpoints fall back on.  A permission class
 * answers twice: once for the request (`has_permission`) and, on endpoints
 * that address one object, once more for that object
 * (`has_object_permission`); a class that does not override a check allows it.
 */
module ApiPermissions {
  import opened Schema

  datatype HttpMethod = GET | HEAD | OPTIONS | POST | PUT | PATCH | DELETE

  /** `SAFE_METHODS`: the methods that only read. */
  predicate Safe(m: HttpMethod) {
    m == GET || m == HEAD || m == OPTIONS
  }

  /** `IsGuest.has_permission`: only the anonymous user passes. */
  function IsGuest(viewer: Viewer): (b: bool)
    ensures b <==> viewer == Anonymous
  {
    !viewer.Account?
  }

  /** `IsAdminOwnerOrReadOnly.has_object_permission` on a recipe written by `author`. */
  function IsAdminOwnerOrReadOnly(m: HttpMethod, viewer: Viewer, author: Id): (b: bool)
    ensures Safe(m) ==> b
    ensures viewer.Account? && viewer.isStaff ==> b
    ensures viewer.Account? && viewer.id == author ==> b
    ensures !Safe(m) && (viewer == Anonymous || (!viewer.isStaff && viewer.id != author)) ==> !b
  {
    Safe(m) || (match viewer
      case Anonymous => false
      case Account(id, isStaff) => isStaff || id == author)
  }

  /** The classes a recipe endpoint can be given. */
  datatype PermissionClass = IsAuthenticatedOrReadOnly | AdminOwnerOrReadOnly

  /** `has_permission` of one class. */
  function RequestAllowed(c: PermissionClass, m: HttpMethod, viewer: Viewer): (b: bool)
    ensures c == IsAuthenticatedOrReadOnly ==> (b <==> Safe(m) || viewer.Account?)
    ensures c == AdminOwnerOrReadOnly ==> b
  {
    match c
    case IsAuthenticatedOrReadOnly => Safe(m) || viewer.Account?
    case AdminOwnerOrReadOnly => true
  }

  /** `has_object_permission` of one class, for a recipe written by `author`. */
  function ObjectAllowed(c: PermissionClass, m: HttpMethod, viewer: Viewer, author: Id): (b: bool)
    ensures c == IsAuthenticatedOrReadOnly ==> b
    ensures c == AdminOwnerOrReadOnly ==> (b <==> IsAdminOwnerOrReadOnly(m, viewer, author))
  {
    match c
    case IsAuthenticatedOrReadOnly => true
    case AdminOwnerOrReadOnly => IsAdminOwnerOrReadOnly(m, viewer, author)
  }

  /** A request on one recipe goes through when every class allows both the request and the object. */
  function Permits(classes: seq<PermissionClass>, m: HttpMethod, viewer: Viewer, author: Id): (b: bool)
    ensures b <==> forall c | c in classes :: RequestAllowed(c, m, viewer) && ObjectAllowed(c, m, viewer, author)
  {
    if classes == [] then true
    else
      var c := classes[0];
      RequestAllowed(c, m, viewer) && ObjectAllowed(c, m, viewer, author) && Permits(classes[1..], m, viewer, author)
  }
}
