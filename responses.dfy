/**
 * What a request can end in, as status tags rather than HTTP objects.  The
 * message texts of the responses are not modelled; each 400 carries the
 * reason it was raised for.
 */
module Responses {

  /** Why a request was refused with 400 Bad Request. */
  datatype Reason =
    | AlreadyFavorited
    | AlreadyInCart
    | AlreadySubscribed
    | SelfSubscription
    | NotFavorited
    | NotInCart
    | NotSubscribed

  /** The outcome of a serializer's `validate`: the data passes, or a ValidationError is raised. */
  datatype Verdict = Pass | Reject(reason: Reason)

  datatype Status =
    | Created              // 201
    | NoContent            // 204
    | BadRequest(reason: Reason)  // 400
    | Unauthorized         // 401, from the IsAuthenticated permission
    | NotFound             // 404, from get_object_or_404
    | ServerError          // 500, an IntegrityError nobody catches
}
