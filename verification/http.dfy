/** What the server's views answer, and who asks. An anonymous request has
    no account; the framework's authentication leaves it as Django's
    anonymous user, which the permission classes see as `Anonymous`. */
module Http {
  import opened Wrappers
  import opened UserModel
  import Permissions

  /** An HTTP response: 200 with a body, 403 and 404 with an error message,
      or 500 for an exception the view does not catch. */
  datatype Response<T> = Success(body: T) | Forbidden(error: string) | NotFound(error: string) | ServerError

  /** The messages of the framework's own 404 and 403. */
  const FrameworkNotFound := "Not found."
  const FrameworkDenied := "You do not have permission to perform this action."

  /** The principal a permission class sees for a request by `viewer`, or by
      nobody. */
  function Requester(viewer: Option<User>): (p: Permissions.Principal)
    ensures p.Anonymous? <==> viewer.None?
    ensures viewer.Some? ==> p.id == viewer.value.id && p.isSuperadmin == viewer.value.isSuperadmin
  {
    match viewer
    case None => Permissions.Anonymous
    case Some(u) => Permissions.Member(u.id, u.isSuperadmin)
  }
}
