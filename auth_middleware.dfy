/**
 * backend/core/app/middleware/auth_middleware.ts: authenticate, then gate on
 * the user's application role. Authentication itself is the framework's
 * guard; its outcome is the parameter `authenticated`.
 */
module AuthMiddleware {
  import opened Wrappers
  import opened Literals
  import opened Records
  import opened HttpException
  import opened ParseError

  /** `new ForbiddenException()`: no message, no options. */
  const RoleForbidden := Http(Construct(Missing, None, ForbiddenStatus, ""))

  /**
   * `handle`: the user the request proceeds with, or what is thrown.
   * `roles` is the middleware option; a present list, even an empty one, is checked.
   */
  function Handle(authenticated: Option<User>, roles: Option<seq<Role>>): (r: Result<User, Thrown>)
    ensures authenticated.None? ==> r == Err(UnauthorizedAccess)
    ensures authenticated.Some? && roles.None? ==> r == Ok(authenticated.value)
    ensures authenticated.Some? && roles.Some? ==> (r.Ok? <==> authenticated.value.role in roles.value)
    ensures r.Ok? ==> Some(r.value) == authenticated
    ensures authenticated.Some? && r.Err? ==> r.error == RoleForbidden && Parse(r.error).status == ForbiddenStatus
  {
    match authenticated
    case None => Err(UnauthorizedAccess)
    case Some(user) =>
      if roles.Some? && user.role !in roles.value then Err(RoleForbidden)
      else Ok(user)
  }

  /** An empty role list lets nobody through. */
  lemma EmptyRolesForbidEveryone(authenticated: Option<User>)
    ensures Handle(authenticated, Some([])).Err?
  {
  }

  /** An unauthenticated request is refused with 401 whatever roles are listed. */
  lemma AuthenticationComesFirst(roles: Option<seq<Role>>)
    ensures Handle(None, roles) == Err(UnauthorizedAccess)
    ensures Parse(UnauthorizedAccess).status == UnauthorizedStatus
  {
  }
}
