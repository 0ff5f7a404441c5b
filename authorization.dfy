/**
 * The answer of a policy action and the role order the policies are read
 * against. An action answers `true` (allow), `false` or a denial with a
 * message, or throws.
 */
module Authorization {
  import opened Wrappers
  import opened Literals
  import opened HttpException
  import opened ParseError

  datatype Decision = Allow | Deny(reason: Option<string>) | Error(message: string)

  /**
   * Seniority of a member role. The policies list roles explicitly; this
   * order is an independent reading of those lists, and the contracts of the
   * policies say which rank each action needs.
   */
  function Rank(r: MemberRole): nat
  {
    match r
    case Viewer => 0
    case Editor => 1
    case Manager => 2
    case Owner => 3
  }

  /** The actor holds an active role of at least `least`. */
  predicate AtLeast(active: Option<MemberRole>, least: MemberRole)
  {
    active.Some? && Rank(active.value) >= Rank(least)
  }

  /** `from` `false`: a deny without a message. */
  function FromBool(can: bool): (d: Decision)
    ensures d == Allow <==> can
    ensures !can ==> d == Deny(None)
  {
    if can then Allow else Deny(None)
  }

  /**
   * `bouncer.authorize`: an allowed action proceeds; a denial is thrown as the
   * authorizer's 403 error with the policy's message; an error thrown by the
   * policy propagates as it is.
   */
  function Authorize(d: Decision): (r: Result<(), Thrown>)
    ensures r.Ok? <==> d == Allow
    ensures d.Deny? ==> r == Err(AuthorizationFailure(d.reason))
    ensures d.Error? ==> r == Err(Unknown(d.message))
  {
    match d
    case Allow => Ok(())
    case Deny(reason) => Err(AuthorizationFailure(reason))
    case Error(message) => Err(Unknown(message))
  }

  /** A refused authorization is a 403, a policy error a 500. */
  lemma RefusalStatus(d: Decision)
    ensures d.Deny? ==> Parse(Authorize(d).error).status == ForbiddenStatus
    ensures d.Error? ==> Parse(Authorize(d).error).status == InternalServerErrorStatus
  {
  }
}
