/**
 * backend/core/app/controllers/customer/workspace/profile/leave_controller.ts:
 * an active member leaves the workspace; the owner may not. The row is kept
 * and marked as left. `actorId` is the authenticated user.
 */
module WorkspaceLeave {
  import opened Wrappers
  import opened Literals
  import opened Records
  import opened Store
  import opened HttpException
  import opened ParseError
  import opened UserHelper
  import opened WorkspaceModel
  import opened Authorization
  import opened Membership
  import WorkspacePolicy

  const OwnerCannotLeave := "As the workspace owner, you cannot leave. Please transfer ownership to another member first."
  const Left := "You have successfully left the workspace."

  /** What the request does to the tables, or the error it ends with. */
  function Leaving(t: Tables, now: Time, actorId: Id, workspaceId: Id): (r: Result<Tables, Thrown>)
    ensures WorkspaceById(t.workspaces, workspaceId).None? ==> r == Err(RowNotFound)
    ensures (WorkspaceById(t.workspaces, workspaceId).Some? && ActiveRole(t.members, workspaceId, actorId).None?) ==>
      r == Err(AuthorizationFailure(None))
    ensures (WorkspaceById(t.workspaces, workspaceId).Some? && ActiveRole(t.members, workspaceId, actorId).Some?) ==>
      (r == Err(Http(BadRequest(OwnerCannotLeave, NoOptions))) <==> ActiveRole(t.members, workspaceId, actorId) == Some(Owner))
    ensures r.Ok? ==>
      WorkspaceById(t.workspaces, workspaceId).Some? && ActiveRow(t.members, workspaceId, actorId).Some? &&
      ActiveRole(t.members, workspaceId, actorId).Some? && ActiveRole(t.members, workspaceId, actorId) != Some(Owner)
  {
    ActiveRoleIsActiveRow(t.members, workspaceId, actorId);
    if WorkspaceById(t.workspaces, workspaceId).None? then Err(RowNotFound)
    else match Authorize(WorkspacePolicy.View(t.members, workspaceId, actorId))
      case Err(refusal) => Err(refusal)
      case Ok(_) =>
        match ActiveRow(t.members, workspaceId, actorId)
        case None => Err(RowNotFound)
        case Some(i) =>
          if t.members[i].role == Owner then Err(Http(BadRequest(OwnerCannotLeave, NoOptions)))
          else Ok(t.(members := t.members[i := t.members[i].(leftAt := Some(now))]))
  }

  method Handle(s: Store, actorId: Id, workspaceId: Id) returns (r: Result<string, Thrown>)
    modifies s
    ensures var outcome := Leaving(old(s.Snapshot()), old(s.clock), actorId, workspaceId);
      (r.Ok? <==> outcome.Ok?) &&
      (r.Err? ==> r.error == outcome.error && s.Snapshot() == old(s.Snapshot()) && s.expiredCaches == old(s.expiredCaches)) &&
      (r.Ok? ==> r.value == Left && s.Snapshot() == outcome.value && s.expiredCaches == old(s.expiredCaches) + [workspaceId])
    ensures s.clock == old(s.clock) && s.mails == old(s.mails)
  {
    if WorkspaceById(s.workspaces, workspaceId).None? {
      return Err(RowNotFound);
    }
    var allowed := Authorize(WorkspacePolicy.View(s.members, workspaceId, actorId));
    if allowed.Err? {
      return Err(allowed.error);
    }
    var row := ActiveRow(s.members, workspaceId, actorId);
    if row.None? {
      return Err(RowNotFound);
    }
    var i := row.value;
    if s.members[i].role == Owner {
      return Err(Http(BadRequest(OwnerCannotLeave, NoOptions)));
    }
    s.members := s.members[i := s.members[i].(leftAt := Some(s.clock))];
    s.ExpireActiveMembers(workspaceId);
    r := Ok(Left);
  }

  /**
   * Leaving changes only the actor's active row, which keeps its role and
   * `joinedAt` and is marked as left now. The actor loses access (under the
   * unique constraint), nobody else's access changes, so whoever was the
   * active owner still is; the store's constraints and everybody's
   * owned-workspace count are kept.
   */
  lemma LeavingEffect(t: Tables, now: Time, actorId: Id, workspaceId: Id)
    requires TablesValid(t)
    requires Leaving(t, now, actorId, workspaceId).Ok?
    ensures var after := Leaving(t, now, actorId, workspaceId).value;
      var i := ActiveRow(t.members, workspaceId, actorId).value;
      after == t.(members := t.members[i := t.members[i].(leftAt := Some(now))]) &&
      ActiveRole(after.members, workspaceId, actorId).None? &&
      (forall w, v :: v != actorId ==> ActiveRole(after.members, w, v) == ActiveRole(t.members, w, v)) &&
      (forall v :: ActiveRole(after.members, workspaceId, v) == Some(Owner) <==> ActiveRole(t.members, workspaceId, v) == Some(Owner)) &&
      (forall v :: OwnedWorkspaceCount(after.members, v) == OwnedWorkspaceCount(t.members, v)) &&
      TablesValid(after)
  {
    MarkedLeft(t, workspaceId, actorId, now);
  }
}
