/**
 * backend/core/app/controllers/customer/workspace/member/delete_controller.ts:
 * an owner or manager removes another active member. The row is kept and
 * marked as left. Nothing checks the target's role. `actorId` is the
 * authenticated user; `memberId` is the target's user id.
 */
module MemberDelete {
  import opened Wrappers
  import opened Literals
  import opened Records
  import opened Store
  import opened HttpException
  import opened ParseError
  import opened UserHelper
  import opened WorkspaceModel
  import opened Authorization
  import opened Membership
  import WorkspacePolicy

  const RemoveSelf := "You cannot remove yourself from a workspace. Please use the \"Leave Workspace\" option instead."
  const Removed := "The member has been removed from the workspace."

  /** What the request does to the tables, or the error it ends with. */
  function Removal(t: Tables, now: Time, actorId: Id, workspaceId: Id, memberId: Id): (r: Result<Tables, Thrown>)
    ensures WorkspaceById(t.workspaces, workspaceId).None? ==> r == Err(RowNotFound)
    ensures (WorkspaceById(t.workspaces, workspaceId).Some? && !AtLeast(ActiveRole(t.members, workspaceId, actorId), Manager)) ==>
      r == Err(AuthorizationFailure(None))
    ensures (WorkspaceById(t.workspaces, workspaceId).Some? && AtLeast(ActiveRole(t.members, workspaceId, actorId), Manager)) ==>
      (actorId == memberId ==> r == Err(Http(BadRequest(RemoveSelf, NoOptions)))) &&
      (actorId != memberId ==> (r == Err(RowNotFound) <==> ActiveRow(t.members, workspaceId, memberId).None?))
    ensures r.Ok? ==>
      WorkspaceById(t.workspaces, workspaceId).Some? && AtLeast(ActiveRole(t.members, workspaceId, actorId), Manager) &&
      actorId != memberId && ActiveRow(t.members, workspaceId, memberId).Some?
  {
    if WorkspaceById(t.workspaces, workspaceId).None? then Err(RowNotFound)
    else match Authorize(WorkspacePolicy.ManageMembers(t.members, workspaceId, actorId))
      case Err(refusal) => Err(refusal)
      case Ok(_) =>
        if actorId == memberId then Err(Http(BadRequest(RemoveSelf, NoOptions)))
        else match ActiveRow(t.members, workspaceId, memberId)
          case None => Err(RowNotFound)
          case Some(i) => Ok(t.(members := t.members[i := t.members[i].(leftAt := Some(now))]))
  }

  method Handle(s: Store, actorId: Id, workspaceId: Id, memberId: Id) returns (r: Result<string, Thrown>)
    modifies s
    ensures var outcome := Removal(old(s.Snapshot()), old(s.clock), actorId, workspaceId, memberId);
      (r.Ok? <==> outcome.Ok?) &&
      (r.Err? ==> r.error == outcome.error && s.Snapshot() == old(s.Snapshot()) && s.expiredCaches == old(s.expiredCaches)) &&
      (r.Ok? ==> r.value == Removed && s.Snapshot() == outcome.value && s.expiredCaches == old(s.expiredCaches) + [workspaceId])
    ensures s.clock == old(s.clock) && s.mails == old(s.mails)
  {
    if WorkspaceById(s.workspaces, workspaceId).None? {
      return Err(RowNotFound);
    }
    var allowed := Authorize(WorkspacePolicy.ManageMembers(s.members, workspaceId, actorId));
    if allowed.Err? {
      return Err(allowed.error);
    }
    if actorId == memberId {
      return Err(Http(BadRequest(RemoveSelf, NoOptions)));
    }
    var row := ActiveRow(s.members, workspaceId, memberId);
    if row.None? {
      return Err(RowNotFound);
    }
    var i := row.value;
    s.members := s.members[i := s.members[i].(leftAt := Some(s.clock))];
    s.ExpireActiveMembers(workspaceId);
    r := Ok(Removed);
  }

  /**
   * A removal changes only the target's active row, which keeps its role
   * and `joinedAt` and is marked as left now. It takes away the target's
   * access (under the unique constraint), leaves every other user's access
   * as it was, keeps the store's constraints and changes nobody's
   * owned-workspace count.
   */
  lemma RemovalEffect(t: Tables, now: Time, actorId: Id, workspaceId: Id, memberId: Id)
    requires TablesValid(t)
    requires Removal(t, now, actorId, workspaceId, memberId).Ok?
    ensures var after := Removal(t, now, actorId, workspaceId, memberId).value;
      var i := ActiveRow(t.members, workspaceId, memberId).value;
      after == t.(members := t.members[i := t.members[i].(leftAt := Some(now))]) &&
      ActiveRole(after.members, workspaceId, memberId).None? &&
      (forall w, v :: v != memberId ==> ActiveRole(after.members, w, v) == ActiveRole(t.members, w, v)) &&
      (forall v :: OwnedWorkspaceCount(after.members, v) == OwnedWorkspaceCount(t.members, v)) &&
      TablesValid(after)
  {
    MarkedLeft(t, workspaceId, memberId, now);
  }

  /**
   * Nothing protects the owner: an active manager can remove the active
   * owner, and the workspace is then left with no active owner at all.
   */
  lemma ManagerRemovesOwner(t: Tables, now: Time, actorId: Id, workspaceId: Id, ownerId: Id)
    requires TablesValid(t) && WorkspaceById(t.workspaces, workspaceId).Some?
    requires ActiveRole(t.members, workspaceId, actorId) == Some(Manager)
    requires ActiveRole(t.members, workspaceId, ownerId) == Some(Owner)
    ensures Removal(t, now, actorId, workspaceId, ownerId).Ok?
    ensures forall v :: ActiveRole(Removal(t, now, actorId, workspaceId, ownerId).value.members, workspaceId, v) != Some(Owner)
  {
    ActiveRoleIsActiveRow(t.members, workspaceId, ownerId);
    MarkedLeft(t, workspaceId, ownerId, now);
    forall v | v != ownerId
      ensures ActiveRole(t.members, workspaceId, v) != Some(Owner)
    {
      ActiveRoleIsActiveRow(t.members, workspaceId, v);
    }
  }
}
