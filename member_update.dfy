/**
 * backend/core/app/controllers/customer/workspace/member/update_controller.ts:
 * an owner or manager gives another active member a new role. The actor's own
 * role and the owner's role are locked, and the new role is never owner.
 * `actorId` is the authenticated user; `memberId` is the target's user id.
 */
module MemberUpdate {
  import opened Wrappers
  import opened Literals
  import opened Records
  import opened Store
  import opened HttpException
  import opened ParseError
  import opened UserHelper
  import opened WorkspaceModel
  import opened Authorization
  import opened MemberValidators
  import opened Membership
  import WorkspacePolicy

  const OwnRole := "You cannot change your own role within the workspace."
  const OwnerRole := "The owner's role cannot be changed. To change ownership, please transfer the workspace to another member."
  const Updated := "The member's role has been updated successfully."

  /** What the request does to the tables, or the error it ends with. */
  function RoleChange(t: Tables, actorId: Id, workspaceId: Id, memberId: Id, role: Option<string>): (r: Result<Tables, Thrown>)
    ensures RequiredUpdatableRole(role).Err? ==> r == Err(VineValidation(RequiredUpdatableRole(role).error))
    ensures RequiredUpdatableRole(role).Ok? && WorkspaceById(t.workspaces, workspaceId).None? ==> r == Err(RowNotFound)
    ensures (RequiredUpdatableRole(role).Ok? && WorkspaceById(t.workspaces, workspaceId).Some? &&
             !AtLeast(ActiveRole(t.members, workspaceId, actorId), Manager)) ==>
      r == Err(AuthorizationFailure(None))
    ensures (RequiredUpdatableRole(role).Ok? && WorkspaceById(t.workspaces, workspaceId).Some? &&
             AtLeast(ActiveRole(t.members, workspaceId, actorId), Manager) && actorId == memberId) ==>
      r == Err(Http(BadRequest(OwnRole, NoOptions)))
    ensures (RequiredUpdatableRole(role).Ok? && WorkspaceById(t.workspaces, workspaceId).Some? &&
             AtLeast(ActiveRole(t.members, workspaceId, actorId), Manager) && actorId != memberId) ==>
      (ActiveRow(t.members, workspaceId, memberId).None? ==> r == Err(RowNotFound)) &&
      (ActiveRow(t.members, workspaceId, memberId).Some? ==>
        (r == Err(Http(BadRequest(OwnerRole, NoOptions))) <==> t.members[ActiveRow(t.members, workspaceId, memberId).value].role == Owner))
    ensures r.Ok? ==>
      RequiredUpdatableRole(role).Ok? && WorkspaceById(t.workspaces, workspaceId).Some? &&
      AtLeast(ActiveRole(t.members, workspaceId, actorId), Manager) && actorId != memberId &&
      ActiveRow(t.members, workspaceId, memberId).Some? &&
      t.members[ActiveRow(t.members, workspaceId, memberId).value].role != Owner
  {
    match RequiredUpdatableRole(role)
    case Err(errors) => Err(VineValidation(errors))
    case Ok(newRole) =>
      if WorkspaceById(t.workspaces, workspaceId).None? then Err(RowNotFound)
      else match Authorize(WorkspacePolicy.ManageMembers(t.members, workspaceId, actorId))
        case Err(refusal) => Err(refusal)
        case Ok(_) =>
          if actorId == memberId then Err(Http(BadRequest(OwnRole, NoOptions)))
          else match ActiveRow(t.members, workspaceId, memberId)
            case None => Err(RowNotFound)
            case Some(i) =>
              if t.members[i].role == Owner then Err(Http(BadRequest(OwnerRole, NoOptions)))
              else Ok(t.(members := t.members[i := t.members[i].(role := newRole)]))
  }

  method Handle(s: Store, actorId: Id, workspaceId: Id, memberId: Id, role: Option<string>) returns (r: Result<string, Thrown>)
    modifies s
    ensures var outcome := RoleChange(old(s.Snapshot()), actorId, workspaceId, memberId, role);
      (r.Ok? <==> outcome.Ok?) &&
      (r.Err? ==> r.error == outcome.error && s.Snapshot() == old(s.Snapshot()) && s.expiredCaches == old(s.expiredCaches)) &&
      (r.Ok? ==> r.value == Updated && s.Snapshot() == outcome.value && s.expiredCaches == old(s.expiredCaches) + [workspaceId])
    ensures s.clock == old(s.clock) && s.mails == old(s.mails)
  {
    var parsed := RequiredUpdatableRole(role);
    if parsed.Err? {
      return Err(VineValidation(parsed.error));
    }
    if WorkspaceById(s.workspaces, workspaceId).None? {
      return Err(RowNotFound);
    }
    var allowed := Authorize(WorkspacePolicy.ManageMembers(s.members, workspaceId, actorId));
    if allowed.Err? {
      return Err(allowed.error);
    }
    if actorId == memberId {
      return Err(Http(BadRequest(OwnRole, NoOptions)));
    }
    var row := ActiveRow(s.members, workspaceId, memberId);
    if row.None? {
      return Err(RowNotFound);
    }
    var i := row.value;
    if s.members[i].role == Owner {
      return Err(Http(BadRequest(OwnerRole, NoOptions)));
    }
    s.members := s.members[i := s.members[i].(role := parsed.value)];
    s.ExpireActiveMembers(workspaceId);
    r := Ok(Updated);
  }

  /**
   * A successful change gives the target exactly the requested role, which
   * is not owner, leaves every other user's role in every workspace as it
   * was, changes only the membership table, and changes nobody's
   * owned-workspace count.
   */
  lemma RoleChangeEffect(t: Tables, actorId: Id, workspaceId: Id, memberId: Id, role: Option<string>)
    requires RoleChange(t, actorId, workspaceId, memberId, role).Ok?
    ensures var after := RoleChange(t, actorId, workspaceId, memberId, role).value;
      var newRole := RequiredUpdatableRole(role).value;
      newRole != Owner &&
      ActiveRole(after.members, workspaceId, memberId) == Some(newRole) &&
      (forall w, v :: v != memberId ==> ActiveRole(after.members, w, v) == ActiveRole(t.members, w, v)) &&
      (forall v :: OwnedWorkspaceCount(after.members, v) == OwnedWorkspaceCount(t.members, v)) &&
      after == t.(members := after.members)
  {
    var after := RoleChange(t, actorId, workspaceId, memberId, role).value;
    var newRole := RequiredUpdatableRole(role).value;
    var i := ActiveRow(t.members, workspaceId, memberId).value;
    RoleShows(t.members, workspaceId, memberId, newRole);
    forall w, v | v != memberId
      ensures ActiveRole(after.members, w, v) == ActiveRole(t.members, w, v)
    {
      OthersUnaffected(t.members, i, t.members[i].(role := newRole), w, v);
    }
    forall v
      ensures OwnedWorkspaceCount(after.members, v) == OwnedWorkspaceCount(t.members, v)
    {
      ReplaceRowCount(t.members, i, t.members[i].(role := newRole), v);
    }
  }

  /** A successful change keeps the store's constraints. */
  lemma RoleChangeKeepsValid(t: Tables, actorId: Id, workspaceId: Id, memberId: Id, role: Option<string>)
    requires TablesValid(t)
    requires RoleChange(t, actorId, workspaceId, memberId, role).Ok?
    ensures TablesValid(RoleChange(t, actorId, workspaceId, memberId, role).value)
  {
    NonOwnerRoleKeepsValid(t, ActiveRow(t.members, workspaceId, memberId).value, RequiredUpdatableRole(role).value);
  }
}
