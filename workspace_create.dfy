/**
 * backend/core/app/controllers/customer/workspace/create_controller.ts: the
 * signed-in user creates a workspace, under the cap on owned workspaces,
 * and becomes its owner, joined at once. `userIndex` locates the
 * authenticated user's row.
 */
module WorkspaceCreate {
  import opened Wrappers
  import opened Literals
  import opened Records
  import opened Settings
  import opened Store
  import opened HttpException
  import opened ParseError
  import opened UserHelper
  import opened WorkspaceModel

  const AtMaximum := "You have reached the maximum number of workspaces you can own."

  /** The tables after the transaction commits: the workspace, then the owner row, on the next two ids. */
  function Created(t: Tables, userId: Id, name: string, now: Time): Tables
  {
    var n := t.nextId;
    t.(workspaces := t.workspaces + [Workspace(n, name)],
       members := t.members + [Member(n + 1, userId, n, Owner, Some(now), None)],
       nextId := n + 2)
  }

  method Handle(s: Store, settings: Settings, userIndex: nat, name: string) returns (r: Result<Workspace, Thrown>)
    requires userIndex < |s.users|
    modifies s
    ensures var userId := old(s.users[userIndex].id);
      (r.Err? <==> OwnedWorkspaceCount(old(s.members), userId) >= settings.workspaceMax) &&
      (r.Err? ==> r.error == Http(Forbidden(AtMaximum)) && s.Snapshot() == old(s.Snapshot())) &&
      (r.Ok? ==> s.Snapshot() == Created(old(s.Snapshot()), userId, name, old(s.clock)) && r.value == Workspace(old(s.nextId), name))
    ensures s.clock == old(s.clock) && s.mails == old(s.mails) && s.expiredCaches == old(s.expiredCaches)
  {
    var user := s.users[userIndex];
    if OwnedWorkspaceCount(s.members, user.id) >= settings.workspaceMax {
      return Err(Http(Forbidden(AtMaximum)));
    }
    var workspaceId := s.NewId();
    var workspace := Workspace(workspaceId, name);
    s.workspaces := s.workspaces + [workspace];
    var memberId := s.NewId();
    s.members := s.members + [Member(memberId, user.id, workspaceId, Owner, Some(s.clock), None)];
    r := Ok(workspace);
  }

  /** A creation that passed the cap leaves the creator owning one more workspace, still within the cap. */
  lemma CreationStaysUnderCap(t: Tables, userId: Id, name: string, now: Time, max: int)
    requires OwnedWorkspaceCount(t.members, userId) < max
    ensures OwnedWorkspaceCount(Created(t, userId, name, now).members, userId) == OwnedWorkspaceCount(t.members, userId) + 1 <= max
  {
    AppendCount(t.members, Created(t, userId, name, now).members[|t.members|], userId);
  }

  /** Creation keeps the store's constraints, and the creator is the active owner of the new workspace. */
  lemma CreatorIsActiveOwner(t: Tables, userIndex: nat, name: string, now: Time)
    requires TablesValid(t) && userIndex < |t.users|
    ensures TablesValid(Created(t, t.users[userIndex].id, name, now))
    ensures ActiveRole(Created(t, t.users[userIndex].id, name, now).members, t.nextId, t.users[userIndex].id) == Some(Owner)
  {
    var c := Created(t, t.users[userIndex].id, name, now);
    var owner := c.members[|t.members|];
    assert c.members == t.members + [owner];
    OnlyRowOfFreshWorkspace(t.members, owner);
  }
}
