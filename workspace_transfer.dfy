/**
 * backend/core/app/controllers/customer/workspace/transfer_controller.ts: the
 * owner hands the workspace to another active member. The old owner's row
 * becomes `manager` and the new owner's row `owner`, each written by a save
 * that sends only the fields that changed since the row was loaded; then the
 * active-member cache of the workspace is expired. `userIndex` locates the
 * authenticated user's row.
 */
module WorkspaceTransfer {
  import opened Wrappers
  import opened Literals
  import opened Records
  import opened Settings
  import opened Store
  import opened HttpException
  import opened ParseError
  import opened UserHelper
  import opened WorkspaceHelper
  import opened WorkspaceModel
  import opened Authorization
  import WorkspacePolicy
  import Decimal

  const NewOwnerAtMaximum := "The new owner has reached the maximum number of workspaces allowed."
  /** Reading the preloaded user of a row whose user is gone. */
  const NoPreloadedUser := "Cannot read properties of null (reading 'helper')"

  function Transferred(userName: string): string
  {
    "Workspace successfully transferred to " + userName + "."
  }

  /**
   * The membership rows after the two saves. Row `j` (the old owner) is saved
   * as `manager`. Row `k` (the new owner, loaded before the transaction) is
   * saved as `owner`; as written, that save sends nothing when `k` was loaded
   * as `owner` already, since the role is then not a changed field.
   * `forceOwnerWrite` sends it regardless.
   */
  function Swapped(members: seq<Member>, j: nat, k: nat, forceOwnerWrite: bool): (r: seq<Member>)
    requires j < |members| && k < |members|
    ensures |r| == |members|
    ensures forall i :: 0 <= i < |members| ==> r[i] == members[i].(role := r[i].role)
    ensures forall i :: 0 <= i < |members| && i != j && i != k ==> r[i] == members[i]
  {
    var afterOldOwner := members[j := members[j].(role := Manager)];
    if !forceOwnerWrite && members[k].role == Owner then afterOldOwner
    else afterOldOwner[k := afterOldOwner[k].(role := Owner)]
  }

  /** An actor the `transfer` policy allows has a row in the workspace. */
  lemma AllowedActorHasRow(members: seq<Member>, workspaceId: Id, userId: Id)
    requires WorkspacePolicy.Transfer(members, workspaceId, userId) == Allow
    ensures MemberRow(members, workspaceId, userId).Some?
  {
    var m := GetMember(members, workspaceId, userId).value;
    var i :| 0 <= i < |members| && members[i] == m;
  }

  /**
   * The error `handle` ends with, in the order of its guards, or `None` when
   * every guard passes: a missing workspace, a refusal of the `transfer`
   * policy, a new owner without an active row, a new owner whose user is
   * gone (the preloaded user is read as `null`), and a new owner at the
   * workspace maximum.
   */
  function Refusal(users: seq<User>, workspaces: seq<Workspace>, members: seq<Member>, settings: Settings,
                   actor: Id, workspaceId: Id, newOwnerId: Id): Option<Thrown>
  {
    if WorkspaceById(workspaces, workspaceId).None? then Some(RowNotFound)
    else if WorkspacePolicy.Transfer(members, workspaceId, actor) != Allow then Some(AuthorizationFailure(None))
    else if ActiveRow(members, workspaceId, newOwnerId).None? then Some(RowNotFound)
    else if UserById(users, newOwnerId).None? then Some(Unknown(NoPreloadedUser))
    else if OwnedWorkspaceCount(members, newOwnerId) >= settings.workspaceMax then Some(Http(Forbidden(NewOwnerAtMaximum)))
    else None
  }

  /**
   * The controller, with the new owner's save as a parameter: `false` is the
   * code as written, `true` the corrected save.
   */
  method Run(s: Store, settings: Settings, userIndex: nat, workspaceId: Id, newOwnerId: Id, forceOwnerWrite: bool) returns (r: Result<string, Thrown>)
    requires userIndex < |s.users|
    modifies s
    ensures var actor := old(s.users[userIndex].id);
      var refusal := Refusal(old(s.users), old(s.workspaces), old(s.members), settings, actor, workspaceId, newOwnerId);
      (r.Ok? <==> refusal.None?) && (r.Err? ==> r.error == refusal.value)
    ensures r.Err? ==> s.Snapshot() == old(s.Snapshot()) && s.expiredCaches == old(s.expiredCaches)
    ensures r.Ok? ==>
      var actor := old(s.users[userIndex].id);
      WorkspaceById(old(s.workspaces), workspaceId).Some? &&
      WorkspacePolicy.Transfer(old(s.members), workspaceId, actor) == Allow &&
      ActiveRow(old(s.members), workspaceId, newOwnerId).Some? && UserById(old(s.users), newOwnerId).Some? &&
      OwnedWorkspaceCount(old(s.members), newOwnerId) < settings.workspaceMax &&
      MemberRow(old(s.members), workspaceId, actor).Some? &&
      s.members == Swapped(old(s.members), MemberRow(old(s.members), workspaceId, actor).value,
                           ActiveRow(old(s.members), workspaceId, newOwnerId).value, forceOwnerWrite) &&
      s.expiredCaches == old(s.expiredCaches) + [workspaceId] &&
      r.value == Transferred(old(s.users)[UserById(old(s.users), newOwnerId).value].name)
    ensures s.users == old(s.users) && s.workspaces == old(s.workspaces) && s.blogs == old(s.blogs) && s.tokens == old(s.tokens)
    ensures s.nextId == old(s.nextId) && s.clock == old(s.clock) && s.mails == old(s.mails)
  {
    var actor := s.users[userIndex].id;
    if WorkspaceById(s.workspaces, workspaceId).None? {
      return Err(RowNotFound);
    }
    var allowed := Authorize(WorkspacePolicy.Transfer(s.members, workspaceId, actor));
    if allowed.Err? {
      return Err(allowed.error);
    }
    var k := ActiveRow(s.members, workspaceId, newOwnerId);
    if k.None? {
      return Err(RowNotFound);
    }
    var newOwnerUser := UserById(s.users, newOwnerId);
    if newOwnerUser.None? {
      return Err(Unknown(NoPreloadedUser));
    }
    if OwnedWorkspaceCount(s.members, newOwnerId) >= settings.workspaceMax {
      return Err(Http(Forbidden(NewOwnerAtMaximum)));
    }
    // Inside the transaction: the old owner's row, by `firstOrFail`, which the policy guarantees exists.
    AllowedActorHasRow(s.members, workspaceId, actor);
    var j := MemberRow(s.members, workspaceId, actor).value;
    s.members := Swapped(s.members, j, k.value, forceOwnerWrite);
    s.ExpireActiveMembers(workspaceId);
    r := Ok(Transferred(s.users[newOwnerUser.value].name));
  }

  /** `handle` as written. */
  method Handle(s: Store, settings: Settings, userIndex: nat, workspaceId: Id, newOwnerId: Id) returns (r: Result<string, Thrown>)
    requires userIndex < |s.users|
    modifies s
    ensures var actor := old(s.users[userIndex].id);
      var refusal := Refusal(old(s.users), old(s.workspaces), old(s.members), settings, actor, workspaceId, newOwnerId);
      (r.Ok? <==> refusal.None?) && (r.Err? ==> r.error == refusal.value)
    ensures r.Err? ==> s.Snapshot() == old(s.Snapshot()) && s.expiredCaches == old(s.expiredCaches)
    ensures r.Ok? ==>
      var actor := old(s.users[userIndex].id);
      MemberRow(old(s.members), workspaceId, actor).Some? && ActiveRow(old(s.members), workspaceId, newOwnerId).Some? &&
      s.members == Swapped(old(s.members), MemberRow(old(s.members), workspaceId, actor).value,
                           ActiveRow(old(s.members), workspaceId, newOwnerId).value, false) &&
      s.expiredCaches == old(s.expiredCaches) + [workspaceId]
    ensures s.users == old(s.users) && s.workspaces == old(s.workspaces) && s.blogs == old(s.blogs) && s.tokens == old(s.tokens)
    ensures s.nextId == old(s.nextId) && s.clock == old(s.clock) && s.mails == old(s.mails)
  {
    r := Run(s, settings, userIndex, workspaceId, newOwnerId, false);
  }

  /** `handle` with the new owner's role always written. */
  method HandleCorrected(s: Store, settings: Settings, userIndex: nat, workspaceId: Id, newOwnerId: Id) returns (r: Result<string, Thrown>)
    requires userIndex < |s.users|
    modifies s
    ensures var actor := old(s.users[userIndex].id);
      var refusal := Refusal(old(s.users), old(s.workspaces), old(s.members), settings, actor, workspaceId, newOwnerId);
      (r.Ok? <==> refusal.None?) && (r.Err? ==> r.error == refusal.value)
    ensures r.Err? ==> s.Snapshot() == old(s.Snapshot()) && s.expiredCaches == old(s.expiredCaches)
    ensures r.Ok? ==>
      var actor := old(s.users[userIndex].id);
      MemberRow(old(s.members), workspaceId, actor).Some? && ActiveRow(old(s.members), workspaceId, newOwnerId).Some? &&
      s.members == Swapped(old(s.members), MemberRow(old(s.members), workspaceId, actor).value,
                           ActiveRow(old(s.members), workspaceId, newOwnerId).value, true) &&
      s.expiredCaches == old(s.expiredCaches) + [workspaceId]
    ensures r.Ok? && old(s.Valid()) ==> s.Valid()
    ensures s.users == old(s.users) && s.workspaces == old(s.workspaces) && s.blogs == old(s.blogs) && s.tokens == old(s.tokens)
    ensures s.nextId == old(s.nextId) && s.clock == old(s.clock) && s.mails == old(s.mails)
  {
    ghost var before := s.Snapshot();
    r := Run(s, settings, userIndex, workspaceId, newOwnerId, true);
    if r.Ok? && TablesValid(before) {
      var actor := old(s.users[userIndex].id);
      AllowedOwnerRow(before.members, workspaceId, actor);
      CorrectedKeepsValid(before, MemberRow(before.members, workspaceId, actor).value, ActiveRow(before.members, workspaceId, newOwnerId).value);
    }
  }

  // ----- the role swap -----

  /** Under the unique constraint, the row the policy read for the owner is the row the transaction loads. */
  lemma AllowedOwnerRow(members: seq<Member>, workspaceId: Id, userId: Id)
    requires UniqueMembership(members)
    requires WorkspacePolicy.Transfer(members, workspaceId, userId) == Allow
    ensures MemberRow(members, workspaceId, userId).Some? && members[MemberRow(members, workspaceId, userId).value].role == Owner
  {
    var m := GetMember(members, workspaceId, userId).value;
    var i :| 0 <= i < |members| && members[i] == m;
    MemberRowIsOnly(members, workspaceId, userId, i);
  }

  /** The corrected swap: the old owner is now a manager, the new owner the owner, and no other row changes. */
  lemma CorrectedSwap(members: seq<Member>, j: nat, k: nat)
    requires j < |members| && k < |members| && j != k
    ensures Swapped(members, j, k, true)[j].role == Manager
    ensures Swapped(members, j, k, true)[k].role == Owner
  {
  }

  /** The corrected transfer keeps the store's constraints; in particular the workspace keeps exactly one owner row. */
  lemma CorrectedKeepsValid(t: Tables, j: nat, k: nat)
    requires TablesValid(t) && j < |t.members| && k < |t.members|
    requires t.members[j].role == Owner && t.members[j].workspaceId == t.members[k].workspaceId
    ensures TablesValid(t.(members := Swapped(t.members, j, k, true)))
  {
    var after := Swapped(t.members, j, k, true);
    forall a, b | 0 <= a < b < |after| && after[a].workspaceId == after[b].workspaceId
      ensures !(after[a].role == Owner && after[b].role == Owner)
    {
      if after[a].role == Owner && after[b].role == Owner {
        // Only row `k` can be an owner among the workspace's rows: `j` was the one owner before.
        OwnerOnlyAt(t.members, j, k, a);
        OwnerOnlyAt(t.members, j, k, b);
      }
    }
  }

  lemma OwnerOnlyAt(members: seq<Member>, j: nat, k: nat, a: nat)
    requires AtMostOneOwner(members) && j < |members| && k < |members| && a < |members|
    requires members[j].role == Owner
    requires Swapped(members, j, k, true)[a].role == Owner && members[a].workspaceId == members[j].workspaceId
    ensures a == k
  {
  }

  /**
   * As written, transferring a workspace to its own owner leaves it with no
   * owner: the owner row is saved as `manager`, and the second save, which
   * should restore `owner`, sends nothing.
   */
  lemma SelfTransferLeavesNoOwner(members: seq<Member>, j: nat)
    requires AtMostOneOwner(members) && j < |members| && members[j].role == Owner
    ensures forall i :: 0 <= i < |members| && members[i].workspaceId == members[j].workspaceId ==>
      Swapped(members, j, j, false)[i].role != Owner
  {
  }

  /** The corrected save keeps the owner in place on a self-transfer. */
  lemma CorrectedSelfTransferKeepsOwner(members: seq<Member>, j: nat)
    requires j < |members|
    ensures Swapped(members, j, j, true) == members[j := members[j].(role := Owner)]
  {
  }

  /** Away from a self-transfer, the code as written and the corrected save agree. */
  lemma AsWrittenAgreesOffSelf(members: seq<Member>, j: nat, k: nat)
    requires AtMostOneOwner(members) && j < |members| && k < |members| && j != k
    requires members[j].role == Owner && members[j].workspaceId == members[k].workspaceId
    ensures Swapped(members, j, k, false) == Swapped(members, j, k, true)
  {
  }

  /** A concrete case: one owner transfers the workspace to themself and the workspace ends up without an owner. */
  lemma SelfTransferExample()
    ensures var members := [Member(0, 5, 1, Owner, Some(0), None)];
      WorkspacePolicy.Transfer(members, 1, 5) == Allow &&
      Swapped(members, 0, 0, false) == [Member(0, 5, 1, Manager, Some(0), None)] &&
      WorkspacePolicy.Transfer(Swapped(members, 0, 0, false), 1, 5) == Deny(None)
  {
    var members := [Member(0, 5, 1, Owner, Some(0), None)];
    assert ActiveMembers(members, 1) == members;
    var after := Swapped(members, 0, 0, false);
    assert ActiveMembers(after, 1) == after;
  }
}
