/**
 * backend/core/app/policies/workspace_policy.ts: who may view, change, delete
 * or hand over a workspace and manage its members.
 */
module WorkspacePolicy {
  import opened Wrappers
  import opened Literals
  import opened Records
  import opened WorkspaceHelper
  import opened UserHelper
  import opened WorkspaceModel
  import opened Authorization
  import Decimal

  const LastWorkspace := "Cannot delete the last workspace"

  function PublishedBlogsMessage(n: nat): string
  {
    "Workspace has " + Decimal.FromNat(n) + " published blogs, please archive them first"
  }

  /** `view`: any active member. */
  function View(members: seq<Member>, workspaceId: Id, userId: Id): (d: Decision)
    ensures d == Allow <==> ActiveRole(members, workspaceId, userId).Some?
    ensures d != Allow ==> d == Deny(None)
  {
    FromBool(GetMember(members, workspaceId, userId).Some?)
  }

  /** `update`: owners and managers. */
  function Update(members: seq<Member>, workspaceId: Id, userId: Id): (d: Decision)
    ensures d == Allow <==> AtLeast(ActiveRole(members, workspaceId, userId), Manager)
    ensures d != Allow ==> d == Deny(None)
  {
    FromBool(MemberHasRole(members, workspaceId, userId, [Owner, Manager]))
  }

  /** `transfer`: the owner only. */
  function Transfer(members: seq<Member>, workspaceId: Id, userId: Id): (d: Decision)
    ensures d == Allow <==> ActiveRole(members, workspaceId, userId) == Some(Owner)
    ensures d != Allow ==> d == Deny(None)
  {
    FromBool(MemberHasRole(members, workspaceId, userId, [Owner]))
  }

  /** `manageMembers`: owners and managers. */
  function ManageMembers(members: seq<Member>, workspaceId: Id, userId: Id): (d: Decision)
    ensures d == Allow <==> AtLeast(ActiveRole(members, workspaceId, userId), Manager)
    ensures d != Allow ==> d == Deny(None)
  {
    FromBool(MemberHasRole(members, workspaceId, userId, [Owner, Manager]))
  }

  /**
   * `delete`: the owner, when no blog of the workspace is published and the
   * owner owns at least one other workspace; the checks run in that order.
   */
  function Delete(members: seq<Member>, blogs: seq<Blog>, workspaceId: Id, userId: Id): (d: Decision)
    ensures ActiveRole(members, workspaceId, userId) != Some(Owner) ==> d == Deny(None)
    ensures ActiveRole(members, workspaceId, userId) == Some(Owner) && PublishedBlogCount(blogs, workspaceId) > 0 ==>
      d == Deny(Some(PublishedBlogsMessage(PublishedBlogCount(blogs, workspaceId))))
    ensures ActiveRole(members, workspaceId, userId) == Some(Owner) && PublishedBlogCount(blogs, workspaceId) == 0 && OwnedWorkspaceCount(members, userId) < 2
      ==> d == Deny(Some(LastWorkspace))
    ensures d == Allow <==>
      ActiveRole(members, workspaceId, userId) == Some(Owner) &&
      (forall i :: 0 <= i < |blogs| && blogs[i].workspaceId == workspaceId ==> !IsPublished(blogs[i])) &&
      OwnedWorkspaceCount(members, userId) >= 2
    ensures !d.Error?
  {
    PublishedCountZero(blogs, workspaceId);
    if !MemberHasRole(members, workspaceId, userId, [Owner]) then Deny(None)
    else
      var published := PublishedBlogCount(blogs, workspaceId);
      if published > 0 then Deny(Some(PublishedBlogsMessage(published)))
      else if OwnedWorkspaceCount(members, userId) < 2 then Deny(Some(LastWorkspace))
      else Allow
  }

  /** Whoever may delete or transfer a workspace may also update it and manage its members, and may view it. */
  lemma OwnerPowersNest(members: seq<Member>, blogs: seq<Blog>, workspaceId: Id, userId: Id)
    ensures Delete(members, blogs, workspaceId, userId) == Allow ==> Transfer(members, workspaceId, userId) == Allow
    ensures Transfer(members, workspaceId, userId) == Allow ==> ManageMembers(members, workspaceId, userId) == Allow
    ensures ManageMembers(members, workspaceId, userId) == Update(members, workspaceId, userId)
    ensures Update(members, workspaceId, userId) == Allow ==> View(members, workspaceId, userId) == Allow
  {
  }

  /** An active owner of the workspace owns it, so the owned count is at least 1. */
  lemma ActiveOwnerOwnsOne(members: seq<Member>, workspaceId: Id, userId: Id)
    requires ActiveRole(members, workspaceId, userId) == Some(Owner)
    ensures OwnedWorkspaceCount(members, userId) >= 1
  {
    assert OwnsRow(GetMember(members, workspaceId, userId).value, userId);
  }
}
