/**
 * backend/core/app/models/workspace.ts: looking up the actor's membership in a
 * workspace. The cached active-member list is the filter of
 * `WorkspaceHelper.ActiveMembers` over the current rows.
 */
module WorkspaceModel {
  import opened Wrappers
  import opened Literals
  import opened Records
  import opened WorkspaceHelper
  import Decimal
  import HttpException

  /** The first row of `list` whose user is `userId` (`Array.prototype.find`). */
  function FindByUser(list: seq<Member>, userId: Id): (r: Option<Member>)
    ensures r.Some? ==> r.value in list && r.value.userId == userId
    ensures r.None? <==> forall m :: m in list ==> m.userId != userId
  {
    if list == [] then None
    else if list[0].userId == userId then Some(list[0])
    else FindByUser(list[1..], userId)
  }

  /** `getMember`: the user's active membership in the workspace, if any. */
  function GetMember(members: seq<Member>, workspaceId: Id, userId: Id): (r: Option<Member>)
    ensures r.Some? ==> r.value in members && ActiveIn(r.value, workspaceId) && r.value.userId == userId
    ensures r.None? <==> forall m :: m in members && ActiveIn(m, workspaceId) ==> m.userId != userId
  {
    FindByUser(ActiveMembers(members, workspaceId), userId)
  }

  /** Among several active rows of the user, `getMember` returns the first stored one. */
  lemma {:induction false} GetMemberIsFirst(members: seq<Member>, workspaceId: Id, userId: Id, i: nat)
    requires i < |members| && ActiveIn(members[i], workspaceId) && members[i].userId == userId
    requires forall j :: 0 <= j < i ==> !(ActiveIn(members[j], workspaceId) && members[j].userId == userId)
    ensures GetMember(members, workspaceId, userId) == Some(members[i])
  {
    var tail := ActiveMembers(members[1..], workspaceId);
    if i > 0 {
      GetMemberIsFirst(members[1..], workspaceId, userId, i - 1);
      if ActiveIn(members[0], workspaceId) {
        assert ActiveMembers(members, workspaceId) == [members[0]] + tail;
        assert ([members[0]] + tail)[1..] == tail;
      } else {
        assert ActiveMembers(members, workspaceId) == tail;
      }
    } else {
      assert ActiveMembers(members, workspaceId) == [members[0]] + tail;
    }
  }

  function NotFoundMessage(userId: Id): string
  {
    "Workspace member for user " + Decimal.FromNat(userId) + " not found"
  }

  /** `getMemberOrFail`: as `getMember`, but a missing membership is a NotFound error. */
  function GetMemberOrFail(members: seq<Member>, workspaceId: Id, userId: Id): (r: Result<Member, HttpException.HttpException>)
    ensures r.Ok? <==> GetMember(members, workspaceId, userId).Some?
    ensures r.Ok? ==> r.value == GetMember(members, workspaceId, userId).value
    ensures r.Err? ==> r.error == HttpException.NotFound(NotFoundMessage(userId))
  {
    match GetMember(members, workspaceId, userId)
    case Some(m) => Ok(m)
    case None => Err(HttpException.NotFound(NotFoundMessage(userId)))
  }

  /** `memberHasRole`: the user is an active member and the member's role is listed. */
  function MemberHasRole(members: seq<Member>, workspaceId: Id, userId: Id, roles: seq<MemberRole>): (b: bool)
    ensures GetMember(members, workspaceId, userId).None? ==> !b
    ensures GetMember(members, workspaceId, userId).Some? ==> (b <==> GetMember(members, workspaceId, userId).value.role in roles)
    ensures roles == [] ==> !b
  {
    match GetMember(members, workspaceId, userId)
    case None => false
    case Some(m) => m.role in roles
  }

  /** Listing more roles never turns an allowed user into a refused one. */
  lemma MemberHasRoleMonotone(members: seq<Member>, workspaceId: Id, userId: Id, roles: seq<MemberRole>, more: seq<MemberRole>)
    requires forall r :: r in roles ==> r in more
    requires MemberHasRole(members, workspaceId, userId, roles)
    ensures MemberHasRole(members, workspaceId, userId, more)
  {
  }

  /** The active role of the user in the workspace, read through `getMember`. */
  function ActiveRole(members: seq<Member>, workspaceId: Id, userId: Id): (r: Option<MemberRole>)
    ensures r.Some? <==> GetMember(members, workspaceId, userId).Some?
    ensures forall roles :: MemberHasRole(members, workspaceId, userId, roles) <==> r.Some? && r.value in roles
  {
    match GetMember(members, workspaceId, userId)
    case None => None
    case Some(m) => Some(m.role)
  }
}
