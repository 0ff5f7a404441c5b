/**
 * How a change to one membership row shows through `getMember`: the
 * controllers find their target with `activeMemberQuery ... first`, and the
 * policies read the same rows through `getMember`. These lemmas connect the
 * two and say whose access a one-row change can affect.
 */
module Membership {
  import opened Wrappers
  import opened Literals
  import opened Records
  import opened Store
  import opened WorkspaceHelper
  import opened WorkspaceModel
  import opened UserHelper

  /** The row `activeMemberQuery ... where(userId) ... first` finds is the one `getMember` returns. */
  lemma ActiveRowIsGetMember(members: seq<Member>, workspaceId: Id, userId: Id)
    ensures ActiveRow(members, workspaceId, userId).None? <==> GetMember(members, workspaceId, userId).None?
    ensures ActiveRow(members, workspaceId, userId).Some? ==>
      GetMember(members, workspaceId, userId) == Some(members[ActiveRow(members, workspaceId, userId).value])
  {
    match ActiveRow(members, workspaceId, userId)
    case Some(i) =>
      GetMemberIsFirst(members, workspaceId, userId, i);
    case None =>
      forall m | m in members && ActiveIn(m, workspaceId)
        ensures m.userId != userId
      {
        var j :| 0 <= j < |members| && members[j] == m;
      }
  }

  /** The active role, read off the row `ActiveRow` finds. */
  lemma ActiveRoleIsActiveRow(members: seq<Member>, workspaceId: Id, userId: Id)
    ensures ActiveRow(members, workspaceId, userId).None? ==> ActiveRole(members, workspaceId, userId).None?
    ensures ActiveRow(members, workspaceId, userId).Some? ==>
      ActiveRole(members, workspaceId, userId) == Some(members[ActiveRow(members, workspaceId, userId).value].role)
  {
    ActiveRowIsGetMember(members, workspaceId, userId);
  }

  /** An active row of the user, with no active row of the user before it, is the one `ActiveRow` finds. */
  lemma {:induction false} ActiveRowAt(members: seq<Member>, workspaceId: Id, userId: Id, i: nat)
    requires i < |members| && members[i].workspaceId == workspaceId && members[i].userId == userId && IsActive(members[i])
    requires forall j :: 0 <= j < i && members[j].workspaceId == workspaceId && members[j].userId == userId ==> !IsActive(members[j])
    ensures ActiveRow(members, workspaceId, userId) == Some(i)
  {
    if i > 0 {
      ActiveRowAt(members[1..], workspaceId, userId, i - 1);
    }
  }

  /** `ActiveRow` for one user sees only that user's active rows. */
  lemma {:induction false} SameActiveRows(a: seq<Member>, b: seq<Member>, workspaceId: Id, userId: Id)
    requires |a| == |b|
    requires forall j :: 0 <= j < |a| && a[j].workspaceId == workspaceId && a[j].userId == userId && IsActive(a[j]) ==> a[j] == b[j]
    requires forall j :: 0 <= j < |b| && b[j].workspaceId == workspaceId && b[j].userId == userId && IsActive(b[j]) ==> a[j] == b[j]
    ensures ActiveRow(a, workspaceId, userId) == ActiveRow(b, workspaceId, userId)
  {
    if a != [] {
      SameActiveRows(a[1..], b[1..], workspaceId, userId);
    }
  }

  /**
   * Changing only row `i` of user `userId` leaves the active role of every
   * other user in every workspace as it was.
   */
  lemma OthersUnaffected(members: seq<Member>, i: nat, m: Member, workspaceId: Id, other: Id)
    requires i < |members| && m.userId == members[i].userId && other != members[i].userId
    ensures ActiveRole(members[i := m], workspaceId, other) == ActiveRole(members, workspaceId, other)
  {
    SameActiveRows(members, members[i := m], workspaceId, other);
    ActiveRoleIsActiveRow(members, workspaceId, other);
    ActiveRoleIsActiveRow(members[i := m], workspaceId, other);
  }

  /** Giving the active row `i` a new role makes that the user's active role in the workspace. */
  lemma RoleShows(members: seq<Member>, workspaceId: Id, userId: Id, role: MemberRole)
    requires ActiveRow(members, workspaceId, userId).Some?
    ensures var i := ActiveRow(members, workspaceId, userId).value;
      ActiveRole(members[i := members[i].(role := role)], workspaceId, userId) == Some(role)
  {
    var i := ActiveRow(members, workspaceId, userId).value;
    var after := members[i := members[i].(role := role)];
    ActiveRowAt(after, workspaceId, userId, i);
    ActiveRoleIsActiveRow(after, workspaceId, userId);
  }

  /** Under the unique constraint, marking the active row `i` as left takes away the user's access. */
  lemma LeftLosesAccess(members: seq<Member>, workspaceId: Id, userId: Id, now: Time)
    requires UniqueMembership(members)
    requires ActiveRow(members, workspaceId, userId).Some?
    ensures var i := ActiveRow(members, workspaceId, userId).value;
      ActiveRole(members[i := members[i].(leftAt := Some(now))], workspaceId, userId).None?
  {
    var i := ActiveRow(members, workspaceId, userId).value;
    var after := members[i := members[i].(leftAt := Some(now))];
    ActiveRoleIsActiveRow(after, workspaceId, userId);
  }

  /** Giving one row a role other than owner keeps the store's constraints. */
  lemma NonOwnerRoleKeepsValid(t: Tables, i: nat, role: MemberRole)
    requires TablesValid(t) && i < |t.members| && role != Owner
    ensures TablesValid(t.(members := t.members[i := t.members[i].(role := role)]))
  {
    var after := t.members[i := t.members[i].(role := role)];
    assert forall j :: 0 <= j < |after| && after[j].role == Owner ==> j != i && after[j] == t.members[j];
  }

  /** Changing the dates of one row keeps the store's constraints. */
  lemma DatesKeepValid(t: Tables, i: nat, joinedAt: Option<Time>, leftAt: Option<Time>)
    requires TablesValid(t) && i < |t.members|
    ensures TablesValid(t.(members := t.members[i := t.members[i].(joinedAt := joinedAt, leftAt := leftAt)]))
  {
    var after := t.members[i := t.members[i].(joinedAt := joinedAt, leftAt := leftAt)];
    assert forall j :: 0 <= j < |after| ==> after[j].role == t.members[j].role && after[j].workspaceId == t.members[j].workspaceId;
  }

  /**
   * Marking the user's active row as left takes away the user's access
   * (under the unique constraint), leaves everybody else's access and
   * owned-workspace count as they were, and keeps the store's constraints.
   */
  lemma MarkedLeft(t: Tables, workspaceId: Id, userId: Id, now: Time)
    requires TablesValid(t) && ActiveRow(t.members, workspaceId, userId).Some?
    ensures var i := ActiveRow(t.members, workspaceId, userId).value;
      var after := t.members[i := t.members[i].(leftAt := Some(now))];
      ActiveRole(after, workspaceId, userId).None? &&
      (forall w, v :: v != userId ==> ActiveRole(after, w, v) == ActiveRole(t.members, w, v)) &&
      (forall v :: OwnedWorkspaceCount(after, v) == OwnedWorkspaceCount(t.members, v)) &&
      TablesValid(t.(members := after))
  {
    var i := ActiveRow(t.members, workspaceId, userId).value;
    var after := t.members[i := t.members[i].(leftAt := Some(now))];
    LeftLosesAccess(t.members, workspaceId, userId, now);
    forall w, v | v != userId
      ensures ActiveRole(after, w, v) == ActiveRole(t.members, w, v)
    {
      OthersUnaffected(t.members, i, t.members[i].(leftAt := Some(now)), w, v);
    }
    forall v
      ensures OwnedWorkspaceCount(after, v) == OwnedWorkspaceCount(t.members, v)
    {
      DatesDoNotCount(t.members, i, t.members[i].joinedAt, Some(now), v);
    }
    DatesKeepValid(t, i, t.members[i].joinedAt, Some(now));
  }
}
