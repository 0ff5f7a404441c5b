/**
 * backend/core/app/helper/user.ts: how many workspaces a user owns, counted
 * over all of the user's membership rows.
 */
module UserHelper {
  import opened Wrappers
  import opened Literals
  import opened Records

  predicate OwnsRow(m: Member, userId: Id)
  {
    m.userId == userId && m.role == Owner
  }

  /**
   * `getOwnedWorkspaceCount`: the user's rows whose role is owner, in every
   * workspace, whatever their `joinedAt` and `leftAt`.
   */
  function OwnedWorkspaceCount(members: seq<Member>, userId: Id): (n: nat)
    ensures n <= |members|
    ensures n == 0 <==> forall m :: m in members ==> !OwnsRow(m, userId)
  {
    if members == [] then 0
    else
      var last := members[|members| - 1];
      assert members == members[..|members| - 1] + [last];
      OwnedWorkspaceCount(members[..|members| - 1], userId) + (if OwnsRow(last, userId) then 1 else 0)
  }

  /** Adding a membership changes the count only when it is an owner row of this user. */
  lemma AppendCount(members: seq<Member>, m: Member, userId: Id)
    ensures OwnedWorkspaceCount(members + [m], userId) == OwnedWorkspaceCount(members, userId) + (if OwnsRow(m, userId) then 1 else 0)
  {
    assert (members + [m])[..|members|] == members;
  }

  /** Adding a non-owner membership leaves every user's count unchanged. */
  lemma AddNonOwnerKeepsCount(members: seq<Member>, m: Member, userId: Id)
    requires m.role != Owner
    ensures OwnedWorkspaceCount(members + [m], userId) == OwnedWorkspaceCount(members, userId)
  {
    AppendCount(members, m, userId);
  }

  /**
   * Replacing row `i` changes the count by what the row itself contributes;
   * in particular `joinedAt` and `leftAt` never matter.
   */
  lemma {:induction false} ReplaceRowCount(members: seq<Member>, i: nat, m: Member, userId: Id)
    requires i < |members|
    ensures OwnedWorkspaceCount(members[i := m], userId) + (if OwnsRow(members[i], userId) then 1 else 0)
         == OwnedWorkspaceCount(members, userId) + (if OwnsRow(m, userId) then 1 else 0)
  {
    var n := |members|;
    if i < n - 1 {
      ReplaceRowCount(members[..n - 1], i, m, userId);
      assert members[i := m][..n - 1] == members[..n - 1][i := m];
    } else {
      assert members[i := m][..n - 1] == members[..n - 1];
    }
  }

  /** Leaving, rejoining or being removed never changes how many workspaces a user owns. */
  lemma DatesDoNotCount(members: seq<Member>, i: nat, joinedAt: Option<Time>, leftAt: Option<Time>, userId: Id)
    requires i < |members|
    ensures OwnedWorkspaceCount(members[i := members[i].(joinedAt := joinedAt, leftAt := leftAt)], userId) == OwnedWorkspaceCount(members, userId)
  {
    ReplaceRowCount(members, i, members[i].(joinedAt := joinedAt, leftAt := leftAt), userId);
  }
}
