/**
 * backend/core/app/controllers/customer/workspace/member/create_controller.ts:
 * an owner or manager adds a verified user to the workspace by email. A user
 * who left is taken back at once, with the role they had; a user with no row
 * gets a new row that has not joined yet; a user whose row never joined is
 * left as is. There is no transaction. `actorId` is the authenticated user.
 */
module MemberCreate {
  import opened Wrappers
  import opened Literals
  import opened Records
  import opened Store
  import opened HttpException
  import opened ParseError
  import opened UserHelper
  import opened WorkspaceHelper
  import opened WorkspaceModel
  import opened Authorization
  import opened MemberValidators
  import WorkspacePolicy

  const NoVerifiedUser := "No verified user was found with the provided email address."
  const AlreadyMember := "This user is already a member of the workspace."
  const Added := "The user has been successfully added to the workspace."

  /** The first user with this email whose address is verified. */
  function FirstVerified(users: seq<User>, email: string): (r: Option<nat>)
    ensures r.Some? ==> r.value < |users| && users[r.value].email == email && users[r.value].verifiedAt.Some?
    ensures r.None? ==> forall i :: 0 <= i < |users| ==> !(users[i].email == email && users[i].verifiedAt.Some?)
  {
    if users == [] then None
    else if users[0].email == email && users[0].verifiedAt.Some? then Some(0)
    else match FirstVerified(users[1..], email)
      case None => None
      case Some(k) => Some(k + 1)
  }

  /**
   * The membership step for user `userId`, on the first row of the user in
   * the workspace: refused when that row is active, reactivated (joined now,
   * role kept) when it has left, untouched when it never joined, and a new
   * not-yet-joined row with `role` (default viewer) when there is none.
   */
  function Join(t: Tables, now: Time, workspaceId: Id, userId: Id, role: Option<MemberRole>): (r: Result<Tables, Thrown>)
    ensures r.Err? <==> MemberRow(t.members, workspaceId, userId).Some? && IsActive(t.members[MemberRow(t.members, workspaceId, userId).value])
    ensures r.Err? ==> r.error == Http(BadRequest(AlreadyMember, NoOptions))
    ensures r.Ok? ==> r.value.users == t.users && r.value.workspaces == t.workspaces && r.value.blogs == t.blogs && r.value.tokens == t.tokens
  {
    match MemberRow(t.members, workspaceId, userId)
    case Some(i) =>
      var m := t.members[i];
      if IsActive(m) then Err(Http(BadRequest(AlreadyMember, NoOptions)))
      else if m.leftAt.Some? then Ok(t.(members := t.members[i := m.(leftAt := None, joinedAt := Some(now))]))
      else Ok(t)
    case None =>
      Ok(t.(members := t.members + [Member(t.nextId, userId, workspaceId, role.GetOr(Viewer), None, None)], nextId := t.nextId + 1))
  }

  /** What the request does to the tables, or the error it ends with. */
  function Add(t: Tables, now: Time, actorId: Id, workspaceId: Id, email: string, role: Option<string>): (r: Result<Tables, Thrown>)
    ensures OptionalUpdatableRole(role).Err? ==> r == Err(VineValidation(OptionalUpdatableRole(role).error))
    ensures OptionalUpdatableRole(role).Ok? && WorkspaceById(t.workspaces, workspaceId).None? ==> r == Err(RowNotFound)
    ensures (OptionalUpdatableRole(role).Ok? && WorkspaceById(t.workspaces, workspaceId).Some? &&
             !AtLeast(ActiveRole(t.members, workspaceId, actorId), Manager)) ==>
      r == Err(AuthorizationFailure(None))
    ensures (OptionalUpdatableRole(role).Ok? && WorkspaceById(t.workspaces, workspaceId).Some? &&
             AtLeast(ActiveRole(t.members, workspaceId, actorId), Manager) && FirstVerified(t.users, email).None?) ==>
      r == Err(Http(NotFound(NoVerifiedUser)))
    ensures r.Ok? ==>
      OptionalUpdatableRole(role).Ok? && WorkspaceById(t.workspaces, workspaceId).Some? &&
      AtLeast(ActiveRole(t.members, workspaceId, actorId), Manager) && FirstVerified(t.users, email).Some?
  {
    match OptionalUpdatableRole(role)
    case Err(errors) => Err(VineValidation(errors))
    case Ok(parsed) =>
      if WorkspaceById(t.workspaces, workspaceId).None? then Err(RowNotFound)
      else match Authorize(WorkspacePolicy.ManageMembers(t.members, workspaceId, actorId))
        case Err(refusal) => Err(refusal)
        case Ok(_) =>
          match FirstVerified(t.users, email)
          case None => Err(Http(NotFound(NoVerifiedUser)))
          case Some(u) => Join(t, now, workspaceId, t.users[u].id, parsed)
  }

  method Handle(s: Store, actorId: Id, workspaceId: Id, email: string, role: Option<string>) returns (r: Result<string, Thrown>)
    modifies s
    ensures var outcome := Add(old(s.Snapshot()), old(s.clock), actorId, workspaceId, email, role);
      (r.Ok? <==> outcome.Ok?) &&
      (r.Err? ==> r.error == outcome.error && s.Snapshot() == old(s.Snapshot()) && s.expiredCaches == old(s.expiredCaches)) &&
      (r.Ok? ==> r.value == Added && s.Snapshot() == outcome.value && s.expiredCaches == old(s.expiredCaches) + [workspaceId])
    ensures s.clock == old(s.clock) && s.mails == old(s.mails)
  {
    var parsed := OptionalUpdatableRole(role);
    if parsed.Err? {
      return Err(VineValidation(parsed.error));
    }
    if WorkspaceById(s.workspaces, workspaceId).None? {
      return Err(RowNotFound);
    }
    var allowed := Authorize(WorkspacePolicy.ManageMembers(s.members, workspaceId, actorId));
    if allowed.Err? {
      return Err(allowed.error);
    }
    var found := FirstVerified(s.users, email);
    if found.None? {
      return Err(Http(NotFound(NoVerifiedUser)));
    }
    var userId := s.users[found.value].id;
    var row := MemberRow(s.members, workspaceId, userId);
    if row.Some? {
      var m := s.members[row.value];
      if IsActive(m) {
        return Err(Http(BadRequest(AlreadyMember, NoOptions)));
      }
      if m.leftAt.Some? {
        s.members := s.members[row.value := m.(leftAt := None, joinedAt := Some(s.clock))];
      }
    } else {
      var memberId := s.NewId();
      s.members := s.members + [Member(memberId, userId, workspaceId, parsed.value.GetOr(Viewer), None, None)];
    }
    s.ExpireActiveMembers(workspaceId);
    r := Ok(Added);
  }

  /**
   * Under the unique constraint, the request is refused as "already a
   * member" exactly when the user has an active row in the workspace.
   */
  lemma RefusedExactlyActive(t: Tables, now: Time, workspaceId: Id, userId: Id, role: Option<MemberRole>)
    requires UniqueMembership(t.members)
    ensures Join(t, now, workspaceId, userId, role).Err? <==> ActiveRow(t.members, workspaceId, userId).Some?
  {
    if ActiveRow(t.members, workspaceId, userId).Some? {
      MemberRowIsOnly(t.members, workspaceId, userId, ActiveRow(t.members, workspaceId, userId).value);
    }
  }

  /**
   * After a successful step the user has a row in the workspace; it is
   * active exactly when the user had left, and then carries the old role; a
   * new row carries the requested role, or viewer.
   */
  lemma JoinedRow(t: Tables, now: Time, workspaceId: Id, userId: Id, role: Option<MemberRole>)
    requires Join(t, now, workspaceId, userId, role).Ok?
    ensures var after := Join(t, now, workspaceId, userId, role).value.members;
      MemberRow(after, workspaceId, userId).Some? &&
      (MemberRow(t.members, workspaceId, userId).Some? ==>
        var i := MemberRow(t.members, workspaceId, userId).value;
        MemberRow(after, workspaceId, userId) == Some(i) && after[i].role == t.members[i].role &&
        (IsActive(after[i]) <==> t.members[i].leftAt.Some?)) &&
      (MemberRow(t.members, workspaceId, userId).None? ==>
        var i := MemberRow(after, workspaceId, userId).value;
        i == |t.members| && after[i].role == role.GetOr(Viewer) && !IsActive(after[i]))
  {
    var after := Join(t, now, workspaceId, userId, role).value.members;
    match MemberRow(t.members, workspaceId, userId)
    case Some(i) =>
      assert forall j :: 0 <= j < |after| ==> after[j].workspaceId == t.members[j].workspaceId && after[j].userId == t.members[j].userId;
      assert MemberRow(after, workspaceId, userId) == Some(i) by { SameKeysSameRow(t.members, after, workspaceId, userId); }
    case None =>
      assert after == t.members + [after[|t.members|]];
      AppendedRow(t.members, after[|t.members|], workspaceId, userId);
  }

  /** `MemberRow` looks only at the (workspace, user) keys of the rows. */
  lemma {:induction false} SameKeysSameRow(a: seq<Member>, b: seq<Member>, workspaceId: Id, userId: Id)
    requires |a| == |b|
    requires forall j :: 0 <= j < |a| ==> a[j].workspaceId == b[j].workspaceId && a[j].userId == b[j].userId
    ensures MemberRow(a, workspaceId, userId) == MemberRow(b, workspaceId, userId)
  {
    if a != [] {
      SameKeysSameRow(a[1..], b[1..], workspaceId, userId);
    }
  }

  /** A row appended for a user with no row is found at the end. */
  lemma {:induction false} AppendedRow(members: seq<Member>, m: Member, workspaceId: Id, userId: Id)
    requires MemberRow(members, workspaceId, userId).None?
    requires m.workspaceId == workspaceId && m.userId == userId
    ensures MemberRow(members + [m], workspaceId, userId) == Some(|members|)
  {
    if members != [] {
      assert (members + [m])[1..] == members[1..] + [m];
      AppendedRow(members[1..], m, workspaceId, userId);
    }
  }

  /** Adding a member never changes how many workspaces anybody owns. */
  lemma JoinKeepsOwnership(t: Tables, now: Time, workspaceId: Id, userId: Id, role: Option<MemberRole>, anyone: Id)
    requires role != Some(Owner)
    requires Join(t, now, workspaceId, userId, role).Ok?
    ensures OwnedWorkspaceCount(Join(t, now, workspaceId, userId, role).value.members, anyone) == OwnedWorkspaceCount(t.members, anyone)
  {
    match MemberRow(t.members, workspaceId, userId)
    case Some(i) =>
      if t.members[i].leftAt.Some? {
        DatesDoNotCount(t.members, i, Some(now), None, anyone);
      }
    case None =>
      AddNonOwnerKeepsCount(t.members, Member(t.nextId, userId, workspaceId, role.GetOr(Viewer), None, None), anyone);
  }

  /**
   * Adding a member keeps the store's constraints, for a workspace and a
   * user that exist; a requested role is never owner.
   */
  lemma JoinKeepsValid(t: Tables, now: Time, workspaceId: Id, userId: Id, role: Option<MemberRole>)
    requires TablesValid(t) && workspaceId < t.nextId && userId < t.nextId
    requires role != Some(Owner)
    requires Join(t, now, workspaceId, userId, role).Ok?
    ensures TablesValid(Join(t, now, workspaceId, userId, role).value)
  {
    var after := Join(t, now, workspaceId, userId, role).value;
    match MemberRow(t.members, workspaceId, userId)
    case Some(i) =>
      assert forall j :: 0 <= j < |after.members| ==> after.members[j] == t.members[j].(joinedAt := after.members[j].joinedAt, leftAt := after.members[j].leftAt);
    case None =>
      assert forall j :: 0 <= j < |t.members| ==> after.members[j] == t.members[j];
  }

  /** A successful request keeps the store's constraints and everybody's owned-workspace count. */
  lemma AddKeepsValid(t: Tables, now: Time, actorId: Id, workspaceId: Id, email: string, role: Option<string>, anyone: Id)
    requires TablesValid(t)
    requires Add(t, now, actorId, workspaceId, email, role).Ok?
    ensures TablesValid(Add(t, now, actorId, workspaceId, email, role).value)
    ensures OwnedWorkspaceCount(Add(t, now, actorId, workspaceId, email, role).value.members, anyone) == OwnedWorkspaceCount(t.members, anyone)
  {
    var parsed := OptionalUpdatableRole(role).value;
    var u := FirstVerified(t.users, email).value;
    var w := WorkspaceById(t.workspaces, workspaceId).value;
    assert t.workspaces[w].id < t.nextId;
    assert t.users[u].id < t.nextId;
    JoinKeepsValid(t, now, workspaceId, t.users[u].id, parsed);
    JoinKeepsOwnership(t, now, workspaceId, t.users[u].id, parsed, anyone);
  }
}
