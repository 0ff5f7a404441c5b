/**
 * backend/core/app/policies/blog_policy.ts: who may do what with the blogs of
 * a workspace. Every action reads the membership rows of the store through
 * `getMember`; the actions that take a blog first check that it belongs to
 * the workspace and throw otherwise.
 */
module BlogPolicy {
  import opened Wrappers
  import opened Literals
  import opened Records
  import opened WorkspaceModel
  import opened Authorization

  const WorkspaceMismatch := "Workspace mismatch"
  const NotDraft := "Blog is not in draft status"
  const AlreadyDraft := "Blog is already in draft status"
  const NotPublished := "Blog is not published"

  const Writers: seq<MemberRole> := [Owner, Manager, Editor]
  const Publishers: seq<MemberRole> := [Owner, Manager]

  /** `checkWorkspace`: a blog of another workspace is an error, not a denial. */
  function CheckWorkspace(workspaceId: Id, blog: Blog): (r: Option<Decision>)
    ensures r.None? <==> blog.workspaceId == workspaceId
    ensures r.Some? ==> r.value == Error(WorkspaceMismatch)
  {
    if workspaceId != blog.workspaceId then Some(Error(WorkspaceMismatch)) else None
  }

  /** `create`: owners, managers and editors. */
  function Create(members: seq<Member>, workspaceId: Id, userId: Id): (d: Decision)
    ensures d == Allow <==> AtLeast(ActiveRole(members, workspaceId, userId), Editor)
    ensures d != Allow ==> d == Deny(None)
  {
    FromBool(MemberHasRole(members, workspaceId, userId, Writers))
  }

  /** `view`: as `create`, for a blog of this workspace. */
  function View(members: seq<Member>, workspaceId: Id, userId: Id, blog: Blog): (d: Decision)
    ensures blog.workspaceId != workspaceId ==> d == Error(WorkspaceMismatch)
    ensures blog.workspaceId == workspaceId ==> (d == Allow <==> AtLeast(ActiveRole(members, workspaceId, userId), Editor))
    ensures blog.workspaceId == workspaceId && d != Allow ==> d == Deny(None)
  {
    match CheckWorkspace(workspaceId, blog)
    case Some(e) => e
    case None => FromBool(MemberHasRole(members, workspaceId, userId, Writers))
  }

  /** The shared shape of the actions: workspace check, then role, then status. */
  function Guarded(members: seq<Member>, workspaceId: Id, userId: Id, blog: Blog, roles: seq<MemberRole>, statusOk: bool, reason: string): Decision
  {
    match CheckWorkspace(workspaceId, blog)
    case Some(e) => e
    case None =>
      if !MemberHasRole(members, workspaceId, userId, roles) then Deny(None)
      else if !statusOk then Deny(Some(reason))
      else Allow
  }

  /** `update`: owners, managers and editors, on a draft only; the role is checked first. */
  function Update(members: seq<Member>, workspaceId: Id, userId: Id, blog: Blog): (d: Decision)
    ensures blog.workspaceId != workspaceId ==> d == Error(WorkspaceMismatch)
    ensures blog.workspaceId == workspaceId ==>
      (d == Allow <==> AtLeast(ActiveRole(members, workspaceId, userId), Editor) && blog.status == Draft)
    ensures blog.workspaceId == workspaceId && !AtLeast(ActiveRole(members, workspaceId, userId), Editor) ==> d == Deny(None)
    ensures blog.workspaceId == workspaceId && AtLeast(ActiveRole(members, workspaceId, userId), Editor) && blog.status != Draft ==>
      d == Deny(Some(NotDraft))
  {
    Guarded(members, workspaceId, userId, blog, Writers, IsDraft(blog), NotDraft)
  }

  /** `delete`: the same rule as `update`. */
  function Delete(members: seq<Member>, workspaceId: Id, userId: Id, blog: Blog): (d: Decision)
    ensures blog.workspaceId != workspaceId ==> d == Error(WorkspaceMismatch)
    ensures blog.workspaceId == workspaceId ==>
      (d == Allow <==> AtLeast(ActiveRole(members, workspaceId, userId), Editor) && blog.status == Draft)
    ensures blog.workspaceId == workspaceId && !AtLeast(ActiveRole(members, workspaceId, userId), Editor) ==> d == Deny(None)
    ensures blog.workspaceId == workspaceId && AtLeast(ActiveRole(members, workspaceId, userId), Editor) && blog.status != Draft ==>
      d == Deny(Some(NotDraft))
  {
    Guarded(members, workspaceId, userId, blog, Writers, IsDraft(blog), NotDraft)
  }

  /** `publish`: owners and managers, on a draft only. */
  function Publish(members: seq<Member>, workspaceId: Id, userId: Id, blog: Blog): (d: Decision)
    ensures blog.workspaceId != workspaceId ==> d == Error(WorkspaceMismatch)
    ensures blog.workspaceId == workspaceId ==>
      (d == Allow <==> AtLeast(ActiveRole(members, workspaceId, userId), Manager) && blog.status == Draft)
    ensures blog.workspaceId == workspaceId && !AtLeast(ActiveRole(members, workspaceId, userId), Manager) ==> d == Deny(None)
    ensures blog.workspaceId == workspaceId && AtLeast(ActiveRole(members, workspaceId, userId), Manager) && blog.status != Draft ==>
      d == Deny(Some(NotDraft))
  {
    Guarded(members, workspaceId, userId, blog, Publishers, IsDraft(blog), NotDraft)
  }

  /** `unpublish`: owners and managers, on any blog that is not a draft, archived ones included. */
  function Unpublish(members: seq<Member>, workspaceId: Id, userId: Id, blog: Blog): (d: Decision)
    ensures blog.workspaceId != workspaceId ==> d == Error(WorkspaceMismatch)
    ensures blog.workspaceId == workspaceId ==>
      (d == Allow <==> AtLeast(ActiveRole(members, workspaceId, userId), Manager) && blog.status in {Published, Archived})
    ensures blog.workspaceId == workspaceId && !AtLeast(ActiveRole(members, workspaceId, userId), Manager) ==> d == Deny(None)
    ensures blog.workspaceId == workspaceId && AtLeast(ActiveRole(members, workspaceId, userId), Manager) && blog.status == Draft ==>
      d == Deny(Some(AlreadyDraft))
  {
    Guarded(members, workspaceId, userId, blog, Publishers, !IsDraft(blog), AlreadyDraft)
  }

  /** `archive`: owners and managers, on a published blog only. */
  function Archive(members: seq<Member>, workspaceId: Id, userId: Id, blog: Blog): (d: Decision)
    ensures blog.workspaceId != workspaceId ==> d == Error(WorkspaceMismatch)
    ensures blog.workspaceId == workspaceId ==>
      (d == Allow <==> AtLeast(ActiveRole(members, workspaceId, userId), Manager) && blog.status == Published)
    ensures blog.workspaceId == workspaceId && !AtLeast(ActiveRole(members, workspaceId, userId), Manager) ==> d == Deny(None)
    ensures blog.workspaceId == workspaceId && AtLeast(ActiveRole(members, workspaceId, userId), Manager) && blog.status != Published ==>
      d == Deny(Some(NotPublished))
  {
    Guarded(members, workspaceId, userId, blog, Publishers, IsPublished(blog), NotPublished)
  }

  /** An editor, or anyone without an active membership, can never publish, unpublish or archive. */
  lemma EditorsNeverChangeStatus(members: seq<Member>, workspaceId: Id, userId: Id, blog: Blog)
    requires ActiveRole(members, workspaceId, userId) in {None, Some(Editor), Some(Viewer)}
    ensures Publish(members, workspaceId, userId, blog) != Allow
    ensures Unpublish(members, workspaceId, userId, blog) != Allow
    ensures Archive(members, workspaceId, userId, blog) != Allow
  {
  }

  /** Whoever may publish may also edit; whoever may edit may also view. */
  lemma PermissionsNest(members: seq<Member>, workspaceId: Id, userId: Id, blog: Blog)
    ensures Publish(members, workspaceId, userId, blog) == Allow ==> Update(members, workspaceId, userId, blog) == Allow
    ensures Update(members, workspaceId, userId, blog) == Allow ==> View(members, workspaceId, userId, blog) == Allow
    ensures Update(members, workspaceId, userId, blog) == Delete(members, workspaceId, userId, blog)
  {
  }

  /** For one blog, at most one of publish, archive is allowed, and unpublish excludes publish. */
  lemma StatusActionsExclusive(members: seq<Member>, workspaceId: Id, userId: Id, blog: Blog)
    ensures !(Publish(members, workspaceId, userId, blog) == Allow && Archive(members, workspaceId, userId, blog) == Allow)
    ensures !(Publish(members, workspaceId, userId, blog) == Allow && Unpublish(members, workspaceId, userId, blog) == Allow)
  {
  }
}
