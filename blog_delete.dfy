/**
 * backend/core/app/controllers/customer/workspace/blog/delete_controller.ts:
 * an owner, manager or editor deletes a draft blog of the workspace. The
 * blog is looked up among the workspace's own blogs and authorization runs
 * before the row is removed. `actorId` is the authenticated user.
 */
module BlogDelete {
  import opened Wrappers
  import opened Literals
  import opened Records
  import opened Store
  import opened ParseError
  import opened WorkspaceHelper
  import opened WorkspaceModel
  import opened Authorization
  import BlogPolicy

  const Deleted := "Blog deleted successfully."

  /** What the request does to the tables, or the error it ends with. */
  function Deletion(t: Tables, actorId: Id, workspaceId: Id, blogId: Id): (r: Result<Tables, Thrown>)
    ensures WorkspaceById(t.workspaces, workspaceId).None? ==> r == Err(RowNotFound)
    ensures WorkspaceById(t.workspaces, workspaceId).Some? && BlogInWorkspace(t.blogs, workspaceId, blogId).None? ==> r == Err(RowNotFound)
    ensures (WorkspaceById(t.workspaces, workspaceId).Some? && BlogInWorkspace(t.blogs, workspaceId, blogId).Some?) ==>
      (r.Err? <==> BlogPolicy.Delete(t.members, workspaceId, actorId, t.blogs[BlogInWorkspace(t.blogs, workspaceId, blogId).value]) != Allow) &&
      (r.Err? ==> r == Err(Authorize(BlogPolicy.Delete(t.members, workspaceId, actorId, t.blogs[BlogInWorkspace(t.blogs, workspaceId, blogId).value])).error))
    ensures r.Ok? ==>
      WorkspaceById(t.workspaces, workspaceId).Some? && BlogInWorkspace(t.blogs, workspaceId, blogId).Some? &&
      AtLeast(ActiveRole(t.members, workspaceId, actorId), Editor) &&
      t.blogs[BlogInWorkspace(t.blogs, workspaceId, blogId).value].status == Draft
  {
    if WorkspaceById(t.workspaces, workspaceId).None? then Err(RowNotFound)
    else match BlogInWorkspace(t.blogs, workspaceId, blogId)
      case None => Err(RowNotFound)
      case Some(i) =>
        match Authorize(BlogPolicy.Delete(t.members, workspaceId, actorId, t.blogs[i]))
        case Err(refusal) => Err(refusal)
        case Ok(_) => Ok(t.(blogs := RemoveAt(t.blogs, i)))
  }

  method Handle(s: Store, actorId: Id, workspaceId: Id, blogId: Id) returns (r: Result<string, Thrown>)
    modifies s
    ensures var outcome := Deletion(old(s.Snapshot()), actorId, workspaceId, blogId);
      (r.Ok? <==> outcome.Ok?) &&
      (r.Err? ==> r.error == outcome.error && s.Snapshot() == old(s.Snapshot())) &&
      (r.Ok? ==> s.Snapshot() == outcome.value && r.value == Deleted)
    ensures s.clock == old(s.clock) && s.mails == old(s.mails) && s.expiredCaches == old(s.expiredCaches)
  {
    if WorkspaceById(s.workspaces, workspaceId).None? {
      return Err(RowNotFound);
    }
    var found := BlogInWorkspace(s.blogs, workspaceId, blogId);
    if found.None? {
      return Err(RowNotFound);
    }
    var allowed := Authorize(BlogPolicy.Delete(s.members, workspaceId, actorId, s.blogs[found.value]));
    if allowed.Err? {
      return Err(allowed.error);
    }
    s.blogs := RemoveAt(s.blogs, found.value);
    r := Ok(Deleted);
  }

  /**
   * A deletion removes exactly the draft it found and nothing else: the
   * remaining blogs plus that one are the blogs before. The workspace has
   * one blog fewer and one draft fewer, its published and archived counts
   * are unchanged, and the other tables are unchanged.
   */
  lemma DeletionEffect(t: Tables, actorId: Id, workspaceId: Id, blogId: Id)
    requires Deletion(t, actorId, workspaceId, blogId).Ok?
    ensures var after := Deletion(t, actorId, workspaceId, blogId).value;
      var gone := t.blogs[BlogInWorkspace(t.blogs, workspaceId, blogId).value];
      after == t.(blogs := after.blogs) &&
      gone.id == blogId && gone.workspaceId == workspaceId && gone.status == Draft &&
      multiset(after.blogs) + multiset{gone} == multiset(t.blogs) &&
      BlogCount(after.blogs, workspaceId) + 1 == BlogCount(t.blogs, workspaceId) &&
      StatusCount(after.blogs, workspaceId, Draft) + 1 == StatusCount(t.blogs, workspaceId, Draft) &&
      StatusCount(after.blogs, workspaceId, Published) == StatusCount(t.blogs, workspaceId, Published) &&
      StatusCount(after.blogs, workspaceId, Archived) == StatusCount(t.blogs, workspaceId, Archived)
  {
    var i := BlogInWorkspace(t.blogs, workspaceId, blogId).value;
    RemoveAtMultiset(t.blogs, i);
    RemoveBlogCount(t.blogs, i, workspaceId);
    RemoveStatusCount(t.blogs, i, workspaceId, Draft);
    RemoveStatusCount(t.blogs, i, workspaceId, Published);
    RemoveStatusCount(t.blogs, i, workspaceId, Archived);
  }
}
