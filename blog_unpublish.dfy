/**
 * backend/core/app/controllers/customer/workspace/blog/unpublish_controller.ts:
 * an owner or manager turns a published or archived blog of the workspace
 * back into a draft. The blog is looked up among the workspace's own blogs
 * and the `unpublish` policy is checked before the change. `actorId` is the
 * authenticated user.
 */
module BlogUnpublish {
  import opened Wrappers
  import opened Literals
  import opened Records
  import opened Store
  import opened ParseError
  import opened WorkspaceHelper
  import opened WorkspaceModel
  import opened Authorization
  import BlogPolicy

  /** What the request does to the tables, or the error it ends with. */
  function Unpublishing(t: Tables, actorId: Id, workspaceId: Id, blogId: Id): (r: Result<Tables, Thrown>)
    ensures WorkspaceById(t.workspaces, workspaceId).None? ==> r == Err(RowNotFound)
    ensures WorkspaceById(t.workspaces, workspaceId).Some? && BlogInWorkspace(t.blogs, workspaceId, blogId).None? ==> r == Err(RowNotFound)
    ensures (WorkspaceById(t.workspaces, workspaceId).Some? && BlogInWorkspace(t.blogs, workspaceId, blogId).Some?) ==>
      (r.Err? <==> BlogPolicy.Unpublish(t.members, workspaceId, actorId, t.blogs[BlogInWorkspace(t.blogs, workspaceId, blogId).value]) != Allow) &&
      (r.Err? ==> r == Err(Authorize(BlogPolicy.Unpublish(t.members, workspaceId, actorId, t.blogs[BlogInWorkspace(t.blogs, workspaceId, blogId).value])).error))
    ensures r.Ok? ==>
      WorkspaceById(t.workspaces, workspaceId).Some? && BlogInWorkspace(t.blogs, workspaceId, blogId).Some? &&
      AtLeast(ActiveRole(t.members, workspaceId, actorId), Manager) &&
      t.blogs[BlogInWorkspace(t.blogs, workspaceId, blogId).value].status in {Published, Archived}
  {
    if WorkspaceById(t.workspaces, workspaceId).None? then Err(RowNotFound)
    else match BlogInWorkspace(t.blogs, workspaceId, blogId)
      case None => Err(RowNotFound)
      case Some(i) =>
        match Authorize(BlogPolicy.Unpublish(t.members, workspaceId, actorId, t.blogs[i]))
        case Err(refusal) => Err(refusal)
        case Ok(_) => Ok(t.(blogs := t.blogs[i := t.blogs[i].(status := Draft)]))
  }

  method Handle(s: Store, actorId: Id, workspaceId: Id, blogId: Id) returns (r: Result<Blog, Thrown>)
    modifies s
    ensures var outcome := Unpublishing(old(s.Snapshot()), actorId, workspaceId, blogId);
      (r.Ok? <==> outcome.Ok?) &&
      (r.Err? ==> r.error == outcome.error && s.Snapshot() == old(s.Snapshot())) &&
      (r.Ok? ==> s.Snapshot() == outcome.value && r.value == s.blogs[BlogInWorkspace(old(s.blogs), workspaceId, blogId).value])
    ensures s.clock == old(s.clock) && s.mails == old(s.mails) && s.expiredCaches == old(s.expiredCaches)
  {
    if WorkspaceById(s.workspaces, workspaceId).None? {
      return Err(RowNotFound);
    }
    var found := BlogInWorkspace(s.blogs, workspaceId, blogId);
    if found.None? {
      return Err(RowNotFound);
    }
    var i := found.value;
    var allowed := Authorize(BlogPolicy.Unpublish(s.members, workspaceId, actorId, s.blogs[i]));
    if allowed.Err? {
      return Err(allowed.error);
    }
    var blog := s.blogs[i].(status := Draft);
    s.blogs := s.blogs[i := blog];
    r := Ok(blog);
  }

  /** Replacing the blog at `i` changes a status count only by what the old and new blog contribute. */
  lemma {:induction false} ReplaceStatusCount(blogs: seq<Blog>, i: nat, b: Blog, workspaceId: Id, status: BlogStatus)
    requires i < |blogs|
    ensures StatusCount(blogs[i := b], workspaceId, status) + (if blogs[i].workspaceId == workspaceId && blogs[i].status == status then 1 else 0)
         == StatusCount(blogs, workspaceId, status) + (if b.workspaceId == workspaceId && b.status == status then 1 else 0)
  {
    var n := |blogs|;
    if i < n - 1 {
      ReplaceStatusCount(blogs[..n - 1], i, b, workspaceId, status);
      assert blogs[i := b][..n - 1] == blogs[..n - 1][i := b];
    } else {
      assert blogs[i := b][..n - 1] == blogs[..n - 1];
    }
  }

  /**
   * Unpublishing changes only the status of the one blog it found, from
   * published or archived to draft; title, content and author stay. The
   * workspace gains a draft and loses one blog of the old status; its blog
   * count and the other tables are unchanged.
   */
  lemma UnpublishingEffect(t: Tables, actorId: Id, workspaceId: Id, blogId: Id)
    requires Unpublishing(t, actorId, workspaceId, blogId).Ok?
    ensures var after := Unpublishing(t, actorId, workspaceId, blogId).value;
      var i := BlogInWorkspace(t.blogs, workspaceId, blogId).value;
      var was := t.blogs[i].status;
      after == t.(blogs := t.blogs[i := t.blogs[i].(status := Draft)]) &&
      was != Draft &&
      BlogCount(after.blogs, workspaceId) == BlogCount(t.blogs, workspaceId) &&
      StatusCount(after.blogs, workspaceId, Draft) == StatusCount(t.blogs, workspaceId, Draft) + 1 &&
      StatusCount(after.blogs, workspaceId, was) + 1 == StatusCount(t.blogs, workspaceId, was)
  {
    var i := BlogInWorkspace(t.blogs, workspaceId, blogId).value;
    var b := t.blogs[i].(status := Draft);
    UpdateBlogKeepsCount(t.blogs, i, b, workspaceId);
    ReplaceStatusCount(t.blogs, i, b, workspaceId, Draft);
    ReplaceStatusCount(t.blogs, i, b, workspaceId, t.blogs[i].status);
  }
}
