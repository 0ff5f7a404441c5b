/**
 * backend/core/app/controllers/customer/workspace/blog/update_controller.ts:
 * an owner, manager or editor edits a draft blog of the workspace. The blog
 * is looked up among the workspace's own blogs, authorization runs before
 * any change, and a title or content replaces the stored one only when it
 * is given and not empty. `actorId` is the authenticated user.
 */
module BlogUpdate {
  import opened Wrappers
  import opened Literals
  import opened Records
  import opened Store
  import opened ParseError
  import opened WorkspaceHelper
  import opened WorkspaceModel
  import opened Authorization
  import BlogPolicy

  /** `if (payload.x) blog.x = payload.x`: a missing or empty value keeps the current one. */
  function Given(value: Option<string>, current: string): (r: string)
    ensures value.Some? && value.value != "" ==> r == value.value
    ensures value.None? || value == Some("") ==> r == current
  {
    if value.Some? && value.value != "" then value.value else current
  }

  /** What the request does to the tables, or the error it ends with. */
  function Edit(t: Tables, actorId: Id, workspaceId: Id, blogId: Id, title: Option<string>, content: Option<string>): (r: Result<Tables, Thrown>)
    ensures WorkspaceById(t.workspaces, workspaceId).None? ==> r == Err(RowNotFound)
    ensures WorkspaceById(t.workspaces, workspaceId).Some? && BlogInWorkspace(t.blogs, workspaceId, blogId).None? ==> r == Err(RowNotFound)
    ensures (WorkspaceById(t.workspaces, workspaceId).Some? && BlogInWorkspace(t.blogs, workspaceId, blogId).Some?) ==>
      (r.Err? <==> BlogPolicy.Update(t.members, workspaceId, actorId, t.blogs[BlogInWorkspace(t.blogs, workspaceId, blogId).value]) != Allow) &&
      (r.Err? ==> r == Err(Authorize(BlogPolicy.Update(t.members, workspaceId, actorId, t.blogs[BlogInWorkspace(t.blogs, workspaceId, blogId).value])).error))
    ensures r.Ok? ==>
      WorkspaceById(t.workspaces, workspaceId).Some? && BlogInWorkspace(t.blogs, workspaceId, blogId).Some? &&
      AtLeast(ActiveRole(t.members, workspaceId, actorId), Editor) &&
      t.blogs[BlogInWorkspace(t.blogs, workspaceId, blogId).value].status == Draft
  {
    if WorkspaceById(t.workspaces, workspaceId).None? then Err(RowNotFound)
    else match BlogInWorkspace(t.blogs, workspaceId, blogId)
      case None => Err(RowNotFound)
      case Some(i) =>
        var blog := t.blogs[i];
        match Authorize(BlogPolicy.Update(t.members, workspaceId, actorId, blog))
        case Err(refusal) => Err(refusal)
        case Ok(_) => Ok(t.(blogs := t.blogs[i := blog.(title := Given(title, blog.title), content := Given(content, blog.content))]))
  }

  method Handle(s: Store, actorId: Id, workspaceId: Id, blogId: Id, title: Option<string>, content: Option<string>) returns (r: Result<Blog, Thrown>)
    modifies s
    ensures var outcome := Edit(old(s.Snapshot()), actorId, workspaceId, blogId, title, content);
      (r.Ok? <==> outcome.Ok?) &&
      (r.Err? ==> r.error == outcome.error && s.Snapshot() == old(s.Snapshot())) &&
      (r.Ok? ==> s.Snapshot() == outcome.value && r.value == s.blogs[BlogInWorkspace(old(s.blogs), workspaceId, blogId).value])
    ensures s.clock == old(s.clock) && s.mails == old(s.mails) && s.expiredCaches == old(s.expiredCaches)
  {
    if WorkspaceById(s.workspaces, workspaceId).None? {
      return Err(RowNotFound);
    }
    var found := BlogInWorkspace(s.blogs, workspaceId, blogId);
    if found.None? {
      return Err(RowNotFound);
    }
    var i := found.value;
    var blog := s.blogs[i];
    var allowed := Authorize(BlogPolicy.Update(s.members, workspaceId, actorId, blog));
    if allowed.Err? {
      return Err(allowed.error);
    }
    if title.Some? && title.value != "" {
      blog := blog.(title := title.value);
    }
    if content.Some? && content.value != "" {
      blog := blog.(content := content.value);
    }
    s.blogs := s.blogs[i := blog];
    r := Ok(blog);
  }

  /**
   * An edit changes only the one blog it found, and of that blog only the
   * title and content; it was and stays a draft. Every workspace keeps its
   * blog count, and the other tables are unchanged.
   */
  lemma EditEffect(t: Tables, actorId: Id, workspaceId: Id, blogId: Id, title: Option<string>, content: Option<string>, w: Id)
    requires Edit(t, actorId, workspaceId, blogId, title, content).Ok?
    ensures var after := Edit(t, actorId, workspaceId, blogId, title, content).value;
      var i := BlogInWorkspace(t.blogs, workspaceId, blogId).value;
      after == t.(blogs := after.blogs) && |after.blogs| == |t.blogs| &&
      (forall j :: 0 <= j < |t.blogs| && j != i ==> after.blogs[j] == t.blogs[j]) &&
      after.blogs[i] == t.blogs[i].(title := after.blogs[i].title, content := after.blogs[i].content) &&
      after.blogs[i].status == Draft &&
      after.blogs[i].title == Given(title, t.blogs[i].title) && after.blogs[i].content == Given(content, t.blogs[i].content) &&
      BlogCount(after.blogs, w) == BlogCount(t.blogs, w)
  {
    var after := Edit(t, actorId, workspaceId, blogId, title, content).value;
    var i := BlogInWorkspace(t.blogs, workspaceId, blogId).value;
    UpdateBlogKeepsCount(t.blogs, i, after.blogs[i], w);
  }

  /** A blog that is not a draft (published or archived) is never edited: the request fails and nothing changes. */
  lemma OnlyDraftsEdited(t: Tables, actorId: Id, workspaceId: Id, blogId: Id, title: Option<string>, content: Option<string>)
    requires BlogInWorkspace(t.blogs, workspaceId, blogId).Some?
    requires t.blogs[BlogInWorkspace(t.blogs, workspaceId, blogId).value].status != Draft
    ensures Edit(t, actorId, workspaceId, blogId, title, content).Err?
    ensures AtLeast(ActiveRole(t.members, workspaceId, actorId), Editor) && WorkspaceById(t.workspaces, workspaceId).Some? ==>
      Edit(t, actorId, workspaceId, blogId, title, content) == Err(AuthorizationFailure(Some(BlogPolicy.NotDraft)))
  {
  }
}
