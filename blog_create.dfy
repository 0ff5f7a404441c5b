/**
 * backend/core/app/controllers/customer/workspace/blog/create_controller.ts:
 * an owner, manager or editor writes a new draft blog in the workspace,
 * under the cap on the workspace's blogs. The author is the creator's
 * membership row. `actorId` is the authenticated user; title and content
 * are taken as already validated.
 */
module BlogCreate {
  import opened Wrappers
  import opened Literals
  import opened Records
  import opened Settings
  import opened Store
  import opened HttpException
  import opened ParseError
  import opened WorkspaceHelper
  import opened WorkspaceModel
  import opened Authorization
  import BlogPolicy

  const AtMaximum := "You have reached the maximum number of blogs for this workspace."

  /** What the request does to the tables, or the error it ends with. */
  function Creation(t: Tables, settings: Settings, actorId: Id, workspaceId: Id, title: string, content: string): (r: Result<Tables, Thrown>)
    ensures WorkspaceById(t.workspaces, workspaceId).None? ==> r == Err(RowNotFound)
    ensures (WorkspaceById(t.workspaces, workspaceId).Some? && !AtLeast(ActiveRole(t.members, workspaceId, actorId), Editor)) ==>
      r == Err(AuthorizationFailure(None))
    ensures (WorkspaceById(t.workspaces, workspaceId).Some? && AtLeast(ActiveRole(t.members, workspaceId, actorId), Editor)) ==>
      (r == Err(Http(Forbidden(AtMaximum))) <==> BlogCount(t.blogs, workspaceId) >= settings.blogMax)
    ensures r.Ok? ==>
      WorkspaceById(t.workspaces, workspaceId).Some? && AtLeast(ActiveRole(t.members, workspaceId, actorId), Editor) &&
      BlogCount(t.blogs, workspaceId) < settings.blogMax && GetMember(t.members, workspaceId, actorId).Some?
  {
    if WorkspaceById(t.workspaces, workspaceId).None? then Err(RowNotFound)
    else match Authorize(BlogPolicy.Create(t.members, workspaceId, actorId))
      case Err(refusal) => Err(refusal)
      case Ok(_) =>
        if BlogCount(t.blogs, workspaceId) >= settings.blogMax then Err(Http(Forbidden(AtMaximum)))
        else match GetMemberOrFail(t.members, workspaceId, actorId)
          case Err(e) => Err(Http(e))
          case Ok(member) =>
            Ok(t.(blogs := t.blogs + [Blog(t.nextId, workspaceId, member.id, title, content, Draft)], nextId := t.nextId + 1))
  }

  method Handle(s: Store, settings: Settings, actorId: Id, workspaceId: Id, title: string, content: string) returns (r: Result<Blog, Thrown>)
    modifies s
    ensures var outcome := Creation(old(s.Snapshot()), settings, actorId, workspaceId, title, content);
      (r.Ok? <==> outcome.Ok?) &&
      (r.Err? ==> r.error == outcome.error && s.Snapshot() == old(s.Snapshot())) &&
      (r.Ok? ==> s.Snapshot() == outcome.value && r.value == s.blogs[|s.blogs| - 1])
    ensures s.clock == old(s.clock) && s.mails == old(s.mails) && s.expiredCaches == old(s.expiredCaches)
  {
    if WorkspaceById(s.workspaces, workspaceId).None? {
      return Err(RowNotFound);
    }
    var allowed := Authorize(BlogPolicy.Create(s.members, workspaceId, actorId));
    if allowed.Err? {
      return Err(allowed.error);
    }
    if BlogCount(s.blogs, workspaceId) >= settings.blogMax {
      return Err(Http(Forbidden(AtMaximum)));
    }
    var member := GetMemberOrFail(s.members, workspaceId, actorId);
    if member.Err? {
      // The `create` policy admits only active members, so `getMemberOrFail` finds one.
      assert false;
    }
    var id := s.NewId();
    var blog := Blog(id, workspaceId, member.value.id, title, content, Draft);
    s.blogs := s.blogs + [blog];
    r := Ok(blog);
  }

  /**
   * A created blog is a draft of the workspace, written as given, whose
   * author is the creator's active membership row; the workspace's blog
   * count grows by one and stays within the cap, the draft count grows by
   * one and the other statuses are unchanged. Only the blogs change, and
   * the store's constraints are kept.
   */
  lemma CreationEffect(t: Tables, settings: Settings, actorId: Id, workspaceId: Id, title: string, content: string)
    requires TablesValid(t)
    requires Creation(t, settings, actorId, workspaceId, title, content).Ok?
    ensures var after := Creation(t, settings, actorId, workspaceId, title, content).value;
      after.blogs == t.blogs + [Blog(t.nextId, workspaceId, GetMember(t.members, workspaceId, actorId).value.id, title, content, Draft)] &&
      after == t.(blogs := after.blogs, nextId := t.nextId + 1) &&
      BlogCount(after.blogs, workspaceId) == BlogCount(t.blogs, workspaceId) + 1 <= settings.blogMax &&
      StatusCount(after.blogs, workspaceId, Draft) == StatusCount(t.blogs, workspaceId, Draft) + 1 &&
      StatusCount(after.blogs, workspaceId, Published) == StatusCount(t.blogs, workspaceId, Published) &&
      StatusCount(after.blogs, workspaceId, Archived) == StatusCount(t.blogs, workspaceId, Archived) &&
      TablesValid(after)
  {
    var blog := Blog(t.nextId, workspaceId, GetMember(t.members, workspaceId, actorId).value.id, title, content, Draft);
    var after := t.(blogs := t.blogs + [blog], nextId := t.nextId + 1);
    assert Creation(t, settings, actorId, workspaceId, title, content).value == after;
    AddedDraftCounts(t.blogs, blog);
    AddedBlogValid(t, blog);
  }

  /** Appending a draft adds one to its workspace's blog and draft counts and to nothing else. */
  lemma AddedDraftCounts(blogs: seq<Blog>, blog: Blog)
    requires blog.status == Draft
    ensures BlogCount(blogs + [blog], blog.workspaceId) == BlogCount(blogs, blog.workspaceId) + 1
    ensures StatusCount(blogs + [blog], blog.workspaceId, Draft) == StatusCount(blogs, blog.workspaceId, Draft) + 1
    ensures StatusCount(blogs + [blog], blog.workspaceId, Published) == StatusCount(blogs, blog.workspaceId, Published)
    ensures StatusCount(blogs + [blog], blog.workspaceId, Archived) == StatusCount(blogs, blog.workspaceId, Archived)
  {
    assert (blogs + [blog])[..|blogs|] == blogs;
  }

  /** Appending a blog with a fresh id and advancing `nextId` keeps the constraints. */
  lemma AddedBlogValid(t: Tables, blog: Blog)
    requires TablesValid(t) && blog.id == t.nextId
    ensures TablesValid(t.(blogs := t.blogs + [blog], nextId := t.nextId + 1))
  {
  }
}
