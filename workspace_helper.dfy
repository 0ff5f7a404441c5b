/**
 * backend/core/app/helper/workspace.ts: the active-member filter and the blog
 * counts of one workspace, over the stored rows.
 */
module WorkspaceHelper {
  import opened Literals
  import opened Records

  /** An active row: joined and not left. */
  predicate IsActive(m: Member)
  {
    m.joinedAt.Some? && m.leftAt.None?
  }

  /** `activeMemberQuery`: the workspace's rows with `joinedAt` set and `leftAt` null. */
  predicate ActiveIn(m: Member, workspaceId: Id)
  {
    m.workspaceId == workspaceId && IsActive(m)
  }

  /** The rows of `activeMemberQuery`, in stored order. */
  function ActiveMembers(members: seq<Member>, workspaceId: Id): (r: seq<Member>)
    ensures forall m :: m in r <==> m in members && ActiveIn(m, workspaceId)
    ensures |r| <= |members|
  {
    if members == [] then []
    else (if ActiveIn(members[0], workspaceId) then [members[0]] else []) + ActiveMembers(members[1..], workspaceId)
  }

  /** The number of the workspace's blogs with the given status. */
  function StatusCount(blogs: seq<Blog>, workspaceId: Id, status: BlogStatus): (n: nat)
    ensures n <= |blogs|
  {
    if blogs == [] then 0
    else
      var last := blogs[|blogs| - 1];
      assert blogs == blogs[..|blogs| - 1] + [last];
      StatusCount(blogs[..|blogs| - 1], workspaceId, status) + (if last.workspaceId == workspaceId && last.status == status then 1 else 0)
  }

  /** `getPublishedBlogCount`; 0 when the workspace has no published blog. */
  function PublishedBlogCount(blogs: seq<Blog>, workspaceId: Id): nat
  {
    StatusCount(blogs, workspaceId, Published)
  }

  /** `getBlogCount`: the workspace's blogs, whatever their status. */
  function BlogCount(blogs: seq<Blog>, workspaceId: Id): (n: nat)
    ensures n <= |blogs|
  {
    if blogs == [] then 0
    else
      var last := blogs[|blogs| - 1];
      assert blogs == blogs[..|blogs| - 1] + [last];
      BlogCount(blogs[..|blogs| - 1], workspaceId) + (if last.workspaceId == workspaceId then 1 else 0)
  }

  /** A status count is 0 exactly when the workspace has no blog with that status. */
  lemma {:induction false} StatusCountZero(blogs: seq<Blog>, workspaceId: Id, status: BlogStatus)
    ensures StatusCount(blogs, workspaceId, status) == 0 <==>
      forall i :: 0 <= i < |blogs| ==> !(blogs[i].workspaceId == workspaceId && blogs[i].status == status)
  {
    if blogs != [] {
      StatusCountZero(blogs[..|blogs| - 1], workspaceId, status);
    }
  }

  /** The published count is 0 exactly when no blog of the workspace is published. */
  lemma PublishedCountZero(blogs: seq<Blog>, workspaceId: Id)
    ensures PublishedBlogCount(blogs, workspaceId) == 0 <==>
      forall i :: 0 <= i < |blogs| && blogs[i].workspaceId == workspaceId ==> !IsPublished(blogs[i])
  {
    StatusCountZero(blogs, workspaceId, Published);
  }

  /** The blog count is 0 exactly when the workspace has no blog. */
  lemma {:induction false} BlogCountZero(blogs: seq<Blog>, workspaceId: Id)
    ensures BlogCount(blogs, workspaceId) == 0 <==> forall i :: 0 <= i < |blogs| ==> blogs[i].workspaceId != workspaceId
  {
    if blogs != [] {
      BlogCountZero(blogs[..|blogs| - 1], workspaceId);
    }
  }

  /** The blog count counts drafts, published and archived blogs alike. */
  lemma {:induction false} BlogCountSumsStatuses(blogs: seq<Blog>, workspaceId: Id)
    ensures BlogCount(blogs, workspaceId) ==
      StatusCount(blogs, workspaceId, Draft) + StatusCount(blogs, workspaceId, Published) + StatusCount(blogs, workspaceId, Archived)
  {
    if blogs != [] {
      BlogCountSumsStatuses(blogs[..|blogs| - 1], workspaceId);
    }
  }

  /** The published count never exceeds the blog count. */
  lemma PublishedAtMostBlogCount(blogs: seq<Blog>, workspaceId: Id)
    ensures PublishedBlogCount(blogs, workspaceId) <= BlogCount(blogs, workspaceId)
  {
    BlogCountSumsStatuses(blogs, workspaceId);
  }

  /** Removing the blog at `i` lowers its workspace's blog count by one and leaves the others alone. */
  lemma {:induction false} RemoveBlogCount(blogs: seq<Blog>, i: nat, workspaceId: Id)
    requires i < |blogs|
    ensures BlogCount(blogs, workspaceId) == BlogCount(blogs[..i] + blogs[i + 1..], workspaceId) + (if blogs[i].workspaceId == workspaceId then 1 else 0)
  {
    var rest := blogs[..i] + blogs[i + 1..];
    var n := |blogs|;
    if i < n - 1 {
      var init := blogs[..n - 1];
      RemoveBlogCount(init, i, workspaceId);
      assert rest[..|rest| - 1] == init[..i] + init[i + 1..];
      assert rest[|rest| - 1] == blogs[n - 1];
      assert BlogCount(rest, workspaceId) == BlogCount(rest[..|rest| - 1], workspaceId) + (if blogs[n - 1].workspaceId == workspaceId then 1 else 0);
    } else {
      assert rest == blogs[..n - 1];
    }
  }

  /** Removing the blog at `i` lowers the count of its own status in its own workspace by one, and no other. */
  lemma {:induction false} RemoveStatusCount(blogs: seq<Blog>, i: nat, workspaceId: Id, status: BlogStatus)
    requires i < |blogs|
    ensures StatusCount(blogs, workspaceId, status) == StatusCount(blogs[..i] + blogs[i + 1..], workspaceId, status) + (if blogs[i].workspaceId == workspaceId && blogs[i].status == status then 1 else 0)
  {
    var rest := blogs[..i] + blogs[i + 1..];
    var n := |blogs|;
    if i < n - 1 {
      var init := blogs[..n - 1];
      RemoveStatusCount(init, i, workspaceId, status);
      assert rest[..|rest| - 1] == init[..i] + init[i + 1..];
      assert rest[|rest| - 1] == blogs[n - 1];
      assert StatusCount(rest, workspaceId, status) == StatusCount(rest[..|rest| - 1], workspaceId, status) + (if blogs[n - 1].workspaceId == workspaceId && blogs[n - 1].status == status then 1 else 0);
    } else {
      assert rest == blogs[..n - 1];
    }
  }

  /** Replacing the blog at `i` by one with the same workspace keeps the blog count. */
  lemma {:induction false} UpdateBlogKeepsCount(blogs: seq<Blog>, i: nat, b: Blog, workspaceId: Id)
    requires i < |blogs| && b.workspaceId == blogs[i].workspaceId
    ensures BlogCount(blogs[i := b], workspaceId) == BlogCount(blogs, workspaceId)
  {
    if i < |blogs| - 1 {
      UpdateBlogKeepsCount(blogs[..|blogs| - 1], i, b, workspaceId);
      assert blogs[i := b][..|blogs| - 1] == blogs[..|blogs| - 1][i := b];
    } else {
      assert blogs[i := b][..|blogs| - 1] == blogs[..|blogs| - 1];
    }
  }
}
