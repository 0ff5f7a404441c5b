/**
 * The database the controllers work on: one table per model, a clock, and
 * the two side channels the core writes to (queued mails and expired
 * active-member caches). Hashing is a pair of functions fixed when the store
 * is made; nothing is assumed about them beyond being functions.
 */
module Store {
  import opened Wrappers
  import opened Literals
  import opened Records

  /** A queued mail: the kind of token it carries, the recipient, and the token value. */
  datatype Mail = Mail(kind: TokenType, userId: Id, tokenValue: string)

  /** The tables, as a transaction sees them; a rollback restores them. */
  datatype Tables = Tables(
    users: seq<User>,
    workspaces: seq<Workspace>,
    members: seq<Member>,
    blogs: seq<Blog>,
    tokens: seq<Token>,
    nextId: nat)

  /** The unique (user, workspace) constraint of the membership table. */
  predicate UniqueMembership(members: seq<Member>)
  {
    forall i, j :: 0 <= i < j < |members| ==>
      !(members[i].userId == members[j].userId && members[i].workspaceId == members[j].workspaceId)
  }

  /** No workspace has two owner rows. */
  predicate AtMostOneOwner(members: seq<Member>)
  {
    forall i, j :: 0 <= i < j < |members| && members[i].workspaceId == members[j].workspaceId ==>
      !(members[i].role == Owner && members[j].role == Owner)
  }

  /** Every id in use, and every id a membership refers to, is below `nextId`. */
  predicate IdsBelow(t: Tables)
  {
    (forall i :: 0 <= i < |t.users| ==> t.users[i].id < t.nextId) &&
    (forall i :: 0 <= i < |t.workspaces| ==> t.workspaces[i].id < t.nextId) &&
    (forall i :: 0 <= i < |t.members| ==>
      t.members[i].id < t.nextId && t.members[i].userId < t.nextId && t.members[i].workspaceId < t.nextId) &&
    (forall i :: 0 <= i < |t.blogs| ==> t.blogs[i].id < t.nextId) &&
    (forall i :: 0 <= i < |t.tokens| ==> t.tokens[i].id < t.nextId)
  }

  predicate TablesValid(t: Tables)
  {
    IdsBelow(t) && UniqueMembership(t.members) && AtMostOneOwner(t.members)
  }

  // ----- Lookups (the `first()` of a query: the first stored row that matches) -----

  function UserById(users: seq<User>, id: Id): (r: Option<nat>)
    ensures r.Some? ==> r.value < |users| && users[r.value].id == id
    ensures r.None? ==> forall i :: 0 <= i < |users| ==> users[i].id != id
    ensures r.Some? ==> forall i :: 0 <= i < r.value ==> users[i].id != id
  {
    if users == [] then None
    else if users[0].id == id then Some(0)
    else match UserById(users[1..], id)
      case None => None
      case Some(k) => Some(k + 1)
  }

  function UserByEmail(users: seq<User>, email: string): (r: Option<nat>)
    ensures r.Some? ==> r.value < |users| && users[r.value].email == email
    ensures r.None? ==> forall i :: 0 <= i < |users| ==> users[i].email != email
    ensures r.Some? ==> forall i :: 0 <= i < r.value ==> users[i].email != email
  {
    if users == [] then None
    else if users[0].email == email then Some(0)
    else match UserByEmail(users[1..], email)
      case None => None
      case Some(k) => Some(k + 1)
  }

  function WorkspaceById(workspaces: seq<Workspace>, id: Id): (r: Option<nat>)
    ensures r.Some? ==> r.value < |workspaces| && workspaces[r.value].id == id
    ensures r.None? ==> forall i :: 0 <= i < |workspaces| ==> workspaces[i].id != id
  {
    if workspaces == [] then None
    else if workspaces[0].id == id then Some(0)
    else match WorkspaceById(workspaces[1..], id)
      case None => None
      case Some(k) => Some(k + 1)
  }

  /** The first membership row of the user in the workspace, active or not. */
  function MemberRow(members: seq<Member>, workspaceId: Id, userId: Id): (r: Option<nat>)
    ensures r.Some? ==> r.value < |members| && members[r.value].workspaceId == workspaceId && members[r.value].userId == userId
    ensures r.None? ==> forall i :: 0 <= i < |members| ==> !(members[i].workspaceId == workspaceId && members[i].userId == userId)
  {
    if members == [] then None
    else if members[0].workspaceId == workspaceId && members[0].userId == userId then Some(0)
    else match MemberRow(members[1..], workspaceId, userId)
      case None => None
      case Some(k) => Some(k + 1)
  }

  /** The first active row of the user in the workspace (`activeMemberQuery` narrowed to the user, then `first`). */
  function ActiveRow(members: seq<Member>, workspaceId: Id, userId: Id): (r: Option<nat>)
    ensures r.Some? ==> r.value < |members| && members[r.value].workspaceId == workspaceId && members[r.value].userId == userId
    ensures r.Some? ==> members[r.value].joinedAt.Some? && members[r.value].leftAt.None?
    ensures r.Some? ==> forall i :: 0 <= i < r.value && members[i].workspaceId == workspaceId && members[i].userId == userId ==>
      members[i].joinedAt.None? || members[i].leftAt.Some?
    ensures r.None? ==> forall i :: 0 <= i < |members| && members[i].workspaceId == workspaceId && members[i].userId == userId ==>
      members[i].joinedAt.None? || members[i].leftAt.Some?
  {
    if members == [] then None
    else if members[0].workspaceId == workspaceId && members[0].userId == userId && members[0].joinedAt.Some? && members[0].leftAt.None? then Some(0)
    else match ActiveRow(members[1..], workspaceId, userId)
      case None => None
      case Some(k) => Some(k + 1)
  }

  /** The first blog with this id among the workspace's blogs. */
  function BlogInWorkspace(blogs: seq<Blog>, workspaceId: Id, blogId: Id): (r: Option<nat>)
    ensures r.Some? ==> r.value < |blogs| && blogs[r.value].workspaceId == workspaceId && blogs[r.value].id == blogId
    ensures r.None? ==> forall i :: 0 <= i < |blogs| ==> !(blogs[i].workspaceId == workspaceId && blogs[i].id == blogId)
  {
    if blogs == [] then None
    else if blogs[0].workspaceId == workspaceId && blogs[0].id == blogId then Some(0)
    else match BlogInWorkspace(blogs[1..], workspaceId, blogId)
      case None => None
      case Some(k) => Some(k + 1)
  }

  function RemoveAt<T>(s: seq<T>, i: nat): (r: seq<T>)
    requires i < |s|
    ensures |r| == |s| - 1
    ensures forall j :: 0 <= j < i ==> r[j] == s[j]
    ensures forall j :: i <= j < |r| ==> r[j] == s[j + 1]
  {
    s[..i] + s[i + 1..]
  }

  /** Removing one element takes exactly that element out of the multiset. */
  lemma RemoveAtMultiset<T>(s: seq<T>, i: nat)
    requires i < |s|
    ensures multiset(RemoveAt(s, i)) + multiset{s[i]} == multiset(s)
  {
    assert s == s[..i] + [s[i]] + s[i + 1..];
  }

  /** Removing one element keeps every other element, and adds none. */
  lemma RemoveAtMembers<T>(s: seq<T>, i: nat, x: T)
    requires i < |s|
    ensures x in RemoveAt(s, i) ==> x in s
    ensures x in s && x != s[i] ==> x in RemoveAt(s, i)
  {
    var r := RemoveAt(s, i);
    if x in r {
      var m :| 0 <= m < |r| && r[m] == x;
      assert s[if m < i then m else m + 1] == x;
    }
    if x in s && x != s[i] {
      var m :| 0 <= m < |s| && s[m] == x;
      assert r[if m < i then m else m - 1] == x;
    }
  }

  /** Under the unique constraint, the first row of (user, workspace) is the only one. */
  lemma MemberRowIsOnly(members: seq<Member>, workspaceId: Id, userId: Id, i: nat)
    requires UniqueMembership(members)
    requires i < |members| && members[i].workspaceId == workspaceId && members[i].userId == userId
    ensures MemberRow(members, workspaceId, userId) == Some(i)
  {
  }

  /** A row for a workspace newer than every stored row is that workspace's only row. */
  lemma OnlyRowOfFreshWorkspace(members: seq<Member>, m: Member)
    requires forall i :: 0 <= i < |members| ==> members[i].workspaceId < m.workspaceId
    ensures forall x :: x in members + [m] && x.workspaceId == m.workspaceId ==> x == m
  {
    forall x | x in members + [m] && x.workspaceId == m.workspaceId
      ensures x == m
    {
      var i :| 0 <= i < |members + [m]| && (members + [m])[i] == x;
      assert i == |members|;
    }
  }

  class Store {
    var users: seq<User>
    var workspaces: seq<Workspace>
    var members: seq<Member>
    var blogs: seq<Blog>
    var tokens: seq<Token>
    var nextId: nat
    /** `DateTime.now()`. */
    var clock: Time
    /** Workspaces whose active-member cache was expired, in order. */
    var expiredCaches: seq<Id>
    var mails: seq<Mail>
    /** The hash the access-token library stores for a secret. */
    const tokenHash: string -> Digest
    /** The hash the user model stores for a password. */
    const passwordHash: string -> Digest

    constructor (tokenHash: string -> Digest, passwordHash: string -> Digest, clock: Time)
      ensures Snapshot() == Tables([], [], [], [], [], 0) && Valid()
      ensures this.tokenHash == tokenHash && this.passwordHash == passwordHash && this.clock == clock
      ensures expiredCaches == [] && mails == []
    {
      this.tokenHash := tokenHash;
      this.passwordHash := passwordHash;
      this.clock := clock;
      users, workspaces, members, blogs, tokens, nextId := [], [], [], [], [], 0;
      expiredCaches, mails := [], [];
    }

    function Snapshot(): Tables
      reads this
    {
      Tables(users, workspaces, members, blogs, tokens, nextId)
    }

    predicate Valid()
      reads this
    {
      TablesValid(Snapshot())
    }

    /** A rollback: the tables return to `t`; the clock, mails and caches are not tables. */
    method Restore(t: Tables)
      modifies this
      ensures Snapshot() == t
      ensures clock == old(clock) && mails == old(mails) && expiredCaches == old(expiredCaches)
    {
      users, workspaces, members, blogs, tokens, nextId := t.users, t.workspaces, t.members, t.blogs, t.tokens, t.nextId;
    }

    /** A fresh primary key. */
    method NewId() returns (id: Id)
      modifies this
      ensures id == old(nextId) && nextId == old(nextId) + 1
      ensures users == old(users) && workspaces == old(workspaces) && members == old(members)
      ensures blogs == old(blogs) && tokens == old(tokens)
      ensures clock == old(clock) && mails == old(mails) && expiredCaches == old(expiredCaches)
    {
      id := nextId;
      nextId := nextId + 1;
    }

    /** `cacher.getActiveMembers({ workspace }).expire()`. */
    method ExpireActiveMembers(workspaceId: Id)
      modifies this
      ensures expiredCaches == old(expiredCaches) + [workspaceId]
      ensures Snapshot() == old(Snapshot()) && clock == old(clock) && mails == old(mails)
    {
      expiredCaches := expiredCaches + [workspaceId];
    }

    /** `mail.sendLater`. */
    method QueueMail(m: Mail)
      modifies this
      ensures mails == old(mails) + [m]
      ensures Snapshot() == old(Snapshot()) && clock == old(clock) && expiredCaches == old(expiredCaches)
    {
      mails := mails + [m];
    }
  }
}
