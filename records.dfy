/**
 * The stored rows of the backend (the models under backend/core/app/models) and the pure
 * predicates the models define on them: the blog status getters of
 * backend/core/app/models/blog.ts and `isExpired` of
 * backend/core/app/models/token.ts.
 */
module Records {
  import opened Wrappers
  import opened Literals

  /** Primary keys: ULIDs and auto-increment ids are both modelled as fresh naturals. */
  type Id = nat

  /** Instants, in milliseconds. */
  type Time = int

  /** The value a hash function produces; it is never a secret itself. */
  datatype Digest = Digest(bits: nat)

  datatype User = User(
    id: Id,
    name: string,
    role: Role,
    email: string,
    password: Option<Digest>,
    verifiedAt: Option<Time>)

  datatype Workspace = Workspace(id: Id, name: string)

  datatype Member = Member(
    id: Id,
    userId: Id,
    workspaceId: Id,
    role: MemberRole,
    joinedAt: Option<Time>,
    leftAt: Option<Time>)

  datatype Blog = Blog(
    id: Id,
    workspaceId: Id,
    authorId: Id,
    title: string,
    content: string,
    status: BlogStatus)

  datatype Token = Token(
    id: Id,
    tokenableId: Id,
    tokenType: TokenType,
    name: Option<string>,
    hash: Digest,
    abilities: string,
    createdAt: Time,
    lastUsedAt: Option<Time>,
    expiresAt: Option<Time>)

  // ----- Blog status getters -----

  predicate IsDraft(b: Blog)
  {
    BlogStatusName(b.status) == "draft"
  }

  predicate IsPublished(b: Blog)
  {
    BlogStatusName(b.status) == "published"
  }

  predicate IsArchived(b: Blog)
  {
    BlogStatusName(b.status) == "archived"
  }

  /** Each getter holds exactly for its own status, so exactly one of them holds. */
  lemma ExactlyOneStatus(b: Blog)
    ensures IsDraft(b) <==> b.status == Draft
    ensures IsPublished(b) <==> b.status == Published
    ensures IsArchived(b) <==> b.status == Archived
    ensures (if IsDraft(b) then 1 else 0) + (if IsPublished(b) then 1 else 0) + (if IsArchived(b) then 1 else 0) == 1
  {
  }

  // ----- Token expiry -----

  /** Expired: an expiry is set and lies strictly before `now`. */
  predicate IsExpired(t: Token, now: Time)
  {
    match t.expiresAt
    case Some(at) => at < now
    case None => false
  }

  /** A token without expiry never expires, and one expiring exactly now is not yet expired. */
  lemma ExpiryBoundary(t: Token, now: Time)
    ensures t.expiresAt.None? ==> !IsExpired(t, now)
    ensures t.expiresAt == Some(now) ==> !IsExpired(t, now)
    ensures IsExpired(t, now) <==> t.expiresAt.Some? && t.expiresAt.value < now
  {
  }

  /** Once expired, a token stays expired as the clock advances. */
  lemma ExpiryIsPermanent(t: Token, now: Time, later: Time)
    requires IsExpired(t, now) && now <= later
    ensures IsExpired(t, later)
  {
  }
}
