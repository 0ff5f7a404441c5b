/**
 * The closed value sets of backend/core/types/literals.ts: each constant list,
 * the closed datatype that stands for it in the rest of the model, the
 * conversions between the two, and the `*E` guard built with `oneOf`.
 */
module Literals {
  import opened Wrappers
  import OneOf

  // ----- direction -----

  datatype Direction = Asc | Desc

  const DirectionC: seq<string> := ["asc", "desc"]

  function DirectionName(d: Direction): (s: string)
    ensures s in DirectionC
  {
    match d
    case Asc => "asc"
    case Desc => "desc"
  }

  function ParseDirection(s: string): (r: Option<Direction>)
    ensures r.Some? <==> s in DirectionC
    ensures r.Some? ==> DirectionName(r.value) == s
  {
    if s == "asc" then Some(Asc) else if s == "desc" then Some(Desc) else None
  }

  function DirectionE(s: string): (r: Result<string, string>)
    ensures r.Ok? <==> s == "asc" || s == "desc"
    ensures r.Ok? ==> r.value == s
  {
    OneOf.Check(DirectionC, s)
  }

  // ----- token type -----

  datatype TokenType = Access | EmailVerification | PasswordReset

  const TokenTypeC: seq<string> := ["access", "email_verification", "password_reset"]

  function TokenTypeName(t: TokenType): (s: string)
    ensures s in TokenTypeC
  {
    match t
    case Access => "access"
    case EmailVerification => "email_verification"
    case PasswordReset => "password_reset"
  }

  function ParseTokenType(s: string): (r: Option<TokenType>)
    ensures r.Some? <==> s in TokenTypeC
    ensures r.Some? ==> TokenTypeName(r.value) == s
  {
    if s == "access" then Some(Access)
    else if s == "email_verification" then Some(EmailVerification)
    else if s == "password_reset" then Some(PasswordReset)
    else None
  }

  function TokenTypeE(s: string): (r: Result<string, string>)
    ensures r.Ok? <==> s == "access" || s == "email_verification" || s == "password_reset"
    ensures r.Ok? ==> r.value == s
  {
    OneOf.Check(TokenTypeC, s)
  }

  // ----- credential type -----

  datatype CredentialType = Email

  const CredentialTypeC: seq<string> := ["email"]

  function CredentialTypeName(t: CredentialType): (s: string)
    ensures s in CredentialTypeC
  {
    "email"
  }

  function ParseCredentialType(s: string): (r: Option<CredentialType>)
    ensures r.Some? <==> s in CredentialTypeC
    ensures r.Some? ==> CredentialTypeName(r.value) == s
  {
    if s == "email" then Some(Email) else None
  }

  function CredentialTypeE(s: string): (r: Result<string, string>)
    ensures r.Ok? <==> s == "email"
    ensures r.Ok? ==> r.value == s
  {
    OneOf.Check(CredentialTypeC, s)
  }

  // ----- credential status -----

  datatype CredentialStatus = Active | Bounced | Complained

  const CredentialStatusC: seq<string> := ["active", "bounced", "complained"]

  function CredentialStatusName(c: CredentialStatus): (s: string)
    ensures s in CredentialStatusC
  {
    match c
    case Active => "active"
    case Bounced => "bounced"
    case Complained => "complained"
  }

  function ParseCredentialStatus(s: string): (r: Option<CredentialStatus>)
    ensures r.Some? <==> s in CredentialStatusC
    ensures r.Some? ==> CredentialStatusName(r.value) == s
  {
    if s == "active" then Some(Active)
    else if s == "bounced" then Some(Bounced)
    else if s == "complained" then Some(Complained)
    else None
  }

  function CredentialStatusE(s: string): (r: Result<string, string>)
    ensures r.Ok? <==> s == "active" || s == "bounced" || s == "complained"
    ensures r.Ok? ==> r.value == s
  {
    OneOf.Check(CredentialStatusC, s)
  }

  // ----- user role -----

  datatype Role = Admin | Customer

  const RoleC: seq<string> := ["admin", "customer"]

  function RoleName(r: Role): (s: string)
    ensures s in RoleC
  {
    match r
    case Admin => "admin"
    case Customer => "customer"
  }

  function ParseRole(s: string): (r: Option<Role>)
    ensures r.Some? <==> s in RoleC
    ensures r.Some? ==> RoleName(r.value) == s
  {
    if s == "admin" then Some(Admin) else if s == "customer" then Some(Customer) else None
  }

  function RoleE(s: string): (r: Result<string, string>)
    ensures r.Ok? <==> s == "admin" || s == "customer"
    ensures r.Ok? ==> r.value == s
  {
    OneOf.Check(RoleC, s)
  }

  // ----- workspace member role -----

  datatype MemberRole = Owner | Editor | Manager | Viewer

  /** Listed in this order in the source: owner, editor, manager, viewer. */
  const WorkspaceMemberRoleC: seq<string> := ["owner", "editor", "manager", "viewer"]

  function MemberRoleName(r: MemberRole): (s: string)
    ensures s in WorkspaceMemberRoleC
  {
    match r
    case Owner => "owner"
    case Editor => "editor"
    case Manager => "manager"
    case Viewer => "viewer"
  }

  function ParseMemberRole(s: string): (r: Option<MemberRole>)
    ensures r.Some? <==> s in WorkspaceMemberRoleC
    ensures r.Some? ==> MemberRoleName(r.value) == s
  {
    if s == "owner" then Some(Owner)
    else if s == "editor" then Some(Editor)
    else if s == "manager" then Some(Manager)
    else if s == "viewer" then Some(Viewer)
    else None
  }

  function WorkspaceMemberRoleE(s: string): (r: Result<string, string>)
    ensures r.Ok? <==> s == "owner" || s == "editor" || s == "manager" || s == "viewer"
    ensures r.Ok? ==> r.value == s
  {
    OneOf.Check(WorkspaceMemberRoleC, s)
  }

  // ----- blog status -----

  datatype BlogStatus = Draft | Published | Archived

  const BlogStatusC: seq<string> := ["draft", "published", "archived"]

  function BlogStatusName(b: BlogStatus): (s: string)
    ensures s in BlogStatusC
  {
    match b
    case Draft => "draft"
    case Published => "published"
    case Archived => "archived"
  }

  function ParseBlogStatus(s: string): (r: Option<BlogStatus>)
    ensures r.Some? <==> s in BlogStatusC
    ensures r.Some? ==> BlogStatusName(r.value) == s
  {
    if s == "draft" then Some(Draft)
    else if s == "published" then Some(Published)
    else if s == "archived" then Some(Archived)
    else None
  }

  function BlogStatusE(s: string): (r: Result<string, string>)
    ensures r.Ok? <==> s == "draft" || s == "published" || s == "archived"
    ensures r.Ok? ==> r.value == s
  {
    OneOf.Check(BlogStatusC, s)
  }

  /** Names and parsing are inverse, so each datatype has exactly the values its list names. */
  lemma NamesRoundTrip(d: Direction, t: TokenType, c: CredentialType, cs: CredentialStatus,
                       r: Role, m: MemberRole, b: BlogStatus)
    ensures ParseDirection(DirectionName(d)) == Some(d)
    ensures ParseTokenType(TokenTypeName(t)) == Some(t)
    ensures ParseCredentialType(CredentialTypeName(c)) == Some(c)
    ensures ParseCredentialStatus(CredentialStatusName(cs)) == Some(cs)
    ensures ParseRole(RoleName(r)) == Some(r)
    ensures ParseMemberRole(MemberRoleName(m)) == Some(m)
    ensures ParseBlogStatus(BlogStatusName(b)) == Some(b)
  {
  }
}
