/**
 * backend/core/app/controllers/customer/auth/signup_controller.ts: create a
 * customer, a workspace named after them and their owner membership, and,
 * when email verification is on, an email-verification token and its mail,
 * all in one transaction.
 */
module SignUp {
  import opened Wrappers
  import opened Literals
  import opened Records
  import opened Settings
  import opened Store
  import opened HttpException
  import opened ParseError
  import opened TokenCodec
  import opened TokenModule
  import opened CrossField
  import opened WorkspaceHelper
  import opened WorkspaceModel
  import opened Authorization
  import WorkspacePolicy

  const Disabled := "signup is currently disabled."
  const EmailTaken := "An account with this email address already exists."
  const CreatedPleaseVerify := "Your account has been created. Please check your email to verify your account."
  const Created := "Your account has been created successfully."

  const EmailExists := Http(BadRequest(EmailTaken, NoOptions.(source := Some("email"), reason := Some("Email already exists"))))

  /** The reply: the new user, the message and `meta.email.verificationRequired`. */
  datatype Reply = Reply(user: User, message: string, verificationRequired: bool)

  function WorkspaceName(userName: string): string
  {
    userName + "'s Workspace"
  }

  /** The confirmation rule of the input schema. */
  function Invalid(password: string, confirmPassword: string): seq<ValidationError>
  {
    SameAs("confirmPassword", confirmPassword, "password", password)
  }

  /** When a sign-up gets through every check and commits. */
  predicate Accepted(t: Tables, settings: Settings, clock: Time, limiterAllows: bool, email: string, password: string, confirmPassword: string)
  {
    settings.signUpActive && Invalid(password, confirmPassword) == [] && limiterAllows &&
    UserByEmail(t.users, email).None? &&
    (settings.verificationEnabled ==> DateIsValid(ExpiryFrom(clock, settings.verificationExpiresIn)))
  }

  /**
   * The tables after a committed sign-up: the user, the workspace and the
   * owner row take the next three ids, the verification token the fourth.
   */
  function SignedUp(t: Tables, passwordHash: string -> Digest, tokenHash: string -> Digest, clock: Time, settings: Settings,
                    name: string, email: string, password: string, secret: string, ownerJoinedAt: Option<Time>): Tables
  {
    var n := t.nextId;
    var verify := settings.verificationEnabled;
    Tables(
      t.users + [User(n, name, Customer, email, Some(passwordHash(password)), None)],
      t.workspaces + [Workspace(n + 1, WorkspaceName(name))],
      t.members + [Member(n + 2, n, n + 1, Owner, ownerJoinedAt, None)],
      t.blogs,
      t.tokens + (if verify then [Issued(n + 3, n, EmailVerification, None, tokenHash(secret), clock, ExpiryFrom(clock, settings.verificationExpiresIn))] else []),
      n + (if verify then 4 else 3))
  }

  /**
   * The controller, with the owner row's `joinedAt` as a parameter: `None` is
   * the code as written, `Some(clock)` the corrected behaviour.
   */
  method Register(s: Store, settings: Settings, limiterAllows: bool, name: string, email: string, password: string, confirmPassword: string,
                  secret: string, ownerJoinedAt: Option<Time>)
    returns (r: Result<Reply, Thrown>)
    requires |secret| == SecretLength
    modifies s
    ensures !settings.signUpActive ==> r == Err(Http(Forbidden(Disabled)))
    ensures settings.signUpActive && Invalid(password, confirmPassword) != [] ==> r == Err(VineValidation(Invalid(password, confirmPassword)))
    ensures settings.signUpActive && Invalid(password, confirmPassword) == [] && !limiterAllows ==> r == Err(TooManyRequests)
    ensures settings.signUpActive && Invalid(password, confirmPassword) == [] && limiterAllows && UserByEmail(old(s.users), email).Some? ==> r == Err(EmailExists)
    ensures (settings.signUpActive && Invalid(password, confirmPassword) == [] && limiterAllows && UserByEmail(old(s.users), email).None? &&
             settings.verificationEnabled && !DateIsValid(ExpiryFrom(old(s.clock), settings.verificationExpiresIn))) ==>
      r == Err(Unknown(InvalidExpiration))
    ensures r.Ok? <==> Accepted(old(s.Snapshot()), settings, old(s.clock), limiterAllows, email, password, confirmPassword)
    ensures r.Err? ==> s.Snapshot() == old(s.Snapshot()) && s.mails == old(s.mails)
    ensures r.Ok? ==>
      var n := old(s.nextId);
      s.Snapshot() == SignedUp(old(s.Snapshot()), s.passwordHash, s.tokenHash, old(s.clock), settings, name, email, password, secret, ownerJoinedAt) &&
      s.mails == old(s.mails) + (if settings.verificationEnabled then [Mail(EmailVerification, n, Encode(n + 3, secret))] else []) &&
      r.value == Reply(s.users[|s.users| - 1], if settings.verificationEnabled then CreatedPleaseVerify else Created, settings.verificationEnabled)
    ensures s.clock == old(s.clock) && s.expiredCaches == old(s.expiredCaches)
  {
    if !settings.signUpActive {
      return Err(Http(Forbidden(Disabled)));
    }
    var invalid := Invalid(password, confirmPassword);
    if invalid != [] {
      return Err(VineValidation(invalid));
    }
    if !limiterAllows {
      return Err(TooManyRequests);
    }
    var saved := s.Snapshot();
    if UserByEmail(s.users, email).Some? {
      return Err(EmailExists);
    }
    var userId := s.NewId();
    var user := User(userId, name, Customer, email, Some(s.passwordHash(password)), None);
    s.users := s.users + [user];
    var workspaceId := s.NewId();
    s.workspaces := s.workspaces + [Workspace(workspaceId, WorkspaceName(name))];
    var memberId := s.NewId();
    s.members := s.members + [Member(memberId, userId, workspaceId, Owner, ownerJoinedAt, None)];
    if settings.verificationEnabled {
      var holder := TokenModule.Create(s, userId, EmailVerification, None, settings.verificationExpiresIn, false, secret);
      if holder.Err? {
        s.Restore(saved);
        return Err(holder.error);
      }
      s.QueueMail(Mail(EmailVerification, userId, Encode(holder.value.identifier, secret)));
      r := Ok(Reply(user, CreatedPleaseVerify, true));
    } else {
      r := Ok(Reply(user, Created, false));
    }
  }

  /** `handle` as written: the owner row is created without `joinedAt`. */
  method Handle(s: Store, settings: Settings, limiterAllows: bool, name: string, email: string, password: string, confirmPassword: string, secret: string)
    returns (r: Result<Reply, Thrown>)
    requires |secret| == SecretLength
    modifies s
    ensures r.Ok? <==> Accepted(old(s.Snapshot()), settings, old(s.clock), limiterAllows, email, password, confirmPassword)
    ensures r.Err? ==> s.Snapshot() == old(s.Snapshot()) && s.mails == old(s.mails)
    ensures r.Ok? ==> s.Snapshot() == SignedUp(old(s.Snapshot()), s.passwordHash, s.tokenHash, old(s.clock), settings, name, email, password, secret, None)
    ensures s.clock == old(s.clock) && s.expiredCaches == old(s.expiredCaches)
  {
    r := Register(s, settings, limiterAllows, name, email, password, confirmPassword, secret, None);
  }

  /** `handle` with the owner joining their new workspace at once, as workspace creation does. */
  method HandleJoined(s: Store, settings: Settings, limiterAllows: bool, name: string, email: string, password: string, confirmPassword: string, secret: string)
    returns (r: Result<Reply, Thrown>)
    requires |secret| == SecretLength
    modifies s
    ensures r.Ok? <==> Accepted(old(s.Snapshot()), settings, old(s.clock), limiterAllows, email, password, confirmPassword)
    ensures r.Err? ==> s.Snapshot() == old(s.Snapshot()) && s.mails == old(s.mails)
    ensures r.Ok? ==> s.Snapshot() == SignedUp(old(s.Snapshot()), s.passwordHash, s.tokenHash, old(s.clock), settings, name, email, password, secret, Some(old(s.clock)))
    ensures s.clock == old(s.clock) && s.expiredCaches == old(s.expiredCaches)
  {
    r := Register(s, settings, limiterAllows, name, email, password, confirmPassword, secret, Some(s.clock));
  }

  // ----- properties of a committed sign-up -----

  /** A committed sign-up keeps the store's constraints: fresh ids, one row per (user, workspace), one owner per workspace. */
  lemma SignedUpValid(t: Tables, passwordHash: string -> Digest, tokenHash: string -> Digest, clock: Time, settings: Settings,
                      name: string, email: string, password: string, secret: string, ownerJoinedAt: Option<Time>)
    requires TablesValid(t)
    ensures TablesValid(SignedUp(t, passwordHash, tokenHash, clock, settings, name, email, password, secret, ownerJoinedAt))
  {
    var u := SignedUp(t, passwordHash, tokenHash, clock, settings, name, email, password, secret, ownerJoinedAt);
    var last := |u.members| - 1;
    forall i | 0 <= i < last
      ensures u.members[i].workspaceId != u.members[last].workspaceId
    {
      assert u.members[i] == t.members[i];
    }
  }

  /** The new account is the one its email now finds. */
  lemma NewUserFoundByEmail(t: Tables, passwordHash: string -> Digest, tokenHash: string -> Digest, clock: Time, settings: Settings,
                            name: string, email: string, password: string, secret: string, ownerJoinedAt: Option<Time>)
    requires UserByEmail(t.users, email).None?
    ensures var u := SignedUp(t, passwordHash, tokenHash, clock, settings, name, email, password, secret, ownerJoinedAt);
      UserByEmail(u.users, email) == Some(|t.users|) && u.users[|t.users|].role == Customer && u.users[|t.users|].verifiedAt.None?
  {
    var u := SignedUp(t, passwordHash, tokenHash, clock, settings, name, email, password, secret, ownerJoinedAt);
    UserByEmailAppend(t.users, u.users[|t.users|], email);
  }

  lemma {:induction false} UserByEmailAppend(users: seq<User>, user: User, email: string)
    requires UserByEmail(users, email).None? && user.email == email
    ensures UserByEmail(users + [user], email) == Some(|users|)
  {
    if users != [] {
      assert (users + [user])[1..] == users[1..] + [user];
      UserByEmailAppend(users[1..], user, email);
    }
  }

  /** The only member row of the new workspace is the owner row. */
  lemma OnlyRowOfNewWorkspace(t: Tables, passwordHash: string -> Digest, tokenHash: string -> Digest, clock: Time, settings: Settings,
                              name: string, email: string, password: string, secret: string, ownerJoinedAt: Option<Time>)
    requires IdsBelow(t)
    ensures var u := SignedUp(t, passwordHash, tokenHash, clock, settings, name, email, password, secret, ownerJoinedAt);
      forall m :: m in u.members && m.workspaceId == t.nextId + 1 ==> m == u.members[|t.members|]
  {
    var u := SignedUp(t, passwordHash, tokenHash, clock, settings, name, email, password, secret, ownerJoinedAt);
    forall m | m in u.members && m.workspaceId == t.nextId + 1
      ensures m == u.members[|t.members|]
    {
      var i :| 0 <= i < |u.members| && u.members[i] == m;
      assert i == |t.members|;
    }
  }

  /** As written, the new owner is not an active member of their own workspace: even `view` refuses them. */
  lemma OwnerLockedOut(t: Tables, passwordHash: string -> Digest, tokenHash: string -> Digest, clock: Time, settings: Settings,
                       name: string, email: string, password: string, secret: string)
    requires IdsBelow(t)
    ensures var u := SignedUp(t, passwordHash, tokenHash, clock, settings, name, email, password, secret, None);
      WorkspacePolicy.View(u.members, t.nextId + 1, t.nextId) == Deny(None) &&
      WorkspacePolicy.Transfer(u.members, t.nextId + 1, t.nextId) == Deny(None)
  {
    OnlyRowOfNewWorkspace(t, passwordHash, tokenHash, clock, settings, name, email, password, secret, None);
  }

  /** With the owner joined at sign-up, the new user is the active owner of the new workspace. */
  lemma JoinedOwnerOwns(t: Tables, passwordHash: string -> Digest, tokenHash: string -> Digest, clock: Time, settings: Settings,
                        name: string, email: string, password: string, secret: string)
    requires IdsBelow(t)
    ensures var u := SignedUp(t, passwordHash, tokenHash, clock, settings, name, email, password, secret, Some(clock));
      ActiveRole(u.members, t.nextId + 1, t.nextId) == Some(Owner) &&
      WorkspacePolicy.View(u.members, t.nextId + 1, t.nextId) == Allow &&
      WorkspacePolicy.Transfer(u.members, t.nextId + 1, t.nextId) == Allow
  {
    OnlyRowOfNewWorkspace(t, passwordHash, tokenHash, clock, settings, name, email, password, secret, Some(clock));
  }
}
