/**
 * backend/core/app/controllers/customer/auth/signin_controller.ts: check the
 * credentials, make room under the session cap by deleting the user's oldest
 * access tokens, and issue a new one, all in one transaction.
 */
module SignIn {
  import opened Wrappers
  import opened Literals
  import opened Records
  import opened Settings
  import opened Store
  import opened HttpException
  import opened ParseError
  import opened TokenCodec
  import opened TokenModule

  const Disabled := "signin is currently disabled."
  const InvalidCredentials := "Invalid email or password."
  const NotVerified := "Your email address is not verified. Please check your inbox for a verification link."
  const NotVerifiedCode := "EMAIL_NOT_VERIFIED"
  const Success := "You have been signed in successfully."

  /** The refusal for a bad credential; `reason` is logged, never sent. */
  function Refusal(reason: string): Thrown
  {
    Http(BadRequest(InvalidCredentials, NoOptions.(source := Some("email"), reason := Some(reason))))
  }

  const Unverified := Http(BadRequest(NotVerified, NoOptions.(code := Some(NotVerifiedCode), source := Some("email"), reason := Some("Email verification is required"))))

  /**
   * The credential checks: the user with this email, a stored password that
   * matches, and, when verification is enabled, a verified address.
   */
  function Authenticate(users: seq<User>, passwordHash: string -> Digest, email: string, password: string, verificationEnabled: bool): (r: Result<User, Thrown>)
    ensures r.Ok? <==>
      UserByEmail(users, email).Some? &&
      users[UserByEmail(users, email).value].password == Some(passwordHash(password)) &&
      (verificationEnabled ==> users[UserByEmail(users, email).value].verifiedAt.Some?)
    ensures r.Ok? ==> r.value == users[UserByEmail(users, email).value] && r.value.email == email
    ensures r.Err? && (UserByEmail(users, email).None? || users[UserByEmail(users, email).value].password != Some(passwordHash(password))) ==>
      Parse(r.error).message == Some(InvalidCredentials) && Parse(r.error).source == Some("email") && Parse(r.error).status == BadRequestStatus
    ensures r.Err? && UserByEmail(users, email).Some? && users[UserByEmail(users, email).value].password == Some(passwordHash(password)) ==>
      r.error == Unverified
  {
    match UserByEmail(users, email)
    case None => Err(Refusal("Email not found"))
    case Some(i) =>
      var user := users[i];
      if user.password.None? then Err(Refusal("Password not set"))
      else if user.password.value != passwordHash(password) then Err(Refusal("Password is incorrect"))
      else if verificationEnabled && user.verifiedAt.None? then Err(Unverified)
      else Ok(user)
  }

  /** An unknown email and a wrong password are told apart only by the logged reason. */
  lemma SameAnswerForUnknownEmailAndWrongPassword(users: seq<User>, passwordHash: string -> Digest, email: string, password: string, verificationEnabled: bool)
    requires UserByEmail(users, email).Some?
    requires users[UserByEmail(users, email).value].password.Some?
    requires users[UserByEmail(users, email).value].password != Some(passwordHash(password))
    ensures Body(Parse(Authenticate(users, passwordHash, email, password, verificationEnabled).error), "") ==
            Body(Parse(Authenticate([], passwordHash, email, password, verificationEnabled).error), "")
  {
  }

  // ----- Session eviction -----

  /** An access token of the user: one session. */
  predicate IsSession(t: Token, userId: Id)
  {
    t.tokenableId == userId && t.tokenType == Access
  }

  function SessionCount(tokens: seq<Token>, userId: Id): (n: nat)
    ensures n <= |tokens|
  {
    if tokens == [] then 0
    else SessionCount(tokens[..|tokens| - 1], userId) + (if IsSession(tokens[|tokens| - 1], userId) then 1 else 0)
  }

  /**
   * The user's oldest session: the least `createdAt`, and among equals the
   * first stored, as a stable sort puts it first.
   */
  function Oldest(tokens: seq<Token>, userId: Id): (r: Option<nat>)
    ensures r.Some? ==> r.value < |tokens| && IsSession(tokens[r.value], userId)
    ensures r.None? ==> forall j :: 0 <= j < |tokens| ==> !IsSession(tokens[j], userId)
  {
    if tokens == [] then None
    else
      var n := |tokens|;
      var p := Oldest(tokens[..n - 1], userId);
      if IsSession(tokens[n - 1], userId) && (p.None? || tokens[n - 1].createdAt < tokens[p.value].createdAt) then Some(n - 1)
      else p
  }

  /**
   * The session `Oldest` picks has the least `createdAt` of the user's
   * sessions, and every session stored before it is strictly newer.
   */
  lemma {:induction false} OldestIsOldest(tokens: seq<Token>, userId: Id)
    requires Oldest(tokens, userId).Some?
    ensures var o := Oldest(tokens, userId).value;
      forall j :: 0 <= j < |tokens| && IsSession(tokens[j], userId) ==> tokens[o].createdAt <= tokens[j].createdAt
    ensures var o := Oldest(tokens, userId).value;
      forall j :: 0 <= j < o && IsSession(tokens[j], userId) ==> tokens[o].createdAt < tokens[j].createdAt
  {
    var n := |tokens|;
    var front := tokens[..n - 1];
    if Oldest(front, userId).Some? {
      OldestIsOldest(front, userId);
      assert forall j :: 0 <= j < n - 1 ==> front[j] == tokens[j];
    }
  }

  /**
   * The tokens left after deleting the user's `k` oldest sessions, the way
   * sorting by `createdAt` and keeping the first `k` selects them.
   */
  function Evict(tokens: seq<Token>, userId: Id, k: nat): (r: seq<Token>)
    ensures |r| <= |tokens|
  {
    if k == 0 then tokens
    else match Oldest(tokens, userId)
      case None => tokens
      case Some(i) => Evict(RemoveAt(tokens, i), userId, k - 1)
  }

  /** The sessions `Evict` deletes, oldest first. */
  function Evicted(tokens: seq<Token>, userId: Id, k: nat): (r: seq<Token>)
    ensures forall j :: 0 <= j < |r| ==> IsSession(r[j], userId)
  {
    if k == 0 then []
    else match Oldest(tokens, userId)
      case None => []
      case Some(i) => [tokens[i]] + Evicted(RemoveAt(tokens, i), userId, k - 1)
  }

  /** Eviction only deletes: every kept token was in the table. */
  lemma {:induction false} KeptWereThere(tokens: seq<Token>, userId: Id, k: nat, t: Token)
    requires t in Evict(tokens, userId, k)
    ensures t in tokens
    decreases k
  {
    if k > 0 && Oldest(tokens, userId).Some? {
      var i := Oldest(tokens, userId).value;
      var rest := RemoveAt(tokens, i);
      EvictStep(tokens, userId, k);
      KeptWereThere(rest, userId, k - 1, t);
      RemoveAtMembers(tokens, i, t);
    }
  }

  /** Tokens of other users and other types are never evicted. */
  lemma {:induction false} OthersKept(tokens: seq<Token>, userId: Id, k: nat, t: Token)
    requires t in tokens && !IsSession(t, userId)
    ensures t in Evict(tokens, userId, k)
    decreases k
  {
    EvictStep(tokens, userId, k);
    if k > 0 && Oldest(tokens, userId).Some? {
      var i := Oldest(tokens, userId).value;
      var rest := RemoveAt(tokens, i);
      RemoveAtMembers(tokens, i, t);
      OthersKept(rest, userId, k - 1, t);
    }
  }

  lemma {:induction false} RemoveSessionCount(tokens: seq<Token>, i: nat, userId: Id)
    requires i < |tokens|
    ensures SessionCount(tokens, userId) == SessionCount(RemoveAt(tokens, i), userId) + (if IsSession(tokens[i], userId) then 1 else 0)
  {
    var n := |tokens|;
    var rest := RemoveAt(tokens, i);
    if i < n - 1 {
      RemoveSessionCount(tokens[..n - 1], i, userId);
      assert rest[..|rest| - 1] == RemoveAt(tokens[..n - 1], i);
      assert rest[|rest| - 1] == tokens[n - 1];
    } else {
      assert rest == tokens[..n - 1];
    }
  }

  lemma {:induction false} NoSessionCountsZero(tokens: seq<Token>, userId: Id)
    requires forall j :: 0 <= j < |tokens| ==> !IsSession(tokens[j], userId)
    ensures SessionCount(tokens, userId) == 0
  {
    if tokens != [] {
      NoSessionCountsZero(tokens[..|tokens| - 1], userId);
    }
  }

  /** Evicting `k` sessions leaves `max(0, n - k)` of the user's `n` sessions. */
  lemma {:induction false} EvictCount(tokens: seq<Token>, userId: Id, k: nat)
    ensures var n := SessionCount(tokens, userId);
      SessionCount(Evict(tokens, userId, k), userId) == if k <= n then n - k else 0
  {
    if k > 0 {
      match Oldest(tokens, userId)
      case None =>
        NoSessionCountsZero(tokens, userId);
      case Some(i) =>
        RemoveSessionCount(tokens, i, userId);
        EvictCount(RemoveAt(tokens, i), userId, k - 1);
    }
  }

  /** The oldest session is no newer than any session left after removing it. */
  lemma OldestBeforeRest(tokens: seq<Token>, userId: Id, t: Token)
    requires Oldest(tokens, userId).Some?
    requires t in RemoveAt(tokens, Oldest(tokens, userId).value) && IsSession(t, userId)
    ensures tokens[Oldest(tokens, userId).value].createdAt <= t.createdAt
  {
    var i := Oldest(tokens, userId).value;
    var rest := RemoveAt(tokens, i);
    var m :| 0 <= m < |rest| && rest[m] == t;
    var j := if m < i then m else m + 1;
    assert tokens[j] == t;
    OldestIsOldest(tokens, userId);
  }

  /** A non-empty eviction starts with the oldest session. */
  lemma EvictedUnfold(tokens: seq<Token>, userId: Id, k: nat)
    requires Evicted(tokens, userId, k) != []
    ensures k > 0 && Oldest(tokens, userId).Some?
    ensures var i := Oldest(tokens, userId).value;
      Evicted(tokens, userId, k) == [tokens[i]] + Evicted(RemoveAt(tokens, i), userId, k - 1) &&
      Evict(tokens, userId, k) == Evict(RemoveAt(tokens, i), userId, k - 1)
  {
  }

  /** Every evicted session is no newer than any session that is kept. */
  lemma {:induction false} EvictOldestFirst(tokens: seq<Token>, userId: Id, k: nat, e: Token, t: Token)
    requires e in Evicted(tokens, userId, k) && t in Evict(tokens, userId, k) && IsSession(t, userId)
    ensures e.createdAt <= t.createdAt
    decreases k
  {
    EvictedUnfold(tokens, userId, k);
    var i := Oldest(tokens, userId).value;
    var rest := RemoveAt(tokens, i);
    if e == tokens[i] {
      KeptWereThere(rest, userId, k - 1, t);
      OldestBeforeRest(tokens, userId, t);
    } else {
      EvictOldestFirst(rest, userId, k - 1, e, t);
    }
  }

  /** The user's oldest session, by one pass over the table. */
  method FindOldest(tokens: seq<Token>, userId: Id) returns (r: Option<nat>)
    ensures r == Oldest(tokens, userId)
  {
    r := None;
    for i := 0 to |tokens|
      invariant r == Oldest(tokens[..i], userId)
    {
      assert tokens[..i + 1][..i] == tokens[..i];
      if IsSession(tokens[i], userId) && (r.None? || tokens[i].createdAt < tokens[r.value].createdAt) {
        r := Some(i);
      }
    }
    assert tokens[..|tokens|] == tokens;
  }

  /** Deleting the oldest session is one step of `Evict`. */
  lemma EvictStep(tokens: seq<Token>, userId: Id, k: nat)
    ensures k == 0 || Oldest(tokens, userId).None? ==> Evict(tokens, userId, k) == tokens
    ensures k > 0 && Oldest(tokens, userId).Some? ==> Evict(tokens, userId, k) == Evict(RemoveAt(tokens, Oldest(tokens, userId).value), userId, k - 1)
  {
  }

  /** Deletes the user's `k` oldest sessions, one oldest session at a time. */
  method EvictOldest(s: Store, userId: Id, k: nat)
    modifies s
    ensures s.tokens == Evict(old(s.tokens), userId, k)
    ensures s.users == old(s.users) && s.workspaces == old(s.workspaces) && s.members == old(s.members) && s.blogs == old(s.blogs)
    ensures s.nextId == old(s.nextId) && s.clock == old(s.clock) && s.mails == old(s.mails) && s.expiredCaches == old(s.expiredCaches)
  {
    var tokens := s.tokens;
    var i := 0;
    while i < k
      invariant 0 <= i <= k
      invariant Evict(old(s.tokens), userId, k) == Evict(tokens, userId, k - i)
      invariant unchanged(s)
    {
      var oldest := FindOldest(tokens, userId);
      EvictStep(tokens, userId, k - i);
      if oldest.None? {
        break;
      }
      tokens := RemoveAt(tokens, oldest.value);
      i := i + 1;
    }
    s.tokens := tokens;
  }

  /** How many sessions to delete so that the new one fits under `max`. */
  function ToDelete(current: nat, max: int): (k: nat)
    ensures k == 0 <==> current < max
    ensures max >= 1 ==> k <= current && current - k + 1 <= max
    ensures k > 0 ==> current - k + 1 == max
  {
    if current - max + 1 > 0 then current - max + 1 else 0
  }

  datatype Reply = Reply(token: Serialized, message: string)

  /**
   * `handle`. `limiterAllows` is the outcome of consuming the rate limiter;
   * `secret` is the random secret of the new token.
   */
  method Handle(s: Store, settings: Settings, limiterAllows: bool, email: string, password: string, secret: string)
    returns (r: Result<Reply, Thrown>)
    requires |secret| == SecretLength
    modifies s
    ensures !settings.signInActive ==> r == Err(Http(Forbidden(Disabled)))
    ensures settings.signInActive && !limiterAllows ==> r == Err(TooManyRequests)
    ensures settings.signInActive && limiterAllows && Authenticate(old(s.users), s.passwordHash, email, password, settings.verificationEnabled).Err? ==>
      r == Err(Authenticate(old(s.users), s.passwordHash, email, password, settings.verificationEnabled).error)
    ensures settings.signInActive && limiterAllows && Authenticate(old(s.users), s.passwordHash, email, password, settings.verificationEnabled).Ok? ==>
      (r.Ok? <==> DateIsValid(ExpiryFrom(old(s.clock), settings.sessionExpiresIn))) &&
      (r.Err? ==> r == Err(Unknown(InvalidExpiration)))
    ensures r.Err? ==> s.Snapshot() == old(s.Snapshot())
    ensures r.Ok? ==>
      var user := Authenticate(old(s.users), s.passwordHash, email, password, settings.verificationEnabled);
      var k := ToDelete(SessionCount(old(s.tokens), user.value.id), settings.sessionMax);
      var expiresAt := ExpiryFrom(old(s.clock), settings.sessionExpiresIn);
      var record := Issued(old(s.nextId), user.value.id, Access, None, s.tokenHash(secret), old(s.clock), expiresAt);
      user.Ok? &&
      s.tokens == Evict(old(s.tokens), user.value.id, k) + [record] &&
      r.value == Reply(Serialized("bearer", Encode(old(s.nextId), secret), expiresAt), Success) &&
      s.nextId == old(s.nextId) + 1
    ensures r.Ok? && settings.sessionMax >= 1 ==>
      SessionCount(s.tokens, Authenticate(old(s.users), s.passwordHash, email, password, settings.verificationEnabled).value.id) <= settings.sessionMax
    ensures s.users == old(s.users) && s.workspaces == old(s.workspaces) && s.members == old(s.members) && s.blogs == old(s.blogs)
    ensures s.clock == old(s.clock) && s.mails == old(s.mails) && s.expiredCaches == old(s.expiredCaches)
  {
    if !settings.signInActive {
      return Err(Http(Forbidden(Disabled)));
    }
    if !limiterAllows {
      return Err(TooManyRequests);
    }
    var saved := s.Snapshot();
    var user := Authenticate(s.users, s.passwordHash, email, password, settings.verificationEnabled);
    if user.Err? {
      return Err(user.error);
    }
    var userId := user.value.id;
    var current := SessionCount(s.tokens, userId);
    var k := ToDelete(current, settings.sessionMax);
    if k > 0 {
      EvictOldest(s, userId, k);
    }
    ghost var kept := s.tokens;
    var token := TokenModule.Create(s, userId, Access, None, settings.sessionExpiresIn, false, secret);
    if token.Err? {
      s.Restore(saved);
      return Err(token.error);
    }
    EvictCount(old(s.tokens), userId, k);
    assert (kept + [s.tokens[|s.tokens| - 1]])[..|kept|] == kept;
    var serialized := Serialize(token.value);
    r := Ok(Reply(serialized.value, Success));
  }
}
