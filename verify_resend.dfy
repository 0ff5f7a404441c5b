/**
 * backend/core/app/controllers/customer/auth/verify_resend_controller.ts:
 * issue a fresh email-verification token to an unverified account and mail
 * it, replacing the previous one. There is no transaction, and the reply never
 * tells whether an account matched.
 */
module VerifyResend {
  import opened Wrappers
  import opened Literals
  import opened Records
  import opened Settings
  import opened Store
  import opened ParseError
  import opened TokenCodec
  import opened TokenModule

  const Sent := "If an unverified account with this email exists, a new verification link has been sent."

  /** The first user with this email whose address is not verified. */
  function FirstUnverified(users: seq<User>, email: string): (r: Option<nat>)
    ensures r.Some? ==> r.value < |users| && users[r.value].email == email && users[r.value].verifiedAt.None?
    ensures r.Some? ==> forall i :: 0 <= i < r.value ==> !(users[i].email == email && users[i].verifiedAt.None?)
    ensures r.None? ==> forall i :: 0 <= i < |users| ==> !(users[i].email == email && users[i].verifiedAt.None?)
  {
    if users == [] then None
    else if users[0].email == email && users[0].verifiedAt.None? then Some(0)
    else match FirstUnverified(users[1..], email)
      case None => None
      case Some(k) => Some(k + 1)
  }

  /** `secret` is the random secret of the new token. */
  method Handle(s: Store, settings: Settings, email: string, secret: string) returns (r: Result<string, Thrown>)
    requires |secret| == SecretLength
    modifies s
    ensures FirstUnverified(old(s.users), email).None? ==> r == Ok(Sent) && s.tokens == old(s.tokens) && s.nextId == old(s.nextId) && s.mails == old(s.mails)
    ensures FirstUnverified(old(s.users), email).Some? ==>
      var userId := old(s.users)[FirstUnverified(old(s.users), email).value].id;
      var kept := ReplaceExisting(old(s.tokens), userId, EmailVerification);
      var expiresAt := ExpiryFrom(old(s.clock), settings.verificationExpiresIn);
      var record := Issued(old(s.nextId), userId, EmailVerification, None, s.tokenHash(secret), old(s.clock), expiresAt);
      (DateIsValid(expiresAt) ==>
        r == Ok(Sent) && s.tokens == kept + [record] && s.nextId == old(s.nextId) + 1 &&
        s.mails == old(s.mails) + [Mail(EmailVerification, userId, Encode(record.id, secret))]) &&
      (!DateIsValid(expiresAt) ==>
        r == Err(Unknown(InvalidExpiration)) && s.tokens == kept && s.nextId == old(s.nextId) && s.mails == old(s.mails))
    ensures s.users == old(s.users) && s.workspaces == old(s.workspaces) && s.members == old(s.members) && s.blogs == old(s.blogs)
    ensures s.clock == old(s.clock) && s.expiredCaches == old(s.expiredCaches)
  {
    var found := FirstUnverified(s.users, email);
    if found.Some? {
      var user := s.users[found.value];
      var holder := TokenModule.Create(s, user.id, EmailVerification, None, settings.verificationExpiresIn, true, secret);
      if holder.Err? {
        return Err(holder.error);
      }
      s.QueueMail(Mail(EmailVerification, user.id, Encode(holder.value.identifier, secret)));
    }
    r := Ok(Sent);
  }

  /** After a resend the user holds exactly one email-verification token when they held at most one before. */
  lemma OneLiveVerificationToken(tokens: seq<Token>, userId: Id, record: Token)
    requires CountOf(tokens, userId, EmailVerification) <= 1
    requires record.tokenableId == userId && record.tokenType == EmailVerification
    ensures CountOf(ReplaceExisting(tokens, userId, EmailVerification) + [record], userId, EmailVerification) == 1
  {
    ReplaceExistingRemovesOne(tokens, userId, EmailVerification);
    CountAppend(ReplaceExisting(tokens, userId, EmailVerification), record, userId, EmailVerification);
  }
}
