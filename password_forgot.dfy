/**
 * backend/core/app/controllers/customer/auth/password/forgot_controller.ts:
 * issue a password-reset token to the account with this email and mail it,
 * replacing the previous one. There is no transaction, and the reply never
 * tells whether an account matched.
 */
module PasswordForgot {
  import opened Wrappers
  import opened Literals
  import opened Records
  import opened Settings
  import opened Store
  import opened ParseError
  import opened TokenCodec
  import opened TokenModule

  const Sent := "If an account with this email exists, a password reset link has been sent."

  /** `secret` is the random secret of the new token. */
  method Handle(s: Store, settings: Settings, email: string, secret: string) returns (r: Result<string, Thrown>)
    requires |secret| == SecretLength
    modifies s
    ensures UserByEmail(old(s.users), email).None? ==> r == Ok(Sent) && s.tokens == old(s.tokens) && s.nextId == old(s.nextId) && s.mails == old(s.mails)
    ensures UserByEmail(old(s.users), email).Some? ==>
      var userId := old(s.users)[UserByEmail(old(s.users), email).value].id;
      var kept := ReplaceExisting(old(s.tokens), userId, PasswordReset);
      var expiresAt := ExpiryFrom(old(s.clock), settings.passwordResetExpiresIn);
      var record := Issued(old(s.nextId), userId, PasswordReset, None, s.tokenHash(secret), old(s.clock), expiresAt);
      (DateIsValid(expiresAt) ==>
        r == Ok(Sent) && s.tokens == kept + [record] && s.nextId == old(s.nextId) + 1 &&
        s.mails == old(s.mails) + [Mail(PasswordReset, userId, Encode(record.id, secret))]) &&
      (!DateIsValid(expiresAt) ==>
        r == Err(Unknown(InvalidExpiration)) && s.tokens == kept && s.nextId == old(s.nextId) && s.mails == old(s.mails))
    ensures s.users == old(s.users) && s.workspaces == old(s.workspaces) && s.members == old(s.members) && s.blogs == old(s.blogs)
    ensures s.clock == old(s.clock) && s.expiredCaches == old(s.expiredCaches)
  {
    var found := UserByEmail(s.users, email);
    if found.Some? {
      var user := s.users[found.value];
      var holder := TokenModule.Create(s, user.id, PasswordReset, None, settings.passwordResetExpiresIn, true, secret);
      if holder.Err? {
        return Err(holder.error);
      }
      s.QueueMail(Mail(PasswordReset, user.id, Encode(holder.value.identifier, secret)));
    }
    r := Ok(Sent);
  }

  /** The mailed value is a password-reset token for that user: it verifies as one until it expires. */
  lemma MailedTokenResets(tokens: seq<Token>, hash: string -> Digest, record: Token, secret: string, now: Time)
    requires forall j :: 0 <= j < |tokens| ==> tokens[j].id < record.id
    requires record.tokenType == PasswordReset && record.hash == hash(secret) && |secret| == SecretLength
    requires !IsExpired(record, now)
    ensures VerifyOutcome(tokens + [record], hash, now, Encode(record.id, secret), PasswordReset).Some?
    ensures VerifyOutcome(tokens + [record], hash, now, Encode(record.id, secret), EmailVerification).None?
  {
    IssuedTokenVerifies(tokens, hash, record, secret, now);
    DecodeEncode(record.id, secret);
    var all := tokens + [record];
    assert all[|tokens|] == record;
    assert FindByIdAndType(all, record.id, EmailVerification).None?;
  }
}
