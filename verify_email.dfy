/**
 * backend/core/app/controllers/customer/auth/verify_controller.ts: mark the
 * user's address as verified with a single-use email-verification token,
 * inside a transaction. The input `token` is taken as already validated.
 */
module VerifyEmail {
  import opened Wrappers
  import opened Literals
  import opened Records
  import opened Settings
  import opened Store
  import opened HttpException
  import opened ParseError
  import opened TokenModule

  const Disabled := "Email verification is currently disabled."
  const InvalidLink := "The verification link is invalid or has expired."
  const AlreadyVerified := "Your email address has already been verified."
  const Success := "Your email address has been verified successfully."

  /** The user the token belongs to, when the token verifies and the user still exists. */
  function TokenUser(t: Tables, hash: string -> Digest, now: Time, token: string): (r: Option<nat>)
    ensures r.Some? ==>
      VerifyOutcome(t.tokens, hash, now, token, EmailVerification).Some? && r.value < |t.users| &&
      t.users[r.value].id == VerifyOutcome(t.tokens, hash, now, token, EmailVerification).value.tokenableId
    ensures r.None? ==>
      VerifyOutcome(t.tokens, hash, now, token, EmailVerification).None? ||
      UserById(t.users, VerifyOutcome(t.tokens, hash, now, token, EmailVerification).value.tokenableId).None?
  {
    match VerifyOutcome(t.tokens, hash, now, token, EmailVerification)
    case None => None
    case Some(h) => UserById(t.users, h.tokenableId)
  }

  method Handle(s: Store, settings: Settings, token: string) returns (r: Result<string, Thrown>)
    modifies s
    ensures !settings.verificationEnabled ==> r == Err(Http(Forbidden(Disabled)))
    ensures settings.verificationEnabled && TokenUser(old(s.Snapshot()), s.tokenHash, old(s.clock), token).None? ==>
      r == Err(Http(Forbidden(InvalidLink)))
    ensures settings.verificationEnabled && TokenUser(old(s.Snapshot()), s.tokenHash, old(s.clock), token).Some? ==>
      var i := TokenUser(old(s.Snapshot()), s.tokenHash, old(s.clock), token).value;
      (old(s.users[i].verifiedAt).Some? ==> r == Err(Http(Forbidden(AlreadyVerified)))) &&
      (old(s.users[i].verifiedAt).None? ==> r == Ok(Success))
    ensures r.Err? ==> s.Snapshot() == old(s.Snapshot())
    ensures r.Ok? ==>
      var i := TokenUser(old(s.Snapshot()), s.tokenHash, old(s.clock), token).value;
      var h := VerifyOutcome(old(s.tokens), s.tokenHash, old(s.clock), token, EmailVerification).value;
      s.users == old(s.users)[i := old(s.users[i]).(verifiedAt := Some(old(s.clock)))] &&
      s.tokens == WithoutId(TokensAfterVerify(old(s.tokens), old(s.clock), token, EmailVerification), h.identifier)
    ensures r.Ok? ==> VerifyOutcome(s.tokens, s.tokenHash, s.clock, token, EmailVerification).None?
    ensures s.workspaces == old(s.workspaces) && s.members == old(s.members) && s.blogs == old(s.blogs) && s.nextId == old(s.nextId)
    ensures s.clock == old(s.clock) && s.mails == old(s.mails) && s.expiredCaches == old(s.expiredCaches)
  {
    if !settings.verificationEnabled {
      return Err(Http(Forbidden(Disabled)));
    }
    var saved := s.Snapshot();
    var holder := TokenModule.Verify(s, token, EmailVerification);
    if holder.None? {
      s.Restore(saved);
      return Err(Http(Forbidden(InvalidLink)));
    }
    var found := UserById(s.users, holder.value.tokenableId);
    if found.None? {
      s.Restore(saved);
      return Err(Http(Forbidden(InvalidLink)));
    }
    var i := found.value;
    if s.users[i].verifiedAt.Some? {
      s.Restore(saved);
      return Err(Http(Forbidden(AlreadyVerified)));
    }
    s.users := s.users[i := s.users[i].(verifiedAt := Some(s.clock))];
    TokenModule.Delete(s, holder.value);
    DeletedTokenNeverVerifies(TokensAfterVerify(saved.tokens, s.clock, token, EmailVerification), s.tokenHash, s.clock, token, EmailVerification, holder.value);
    r := Ok(Success);
  }
}
