/**
 * backend/core/app/controllers/customer/auth/password/reset_controller.ts:
 * replace a password with a single-use password-reset token, inside a
 * transaction. The token's length rules are taken as already validated.
 */
module PasswordReset {
  import opened Wrappers
  import opened Literals
  import opened Records
  import opened Store
  import opened HttpException
  import opened ParseError
  import opened TokenModule
  import opened CrossField

  const InvalidToken := "The provided token is invalid or has expired."
  const Success := "Your password has been successfully reset."

  function Invalid(newPassword: string, confirmNewPassword: string): seq<ValidationError>
  {
    SameAs("confirmNewPassword", confirmNewPassword, "newPassword", newPassword)
  }

  /** The account a password-reset token value resets, when the token verifies and the account still exists. */
  function TokenUser(t: Tables, hash: string -> Digest, now: Time, token: string): (r: Option<nat>)
    ensures r.Some? ==>
      VerifyOutcome(t.tokens, hash, now, token, Literals.PasswordReset).Some? && r.value < |t.users| &&
      t.users[r.value].id == VerifyOutcome(t.tokens, hash, now, token, Literals.PasswordReset).value.tokenableId
    ensures r.None? ==>
      VerifyOutcome(t.tokens, hash, now, token, Literals.PasswordReset).None? ||
      UserById(t.users, VerifyOutcome(t.tokens, hash, now, token, Literals.PasswordReset).value.tokenableId).None?
  {
    match VerifyOutcome(t.tokens, hash, now, token, Literals.PasswordReset)
    case None => None
    case Some(h) => UserById(t.users, h.tokenableId)
  }

  method Handle(s: Store, token: string, newPassword: string, confirmNewPassword: string) returns (r: Result<string, Thrown>)
    modifies s
    ensures Invalid(newPassword, confirmNewPassword) != [] ==> r == Err(VineValidation(Invalid(newPassword, confirmNewPassword)))
    ensures Invalid(newPassword, confirmNewPassword) == [] && TokenUser(old(s.Snapshot()), s.tokenHash, old(s.clock), token).None? ==>
      r == Err(Http(Forbidden(InvalidToken)))
    ensures r.Ok? <==> Invalid(newPassword, confirmNewPassword) == [] && TokenUser(old(s.Snapshot()), s.tokenHash, old(s.clock), token).Some?
    ensures r.Err? ==> s.Snapshot() == old(s.Snapshot())
    ensures r.Ok? ==>
      var i := TokenUser(old(s.Snapshot()), s.tokenHash, old(s.clock), token).value;
      var h := VerifyOutcome(old(s.tokens), s.tokenHash, old(s.clock), token, Literals.PasswordReset).value;
      r.value == Success &&
      s.users == old(s.users)[i := old(s.users[i]).(password := Some(s.passwordHash(newPassword)))] &&
      s.tokens == WithoutId(TokensAfterVerify(old(s.tokens), old(s.clock), token, Literals.PasswordReset), h.identifier)
    ensures r.Ok? ==> VerifyOutcome(s.tokens, s.tokenHash, s.clock, token, Literals.PasswordReset).None?
    ensures s.workspaces == old(s.workspaces) && s.members == old(s.members) && s.blogs == old(s.blogs) && s.nextId == old(s.nextId)
    ensures s.clock == old(s.clock) && s.mails == old(s.mails) && s.expiredCaches == old(s.expiredCaches)
  {
    var invalid := Invalid(newPassword, confirmNewPassword);
    if invalid != [] {
      return Err(VineValidation(invalid));
    }
    var saved := s.Snapshot();
    var holder := TokenModule.Verify(s, token, Literals.PasswordReset);
    if holder.None? {
      s.Restore(saved);
      return Err(Http(Forbidden(InvalidToken)));
    }
    var found := UserById(s.users, holder.value.tokenableId);
    if found.None? {
      s.Restore(saved);
      return Err(Http(Forbidden(InvalidToken)));
    }
    var i := found.value;
    s.users := s.users[i := s.users[i].(password := Some(s.passwordHash(newPassword)))];
    TokenModule.Delete(s, holder.value);
    DeletedTokenNeverVerifies(TokensAfterVerify(saved.tokens, s.clock, token, Literals.PasswordReset), s.tokenHash, s.clock, token, Literals.PasswordReset, holder.value);
    r := Ok(Success);
  }
}
