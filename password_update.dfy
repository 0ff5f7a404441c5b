/**
 * backend/core/app/controllers/customer/auth/password/update_controller.ts:
 * the signed-in user changes their password, proving they know the old one.
 * `userIndex` locates the authenticated user's row in the user table.
 */
module PasswordUpdate {
  import opened Wrappers
  import opened Literals
  import opened Records
  import opened Store
  import opened HttpException
  import opened ParseError
  import opened CrossField

  const WrongOldPassword := "The old password you entered is incorrect."
  const Success := "Your password has been updated successfully."

  const OldPasswordIncorrect := Http(BadRequest(WrongOldPassword, NoOptions.(source := Some("oldPassword"))))

  /** The reply: the user after the change and the message. */
  datatype Reply = Reply(user: User, message: string)

  /** The input schema's two cross-field rules, reported together in field order. */
  function Invalid(oldPassword: string, newPassword: string, confirmNewPassword: string): (errors: seq<ValidationError>)
    ensures errors == [] <==> newPassword != oldPassword && confirmNewPassword == newPassword
    ensures newPassword == oldPassword ==> errors[0].field == "newPassword" && errors[0].rule == "notSameAs"
    ensures confirmNewPassword != newPassword ==> errors[|errors| - 1].field == "confirmNewPassword" && errors[|errors| - 1].rule == "sameAs"
  {
    NotSameAs("newPassword", newPassword, "oldPassword", oldPassword) + SameAs("confirmNewPassword", confirmNewPassword, "newPassword", newPassword)
  }

  /** `hash.verify`: a user without a stored password never matches. */
  predicate Matches(stored: Option<Digest>, passwordHash: string -> Digest, password: string)
  {
    stored == Some(passwordHash(password))
  }

  method Handle(s: Store, userIndex: nat, oldPassword: string, newPassword: string, confirmNewPassword: string) returns (r: Result<Reply, Thrown>)
    requires userIndex < |s.users|
    modifies s
    ensures Invalid(oldPassword, newPassword, confirmNewPassword) != [] ==> r == Err(VineValidation(Invalid(oldPassword, newPassword, confirmNewPassword)))
    ensures Invalid(oldPassword, newPassword, confirmNewPassword) == [] && !Matches(old(s.users[userIndex].password), s.passwordHash, oldPassword) ==>
      r == Err(OldPasswordIncorrect)
    ensures r.Ok? <==> Invalid(oldPassword, newPassword, confirmNewPassword) == [] && Matches(old(s.users[userIndex].password), s.passwordHash, oldPassword)
    ensures r.Err? ==> s.users == old(s.users)
    ensures r.Ok? ==>
      s.users == old(s.users)[userIndex := old(s.users[userIndex]).(password := Some(s.passwordHash(newPassword)))] &&
      r.value == Reply(s.users[userIndex], Success)
    ensures r.Ok? ==> Matches(s.users[userIndex].password, s.passwordHash, newPassword)
    ensures s.workspaces == old(s.workspaces) && s.members == old(s.members) && s.blogs == old(s.blogs) && s.tokens == old(s.tokens)
    ensures s.nextId == old(s.nextId) && s.clock == old(s.clock) && s.mails == old(s.mails) && s.expiredCaches == old(s.expiredCaches)
  {
    var invalid := Invalid(oldPassword, newPassword, confirmNewPassword);
    if invalid != [] {
      return Err(VineValidation(invalid));
    }
    if !Matches(s.users[userIndex].password, s.passwordHash, oldPassword) {
      return Err(OldPasswordIncorrect);
    }
    s.users := s.users[userIndex := s.users[userIndex].(password := Some(s.passwordHash(newPassword)))];
    r := Ok(Reply(s.users[userIndex], Success));
  }
}
