/**
 * The application settings the core reads (backend/core/config/setting.ts),
 * passed to every operation as a value. Durations are in milliseconds.
 */
module Settings {
  import opened Wrappers

  datatype Settings = Settings(
    signInActive: bool,
    signUpActive: bool,
    workspaceMax: int,
    blogMax: int,
    sessionMax: int,
    sessionExpiresIn: Option<int>,
    verificationEnabled: bool,
    verificationExpiresIn: Option<int>,
    passwordResetExpiresIn: Option<int>)

  const Minute := 60 * 1000
  const Week := 7 * 24 * 60 * Minute

  /** The shipped configuration. */
  const Shipped := Settings(
    signInActive := true,
    signUpActive := true,
    workspaceMax := 5,
    blogMax := 20,
    sessionMax := 2,
    sessionExpiresIn := Some(Week),
    verificationEnabled := true,
    verificationExpiresIn := Some(15 * Minute),
    passwordResetExpiresIn := Some(15 * Minute))
}
