# LocalSpace core, modelled in Dafny

LocalSpace is a multi-tenant SaaS backend. A customer signs up, which creates
an account, a personal workspace with the customer as its owner, and
(optionally) an email-verification token. Workspaces have members with the
roles `owner`, `manager`, `editor` and `viewer`. A membership row is active
while `joinedAt` is set and `leftAt` is not. Blogs belong to a workspace and
move between `draft`, `published` and `archived`. Allow/deny policies decide
who may do what. Opaque, hashed, expiring tokens carry sessions, email
verification and password resets.

The model covers:

- **Value sets and guards.** The literal lists and their `*E` guards, `oneOf`
  and `exclude`, and the member-role validators.
- **Read-only domain logic.** Blog status getters, token expiry, the
  workspace member lookups, the active-member and blog counts, the
  owned-workspace count, and the blog and workspace policies.
- **The authentication middleware's role gate.**
- **The token module.** `create` with `deleteIfExists`, `verify` with its
  `lastUsedAt` write, `delete`, and the token holder.
- **The auth controllers and the membership and blog controllers of the workspace area:**
  - sign-in, with oldest-first session eviction;
  - sign-up, email verification and resend;
  - forgot, reset and update password;
  - workspace creation and ownership transfer;
  - member add, role change and removal, and leaving a workspace;
  - blog creation, update, deletion and unpublishing.
- **Small `node_lib` utilities.** `iLike`, `DBReference.create`, the
  transformer `pick`/`omit`, the `JSONColumn` hooks, `parseError` and the
  `HTTPException` constructor, `report`, `handle` and `toJSON`.
- **The UI's `handleError` router.** It sends an error either to form
  fields or to notifications.

## How the model is built

Most source files become one Dafny module named after the file, and each
module's leading comment names the file it models. A few are named after
what they hold: `SignUp` (signup_controller.ts), `MemberValidators`
(validators/workspace_member.ts), `JsonColumn` (columns/json.ts) and the
controller modules such as `MemberCreate` or `BlogDelete`. Some modules have
no source file of their own: `Store` and `Records` hold what the
controllers share, `Membership` lemmas relating the controllers' row
lookups to the policies' `getMember`, and `Authorization` the answer of a
policy action and the role order the policies read.

**The store.** The database is the class `Store.Store`. Its fields are the
tables (`users`, `workspaces`, `members`, `blogs`, `tokens`), a next-id
counter and a clock. Two logs stand in for side effects: queued mails and
expired member caches. The hash functions for tokens and
passwords are constructor parameters; they are left uninterpreted.
`Snapshot()` returns the tables as one value of type `Tables`. A database
transaction becomes a snapshot taken at the start and restored on any error.

**Controllers.** Each workspace controller has two parts:

- a pure outcome function over `Tables`, for example `MemberUpdate.RoleChange`
  or `BlogDelete.Deletion`. It returns the new tables or the error thrown, in
  the order the controller checks things;
- a `Handle` method that changes the store. Its `ensures` ties the result
  and the new snapshot to that function.

Lemmas about the outcome functions state what the controller promises:

- which rows change and which stay the same;
- that the store invariant `TablesValid` is kept. It says every id, and
  every id a member row refers to, is below the counter, there is one row
  per (user, workspace), and a workspace has at most one owner row;
- that roles and counts evolve as the source intends.

Code that loops (sign-in's oldest-first eviction, the `handleError`
router, the attaching of column properties in `DBReference.create`) becomes
methods with loops proved against specification functions. The token
module's `create`, `verify` and `delete` run straight through and are
methods over the store whose `ensures` give the new state.

**Errors.** The source throws exceptions. Here they are the datatype
`Records.Thrown`, and `ParseError.Parse` maps each one to the HTTP exception
the client receives.

**Requests.** The authenticated user is given as an id, or as an index into
`users` where the controller reads its row. The rate limiter is a boolean
flag. Random secrets are parameters.

## Model

| member | source | states |
|---|---|---|
| Literals.ParseDirection | backend/core/types/literals.ts:5 | a string names a direction exactly when it is in `directionC` (`asc`, `desc`), and the name maps back to it |
| Literals.DirectionE | backend/core/types/literals.ts:9 | the guard accepts exactly `asc` and `desc` and returns its input unchanged |
| Literals.ParseTokenType | backend/core/types/literals.ts:13 | the token types are exactly the names in `tokenTypeC` |
| Literals.TokenTypeE | backend/core/types/literals.ts:17 | accepts exactly `access`, `email_verification`, `password_reset` |
| Literals.ParseCredentialType | backend/core/types/literals.ts:21 | the credential types are exactly the names in `credentialTypeC` |
| Literals.CredentialTypeE | backend/core/types/literals.ts:25 | accepts exactly `email` |
| Literals.ParseCredentialStatus | backend/core/types/literals.ts:29 | the credential statuses are exactly the names in `credentialStatusC` |
| Literals.CredentialStatusE | backend/core/types/literals.ts:33 | accepts exactly `active`, `bounced`, `complained` |
| Literals.ParseRole | backend/core/types/literals.ts:37 | the user roles are exactly the names in `roleC` |
| Literals.RoleE | backend/core/types/literals.ts:41 | accepts exactly `admin` and `customer` |
| Literals.ParseMemberRole | backend/core/types/literals.ts:45 | the member roles are exactly the names in `workspaceMemberRoleC` |
| Literals.WorkspaceMemberRoleE | backend/core/types/literals.ts:49 | accepts exactly `owner`, `editor`, `manager`, `viewer` |
| Literals.ParseBlogStatus | backend/core/types/literals.ts:53 | the blog statuses are exactly the names in `blogStatusC` |
| Literals.BlogStatusE | backend/core/types/literals.ts:57 | accepts exactly `draft`, `published`, `archived` |
| Literals.NamesRoundTrip | backend/core/types/literals.ts:5-57 | every enum value's name parses back to that value, for all seven lists |
| OneOf.Distinct | packages/lib/src/one_of.ts:10 | the Set built from the list has the same elements and no repeats |
| OneOf.Check | packages/lib/src/one_of.ts:8-20 | succeeds exactly when the value is in the list, returning the value; otherwise fails with the `Invalid value` message |
| OneOf.MessageNamesValueAndAllowed | packages/lib/src/one_of.ts:15-16 | the error message begins with the quoted value and contains every allowed value |
| OneOf.AcceptanceIgnoresOrderAndRepeats | packages/lib/src/one_of.ts:10 | two lists with the same elements accept the same values |
| Exclude.Exclude | packages/lib/src/exclude.ts:13 | the result lacks the value, keeps every other element, has length minus the occurrences, and has nothing new |
| Exclude.ExcludeKeepsOrder | packages/lib/src/exclude.ts:13 | each kept element sits at its old index minus the occurrences before it: the order is kept |
| Exclude.ExcludeAbsent | packages/lib/src/exclude.ts:9-14 | excluding an absent value returns the list unchanged |
| Exclude.ExcludeMultiset | packages/lib/src/exclude.ts:13 | the result is the list's multiset with the value's count set to zero |
| MemberValidators.UpdatableRoleList | backend/core/app/validators/workspace_member.ts:7 | the updatable roles are `editor`, `manager`, `viewer` in that order |
| MemberValidators.WorkspaceMemberRoleS | backend/core/app/validators/workspace_member.ts:5 | accepts exactly the four member roles |
| MemberValidators.WorkspaceMemberUpdatableRoleS | backend/core/app/validators/workspace_member.ts:7 | accepts exactly editor, manager and viewer; never `owner`; every accepted role is a member role |
| MemberValidators.ParseUpdatableRole | backend/core/app/validators/workspace_member.ts:7 | the parsed role is never Owner and names the input |
| MemberValidators.OptionalUpdatableRole | backend/core/app/controllers/customer/workspace/member/create_controller.ts:20 | an absent or empty role passes as absent; a present one passes exactly when updatable, else an enum error on `role` |
| MemberValidators.RequiredUpdatableRole | backend/core/app/controllers/customer/workspace/member/update_controller.ts:17 | an absent role is a required error; a present one passes exactly when updatable; the result is never Owner |
| Records.ExactlyOneStatus | backend/core/app/models/blog.ts:66-76 | `isDraft`, `isPublished`, `isArchived` each hold exactly for their status, and exactly one holds |
| Records.ExpiryBoundary | backend/core/app/models/token.ts:52-54 | a token without expiry never expires; one expiring now is not expired; expired exactly when strictly before now |
| Records.ExpiryIsPermanent | backend/core/app/models/token.ts:53 | once expired, a token stays expired as the clock advances |
| WorkspaceHelper.ActiveMembers | backend/core/app/helper/workspace.ts:7-13 | holds exactly the rows of the workspace with `joinedAt` set and `leftAt` unset |
| WorkspaceHelper.PublishedCountZero | backend/core/app/helper/workspace.ts:15-22 | the published count is 0 exactly when no blog of the workspace is published |
| WorkspaceHelper.BlogCountZero | backend/core/app/helper/workspace.ts:24-30 | the blog count is 0 exactly when the workspace has no blog |
| WorkspaceHelper.BlogCountSumsStatuses | backend/core/app/helper/workspace.ts:24-30 | the blog count is the sum of the draft, published and archived counts |
| WorkspaceHelper.PublishedAtMostBlogCount | backend/core/app/helper/workspace.ts:15-30 | the published count never exceeds the blog count |
| UserHelper.OwnedWorkspaceCount | backend/core/app/helper/user.ts:7-14 | counts the user's `owner` rows, at most the number of rows, and is 0 exactly when the user owns no row |
| UserHelper.AppendCount | backend/core/app/helper/user.ts:11 | appending a row adds one exactly when it is an owner row of the user |
| UserHelper.AddNonOwnerKeepsCount | backend/core/app/helper/user.ts:11 | adding a non-owner row leaves every user's count unchanged |
| UserHelper.DatesDoNotCount | backend/core/app/helper/user.ts:9-12 | changing `joinedAt` or `leftAt` never changes the count |
| WorkspaceModel.FindByUser | backend/core/app/models/workspace.ts:63-67 | finds a row of the user in the list, or nothing exactly when no row has that user |
| WorkspaceModel.GetMember | backend/core/app/models/workspace.ts:63-67 | returns an active row of the workspace for the user, or nothing exactly when there is none |
| WorkspaceModel.GetMemberIsFirst | backend/core/app/models/workspace.ts:63-67 | the row returned is the first active row of the user |
| WorkspaceModel.GetMemberOrFail | backend/core/app/models/workspace.ts:69-77 | fails with NotFound and the user's id in the message exactly when `getMember` finds nothing |
| WorkspaceModel.MemberHasRole | backend/core/app/models/workspace.ts:79-85 | false without an active row or with no roles; otherwise true exactly when the row's role is listed |
| WorkspaceModel.MemberHasRoleMonotone | backend/core/app/models/workspace.ts:84 | enlarging the role list never turns true into false |
| WorkspaceModel.ActiveRole | backend/core/app/models/workspace.ts:79-85 | the active role exists exactly when `getMember` finds a row, and `memberHasRole` is membership of it in the list |
| Membership.ActiveRowIsGetMember | backend/core/app/models/workspace.ts:63-67 | the store's first active row is the member `getMember` returns |
| Membership.RoleShows | backend/core/app/controllers/customer/workspace/member/update_controller.ts:49-51 | after setting the role on the active row, the member's active role is the new role |
| Membership.LeftLosesAccess | backend/core/app/controllers/customer/workspace/member/delete_controller.ts:42-44 | setting `leftAt` on the only row of the pair leaves the user without an active role |
| Membership.MarkedLeft | backend/core/app/controllers/customer/workspace/profile/leave_controller.ts:38-40 | marking a row left removes that user's access only, keeps every owned count and keeps the store valid |
| Membership.NonOwnerRoleKeepsValid | backend/core/app/controllers/customer/workspace/member/update_controller.ts:49-51 | giving a row a non-owner role keeps the store valid |
| Store.MemberRowIsOnly | backend/core/database/migrations/1757400000002_create_workspace_members_table.ts:30 | with (user, workspace) unique, the row found for the pair is the only one |
| Authorization.FromBool | backend/core/app/policies/workspace_policy.ts:7-9 | a boolean policy allows exactly when true and otherwise denies without a reason |
| Authorization.Authorize | backend/core/app/controllers/customer/workspace/transfer_controller.ts:30 | passes exactly on Allow; a deny throws an authorization failure with its reason; an error rethrows its message |
| Authorization.RefusalStatus | backend/core/app/controllers/customer/workspace/transfer_controller.ts:30 | a denied action answers 403, a policy error 500 |
| BlogPolicy.CheckWorkspace | backend/core/app/policies/blog_policy.ts:8-17 | no decision exactly when the blog is in the workspace, otherwise the mismatch error |
| BlogPolicy.Create | backend/core/app/policies/blog_policy.ts:19-21 | allows exactly active owners, managers and editors |
| BlogPolicy.View | backend/core/app/policies/blog_policy.ts:23-27 | a foreign blog is an error; otherwise allows exactly owners, managers and editors |
| BlogPolicy.Update | backend/core/app/policies/blog_policy.ts:29-43 | a foreign blog is an error; the role is checked first (plain deny); then only drafts, else deny with the not-draft reason |
| BlogPolicy.Delete | backend/core/app/policies/blog_policy.ts:45-59 | as update: editor or above, and only a draft |
| BlogPolicy.Publish | backend/core/app/policies/blog_policy.ts:61-75 | manager or above, and only a draft |
| BlogPolicy.Unpublish | backend/core/app/policies/blog_policy.ts:77-91 | manager or above, on any non-draft blog, archived included |
| BlogPolicy.Archive | backend/core/app/policies/blog_policy.ts:93-107 | manager or above, and only a published blog |
| BlogPolicy.EditorsNeverChangeStatus | backend/core/app/policies/blog_policy.ts:61-107 | an editor or viewer can never publish, unpublish or archive |
| BlogPolicy.PermissionsNest | backend/core/app/policies/blog_policy.ts:23-75 | publish implies update, update implies view, and update and delete always agree |
| BlogPolicy.StatusActionsExclusive | backend/core/app/policies/blog_policy.ts:61-107 | no blog can be both publishable and archivable, or publishable and unpublishable |
| WorkspacePolicy.View | backend/core/app/policies/workspace_policy.ts:7-9 | allows exactly users with an active membership |
| WorkspacePolicy.Update | backend/core/app/policies/workspace_policy.ts:11-13 | allows exactly active owners and managers |
| WorkspacePolicy.Delete | backend/core/app/policies/workspace_policy.ts:15-37 | denies non-owners, then any published blog (with the count), then owners of fewer than 2 workspaces; allows exactly when all pass |
| WorkspacePolicy.Transfer | backend/core/app/policies/workspace_policy.ts:39-41 | allows exactly the active owner |
| WorkspacePolicy.ManageMembers | backend/core/app/policies/workspace_policy.ts:43-45 | allows exactly active owners and managers |
| WorkspacePolicy.OwnerPowersNest | backend/core/app/policies/workspace_policy.ts:7-45 | delete implies transfer, transfer implies manage members, manage equals update, update implies view |
| WorkspacePolicy.ActiveOwnerOwnsOne | backend/core/app/policies/workspace_policy.ts:15-37 | an active owner owns at least one workspace |
| AuthMiddleware.Handle | backend/core/app/middleware/auth_middleware.ts:11-29 | unauthenticated is 401; without `roles` any user passes; with `roles` passes exactly when the user's role is listed, else 403 |
| AuthMiddleware.EmptyRolesForbidEveryone | backend/core/app/middleware/auth_middleware.ts:20-26 | an empty role list lets nobody through |
| AuthMiddleware.AuthenticationComesFirst | backend/core/app/middleware/auth_middleware.ts:18 | without a user the answer is 401 whatever the roles |
| TokenCodec.Decode | backend/core/app/modules/token_module.ts:134-138 | a decoded value starts with the prefix and ends with its non-empty secret |
| TokenCodec.DecodeEncode | backend/core/app/modules/token_module.ts:134-138 | decoding an encoded (id, secret) gives them back |
| TokenCodec.WrongPrefixRejected | backend/core/app/modules/token_module.ts:134-138 | a value without the `at_` prefix never decodes |
| TokenModule.HolderOf | backend/core/app/modules/token_module.ts:117-127 | the holder carries the record's id, user, type, hash and expiry, with the in-memory secret |
| TokenModule.Value | backend/core/app/modules/token_module.ts:63 | a holder has a value exactly when it has a secret, and it starts with the prefix |
| TokenModule.GetValueOrFail | backend/core/app/modules/token_module.ts:42-47 | returns the value exactly when there is one, else throws |
| TokenModule.Serialize | backend/core/app/modules/token_module.ts:49-55 | succeeds exactly when there is a value; the type is `bearer` with the value and expiry |
| TokenModule.ReplaceExisting | backend/core/app/modules/token_module.ts:77-91 | removes only the first token of the (user, type) pair, if any |
| TokenModule.ReplaceExistingRemovesOne | backend/core/app/modules/token_module.ts:77-91 | the pair's token count drops by exactly one when positive, and at most one token goes |
| TokenModule.Create | backend/core/app/modules/token_module.ts:65-128 | throws exactly on an invalid expiry; otherwise appends a record with the secret's hash and a fresh id, after the `deleteIfExists` removal |
| TokenModule.Lookup | backend/core/app/modules/token_module.ts:134-152 | finds a record only for a decodable value, by its id and the requested type |
| TokenModule.VerifyOutcome | backend/core/app/modules/token_module.ts:130-175 | nothing without a record; otherwise the holder exactly when the secret hashes to the stored hash and the token is not expired |
| TokenModule.TokensAfterVerify | backend/core/app/modules/token_module.ts:154-156 | the found record's `lastUsedAt` becomes now and nothing else changes |
| TokenModule.Verify | backend/core/app/modules/token_module.ts:130-175 | returns the verification outcome and writes `lastUsedAt` as specified |
| TokenModule.WithoutId | backend/core/app/modules/token_module.ts:57-59 | drops exactly the records with the id and keeps the rest |
| TokenModule.Delete | backend/core/app/modules/token_module.ts:57-59 | the token table loses the holder's record and nothing else changes |
| TokenModule.IssuedTokenVerifies | backend/core/app/modules/token_module.ts:130-175 | a freshly issued, unexpired record verifies with its own value |
| TokenModule.DeletedTokenNeverVerifies | backend/core/app/modules/token_module.ts:57-59 | after deletion the value never verifies again |
| TokenModule.WrongSecretStillTouches | backend/core/app/modules/token_module.ts:154-156 | a wrong secret fails but still writes `lastUsedAt` |
| TokenModule.TypeIsChecked | backend/core/app/modules/token_module.ts:140-152 | a verified holder always has the requested type |
| TokenModule.IssuedValueDecodes | backend/core/app/modules/token_module.ts:63 | a holder's value decodes back to its id and secret |
| SignIn.Authenticate | backend/core/app/controllers/customer/auth/signin_controller.ts:41-77 | succeeds exactly for a known email with a matching password, and a verified user when verification is on |
| SignIn.SameAnswerForUnknownEmailAndWrongPassword | backend/core/app/controllers/customer/auth/signin_controller.ts:41-64 | an unknown email and a wrong password give the same response body |
| SignIn.Oldest | backend/core/app/controllers/customer/auth/signin_controller.ts:88-99 | picks one of the user's access tokens, and nothing exactly when the user has none |
| SignIn.OldestIsOldest | backend/core/app/controllers/customer/auth/signin_controller.ts:88-99 | the picked session has the least `createdAt`; sessions stored before it are strictly newer |
| SignIn.KeptWereThere | backend/core/app/controllers/customer/auth/signin_controller.ts:88-99 | eviction only deletes: every kept token was in the table |
| SignIn.OthersKept | backend/core/app/controllers/customer/auth/signin_controller.ts:88-99 | tokens of other users or types are never evicted |
| SignIn.EvictCount | backend/core/app/controllers/customer/auth/signin_controller.ts:84-99 | evicting k leaves max(0, n - k) sessions |
| SignIn.EvictOldestFirst | backend/core/app/controllers/customer/auth/signin_controller.ts:88-99 | every evicted session is no newer than every kept one |
| SignIn.FindOldest | backend/core/app/controllers/customer/auth/signin_controller.ts:88-99 | the loop finds the oldest session |
| SignIn.EvictOldest | backend/core/app/controllers/customer/auth/signin_controller.ts:88-99 | the store's tokens become the eviction of the k oldest sessions |
| SignIn.ToDelete | backend/core/app/controllers/customer/auth/signin_controller.ts:84-86 | zero exactly when under the cap; otherwise leaves room for exactly one new session |
| SignIn.Handle | backend/core/app/controllers/customer/auth/signin_controller.ts:25-121 | disabled, rate-limited and credential errors change nothing; once enabled, allowed and authenticated it succeeds exactly when the session expiry is a valid date (otherwise the invalid-expiration error); success evicts, issues a session and keeps at most `session.max` |
| CrossField.SameAs | backend/core/app/controllers/customer/auth/signup_controller.ts:22 | no error exactly when the two values are equal |
| CrossField.NotSameAs | backend/core/app/controllers/customer/auth/password/update_controller.ts:10 | no error exactly when the two values differ |
| CrossField.Complementary | backend/core/app/controllers/customer/auth/password/update_controller.ts:10 | on any pair of values exactly one of `sameAs` and `notSameAs` fails |
| SignUp.Register | backend/core/app/controllers/customer/auth/signup_controller.ts:27-123 | the refusals in order; success exactly when accepted, creating user, workspace, owner row and (when on) token and mail; errors change nothing |
| SignUp.Handle | backend/core/app/controllers/customer/auth/signup_controller.ts:80-87 | sign-up as written: the owner row has no `joinedAt` |
| SignUp.HandleJoined | backend/core/app/controllers/customer/auth/signup_controller.ts:80-87 | corrected sign-up: the owner row joins at creation |
| SignUp.SignedUpValid | backend/core/app/controllers/customer/auth/signup_controller.ts:61-104 | sign-up keeps the store valid |
| SignUp.NewUserFoundByEmail | backend/core/app/controllers/customer/auth/signup_controller.ts:61-71 | the new user is found by email, is a customer and is unverified |
| SignUp.OnlyRowOfNewWorkspace | backend/core/app/controllers/customer/auth/signup_controller.ts:73-87 | the owner row is the new workspace's only membership |
| SignUp.OwnerLockedOut | backend/core/app/controllers/customer/auth/signup_controller.ts:80-87 | as written, the new owner can neither view nor transfer their own workspace |
| SignUp.JoinedOwnerOwns | backend/core/app/controllers/customer/auth/signup_controller.ts:80-87 | corrected, the new user is its active owner and may view and transfer it |
| VerifyEmail.TokenUser | backend/core/app/controllers/customer/auth/verify_controller.ts:28-48 | the user a verified token points to, or nothing when the token fails or the user is gone |
| VerifyEmail.Handle | backend/core/app/controllers/customer/auth/verify_controller.ts:19-68 | disabled, invalid link and already verified are refusals that change nothing; success verifies and consumes the token so it never verifies again |
| VerifyResend.FirstUnverified | backend/core/app/controllers/customer/auth/verify_resend_controller.ts:23-26 | the first user with the email and no `verifiedAt` |
| VerifyResend.Handle | backend/core/app/controllers/customer/auth/verify_resend_controller.ts:23-51 | only for such a user is a token replaced and a mail queued; the reply is the same either way |
| VerifyResend.OneLiveVerificationToken | backend/core/app/controllers/customer/auth/verify_resend_controller.ts:28-46 | with at most one before, exactly one verification token remains |
| PasswordForgot.Handle | backend/core/app/controllers/customer/auth/password/forgot_controller.ts:22-48 | only for a known email is a reset token replaced and mailed; the reply is the same either way |
| PasswordForgot.MailedTokenResets | backend/core/app/controllers/customer/auth/password/forgot_controller.ts:26-44 | the mailed value verifies as a reset token and not as a verification token |
| PasswordReset.TokenUser | backend/core/app/controllers/customer/auth/password/reset_controller.ts:24-44 | the user a verified reset token points to, or nothing when the token fails or the user is gone |
| PasswordReset.Handle | backend/core/app/controllers/customer/auth/password/reset_controller.ts:14-60 | mismatched confirmation and bad tokens are refused unchanged; success sets the password and makes the token single-use |
| PasswordUpdate.Invalid | backend/core/app/controllers/customer/auth/password/update_controller.ts:10-11 | no errors exactly when the new password differs from the old and the confirmation matches |
| PasswordUpdate.Handle | backend/core/app/controllers/customer/auth/password/update_controller.ts:10-34 | a wrong old password is refused; success exactly when valid and matching, and the new password then matches |
| WorkspaceCreate.Handle | backend/core/app/controllers/customer/workspace/create_controller.ts:24-56 | refused exactly at the owned-workspace cap, changing nothing; otherwise creates the workspace and its owner row |
| WorkspaceCreate.CreationStaysUnderCap | backend/core/app/controllers/customer/workspace/create_controller.ts:24-46 | creating adds one owned workspace and stays within the cap |
| WorkspaceCreate.CreatorIsActiveOwner | backend/core/app/controllers/customer/workspace/create_controller.ts:33-46 | the creator is the active owner and the store stays valid |
| WorkspaceTransfer.Swapped | backend/core/app/controllers/customer/workspace/transfer_controller.ts:50-64 | only the two rows' roles may change |
| WorkspaceTransfer.Run | backend/core/app/controllers/customer/workspace/transfer_controller.ts:28-76 | succeeds exactly when every guard passes, otherwise ends with the first guard's error (not found, not owner, target not active, target's user gone, target at cap) and changes nothing; success swaps roles and expires the cache |
| WorkspaceTransfer.Handle | backend/core/app/controllers/customer/workspace/transfer_controller.ts:50-64 | the transfer as written: succeeds exactly when every guard passes, refusals change nothing; the owner save sends nothing when the target row was loaded as owner already, so on a self-transfer the manager write stands |
| WorkspaceTransfer.HandleCorrected | backend/core/app/controllers/customer/workspace/transfer_controller.ts:50-64 | the corrected transfer succeeds exactly when every guard passes, refusals change nothing, and success keeps the store valid |
| WorkspaceTransfer.AllowedOwnerRow | backend/core/app/controllers/customer/workspace/transfer_controller.ts:30 | an allowed actor has the owner row |
| WorkspaceTransfer.CorrectedSwap | backend/core/app/controllers/customer/workspace/transfer_controller.ts:50-64 | the old owner becomes manager and the target owner |
| WorkspaceTransfer.CorrectedKeepsValid | backend/core/app/controllers/customer/workspace/transfer_controller.ts:50-64 | the swap keeps the store valid, one owner included |
| WorkspaceTransfer.OwnerOnlyAt | backend/core/app/controllers/customer/workspace/transfer_controller.ts:50-64 | after the swap the target is the workspace's only owner |
| WorkspaceTransfer.SelfTransferLeavesNoOwner | backend/core/app/controllers/customer/workspace/transfer_controller.ts:50-64 | as written, transferring to oneself leaves the workspace with no owner |
| WorkspaceTransfer.SelfTransferExample | backend/core/app/controllers/customer/workspace/transfer_controller.ts:50-64 | a one-member workspace whose owner transfers to themself can no longer be transferred |
| WorkspaceTransfer.CorrectedSelfTransferKeepsOwner | backend/core/app/controllers/customer/workspace/transfer_controller.ts:50-64 | corrected, a self-transfer keeps the owner |
| WorkspaceTransfer.AsWrittenAgreesOffSelf | backend/core/app/controllers/customer/workspace/transfer_controller.ts:50-64 | for two distinct members the two versions agree |
| MemberCreate.FirstVerified | backend/core/app/controllers/customer/workspace/member/create_controller.ts:31-38 | the first verified user with the email, or nothing exactly when there is none |
| MemberCreate.Join | backend/core/app/controllers/customer/workspace/member/create_controller.ts:40-62 | refused with "already a member" exactly when the row is active |
| MemberCreate.Add | backend/core/app/controllers/customer/workspace/member/create_controller.ts:20-62 | the refusals in order: role validation, workspace, manage permission, verified user |
| MemberCreate.Handle | backend/core/app/controllers/customer/workspace/member/create_controller.ts:20-66 | the store follows `Add`: unchanged on error; on success the new tables and the cache expired |
| MemberCreate.RefusedExactlyActive | backend/core/app/controllers/customer/workspace/member/create_controller.ts:46-49 | the refusal happens exactly for an active member |
| MemberCreate.JoinedRow | backend/core/app/controllers/customer/workspace/member/create_controller.ts:51-62 | a left row is reactivated with its role kept; otherwise a new row with the role or `viewer` and no `joinedAt` |
| MemberCreate.JoinKeepsOwnership | backend/core/app/controllers/customer/workspace/member/create_controller.ts:51-62 | no one's owned count changes |
| MemberCreate.AddKeepsValid | backend/core/app/controllers/customer/workspace/member/create_controller.ts:20-62 | adding a member keeps the store valid and every owned count |
| MemberUpdate.RoleChange | backend/core/app/controllers/customer/workspace/member/update_controller.ts:17-51 | the refusals in order: role, workspace, permission, self, target not active, target is owner |
| MemberUpdate.Handle | backend/core/app/controllers/customer/workspace/member/update_controller.ts:17-55 | the store follows `RoleChange`; the cache expires on success |
| MemberUpdate.RoleChangeEffect | backend/core/app/controllers/customer/workspace/member/update_controller.ts:49-53 | only the target's role changes, to a non-owner role, and owned counts are kept |
| MemberUpdate.RoleChangeKeepsValid | backend/core/app/controllers/customer/workspace/member/update_controller.ts:49-51 | a role change keeps the store valid |
| MemberDelete.Removal | backend/core/app/controllers/customer/workspace/member/delete_controller.ts:24-44 | the refusals in order: workspace, permission, self, target not active |
| MemberDelete.Handle | backend/core/app/controllers/customer/workspace/member/delete_controller.ts:24-48 | the store follows `Removal`; the cache expires on success |
| MemberDelete.RemovalEffect | backend/core/app/controllers/customer/workspace/member/delete_controller.ts:42-44 | only the target's row gets `leftAt`; only they lose access; owned counts and validity are kept |
| MemberDelete.ManagerRemovesOwner | backend/core/app/controllers/customer/workspace/member/delete_controller.ts:34-44 | a manager may remove the owner, leaving the workspace with no active owner |
| WorkspaceLeave.Leaving | backend/core/app/controllers/customer/workspace/profile/leave_controller.ts:24-40 | not found, not a member, then refused exactly for the owner |
| WorkspaceLeave.Handle | backend/core/app/controllers/customer/workspace/profile/leave_controller.ts:24-44 | the store follows `Leaving`; the cache expires on success |
| WorkspaceLeave.LeavingEffect | backend/core/app/controllers/customer/workspace/profile/leave_controller.ts:38-40 | only the leaver's row gets `leftAt`; the owner is unchanged; counts and validity are kept |
| BlogCreate.Creation | backend/core/app/controllers/customer/workspace/blog/create_controller.ts:26-45 | not found, not editor, then refused exactly at the blog cap over all statuses |
| BlogCreate.Handle | backend/core/app/controllers/customer/workspace/blog/create_controller.ts:26-49 | the store follows `Creation`, returning the new blog |
| BlogCreate.CreationEffect | backend/core/app/controllers/customer/workspace/blog/create_controller.ts:38-45 | appends one draft authored by the creator's membership; counts rise by one within the cap |
| BlogUpdate.Given | backend/core/app/controllers/customer/workspace/blog/update_controller.ts:32-38 | a provided non-empty field replaces the current one, otherwise it is kept |
| BlogUpdate.Edit | backend/core/app/controllers/customer/workspace/blog/update_controller.ts:22-40 | the blog is found only in its workspace; refused exactly when the update policy does not allow |
| BlogUpdate.Handle | backend/core/app/controllers/customer/workspace/blog/update_controller.ts:22-44 | the store follows `Edit`, returning the updated blog |
| BlogUpdate.EditEffect | backend/core/app/controllers/customer/workspace/blog/update_controller.ts:32-40 | only title and content of that blog change; status stays draft |
| BlogUpdate.OnlyDraftsEdited | backend/core/app/controllers/customer/workspace/blog/update_controller.ts:30 | a published or archived blog is never updated |
| BlogDelete.Deletion | backend/core/app/controllers/customer/workspace/blog/delete_controller.ts:20-30 | found only in its workspace; refused exactly when the delete policy does not allow |
| BlogDelete.Handle | backend/core/app/controllers/customer/workspace/blog/delete_controller.ts:20-32 | the store follows `Deletion` |
| BlogDelete.DeletionEffect | backend/core/app/controllers/customer/workspace/blog/delete_controller.ts:30 | exactly that draft is removed; draft count drops by one, the others stay |
| BlogUnpublish.Unpublishing | backend/core/app/controllers/customer/workspace/blog/unpublish_controller.ts:20-32 | found only in its workspace; refused exactly when the unpublish policy does not allow |
| BlogUnpublish.Handle | backend/core/app/controllers/customer/workspace/blog/unpublish_controller.ts:20-36 | the store follows `Unpublishing`, returning the blog |
| BlogUnpublish.UnpublishingEffect | backend/core/app/controllers/customer/workspace/blog/unpublish_controller.ts:30-32 | only the status changes, to draft; one blog moves to the draft count |
| InsensitiveLike.LowerChar | packages/node_lib/src/insensitive_like.ts:25 | upper-case ASCII letters map to lower case, everything else is unchanged |
| InsensitiveLike.Lower | packages/node_lib/src/insensitive_like.ts:25 | same length, each character lowered |
| InsensitiveLike.ILike | packages/node_lib/src/insensitive_like.ts:23-26 | the fragment is `LOWER(<column>) LIKE ?` with one binding `%<lowered value>%` |
| InsensitiveLike.LowerIdempotent | packages/node_lib/src/insensitive_like.ts:25 | lowering twice is lowering once |
| InsensitiveLike.SameForLowerCase | packages/node_lib/src/insensitive_like.ts:25 | the result is the same for the value and its lower case |
| InsensitiveLike.CaseBlind | packages/node_lib/src/insensitive_like.ts:25 | values equal up to case give the same clause |
| InsensitiveLike.BindingIsLowerCase | packages/node_lib/src/insensitive_like.ts:25 | the binding has no upper-case letter and the column name is inserted unchanged |
| DbReference.Qualified | packages/node_lib/src/db_reference.ts:137-139 | `<table name>.<column name>` |
| DbReference.Pivot | packages/node_lib/src/db_reference.ts:168-174 | nothing exactly when neither is given; otherwise custom options over the configured ones |
| DbReference.Lookup | packages/node_lib/src/db_reference.ts:163-178 | a property exists exactly when it is an alias, a column key or `table` |
| DbReference.AttachColumnProperties | packages/node_lib/src/db_reference.ts:142-151 | the columns function gets exactly the column properties |
| DbReference.ColumnAliases | packages/node_lib/src/db_reference.ts:154-160 | the aliases are exactly `<key>C` and each maps to its key |
| DbReference.TableAccessor | packages/node_lib/src/db_reference.ts:163-178 | the accessor is the one `Lookup` describes |
| DbReference.SpreadDescribes | packages/node_lib/src/db_reference.ts:163-178 | spreading columns then aliases over `table` gives that accessor |
| DbReference.Create | packages/node_lib/src/db_reference.ts:124-185 | one accessor per table key, each describing its table |
| DbReference.AliasNameInjective | packages/node_lib/src/db_reference.ts:154-160 | different keys have different aliases |
| DbReference.AliasReadsKey | packages/node_lib/src/db_reference.ts:154-160 | an alias reads back as its column key |
| DbReference.ColumnReadsName | packages/node_lib/src/db_reference.ts:176 | a column key reads its column name unless shadowed by an alias |
| DbReference.TableEntryReadsMeta | packages/node_lib/src/db_reference.ts:164-166 | `table` holds the name, the pivot and the qualified-column function |
| DbReference.AliasShadowsColumn | packages/node_lib/src/db_reference.ts:176-177 | for every accessor, table entry and key `k`: when `k` and `k + "C"` are both column keys, reading `k + "C"` gives `k`, not its column name |
| BaseTransformer.Picked | packages/node_lib/src/base_transformer.ts:34-42 | exactly the requested keys the source has, with the source's values |
| BaseTransformer.Omitted | packages/node_lib/src/base_transformer.ts:51-57 | exactly the source's keys minus the listed ones, values unchanged |
| BaseTransformer.Pick | packages/node_lib/src/base_transformer.ts:34-42 | the loop builds `Picked` |
| BaseTransformer.Omit | packages/node_lib/src/base_transformer.ts:51-57 | deleting from a copy builds `Omitted` |
| BaseTransformer.PickOmitPartition | packages/node_lib/src/base_transformer.ts:34-57 | pick and omit of the same keys are disjoint and together the source |
| BaseTransformer.OmitAbsentKey | packages/node_lib/src/base_transformer.ts:53-55 | omitting an absent key is a no-op |
| BaseTransformer.Idempotent | packages/node_lib/src/base_transformer.ts:34-57 | picking or omitting twice equals once |
| BaseTransformer.OnlyKeySetMatters | packages/node_lib/src/base_transformer.ts:34-57 | the order and repetition of keys do not matter |
| JsonColumn.Prepare | packages/node_lib/src/columns/json.ts:47-53 | a falsy value stores null, anything else its serialization |
| JsonColumn.Consume | packages/node_lib/src/columns/json.ts:59-65 | null or empty text reads as null, other text is deserialized |
| JsonColumn.JSONColumn | packages/node_lib/src/columns/json.ts:25-69 | both hooks over the serializer in use; given hooks override them; other options pass through |
| JsonColumn.StoredAndRead | packages/node_lib/src/columns/json.ts:47-65 | writing then reading gives back a truthy value, and null for a falsy one |
| JsonColumn.DefaultsAreJson | packages/node_lib/src/columns/json.ts:39-40 | without a serializer the hooks call `stringify` and `parse` |
| JsonColumn.FalsyIsNull | packages/node_lib/src/columns/json.ts:47-61 | a falsy value is never stored as text, and null reads as null |
| ParseError.Parse | packages/node_lib/src/exceptions/parse_error.ts:36-63 | HTTP exceptions unchanged; validation is 422 with the messages; framework errors keep message, status, code, help; syntax errors and the rest are 500 |
| ParseError.ParseIdempotent | packages/node_lib/src/exceptions/parse_error.ts:37-38 | parsing a parsed error changes nothing |
| HttpException.Construct | packages/node_lib/src/exceptions/http_exception.ts:60-75 | a string is the message and the second argument the options; an options object means no message; fields copied; stack falls back to the default |
| HttpException.OptionsArgumentIgnoresSecond | packages/node_lib/src/exceptions/http_exception.ts:61-62 | with an options object first, the second argument is ignored |
| HttpException.BadRequest | packages/node_lib/src/exceptions/http_exception.ts:60-75 | status 400 with the message and source |
| HttpException.Forbidden | packages/node_lib/src/exceptions/http_exception.ts:60-75 | status 403 with the message |
| HttpException.NotFound | packages/node_lib/src/exceptions/http_exception.ts:60-75 | status 404 with the message |
| HttpException.Body | packages/node_lib/src/exceptions/http_exception.ts:84-94 | the response carries status, message, source, metadata, code and help |
| HttpException.BodyOmitsInternals | packages/node_lib/src/exceptions/http_exception.ts:84-94 | the response never depends on reason, stack or cause |
| HttpException.ReportLevel | packages/node_lib/src/exceptions/http_exception.ts:105-113 | warn exactly for 400–499, error exactly from 500, info otherwise |
| HttpException.ToJson | packages/node_lib/src/exceptions/http_exception.ts:121-132 | the JSON view carries status, message, stack and cause |
| HttpException.ToJsonOmitsReason | packages/node_lib/src/exceptions/http_exception.ts:121-132 | the JSON view never depends on the reason |
| HandleError.ParseField | packages/ui/src/lib/handle_error.ts:24-30 | fields starting with `params` unchanged, others prefixed with `payload.` |
| HandleError.ParseFieldInjective | packages/ui/src/lib/handle_error.ts:24-30 | different fields map to different form paths |
| HandleError.PayloadIsNotParams | packages/ui/src/lib/handle_error.ts:24-30 | a prefixed path never starts with `params` |
| HandleError.RouteEntry | packages/ui/src/lib/handle_error.ts:59-69 | a field error exactly when the form has the field, else a notification |
| HandleError.RouteMessage | packages/ui/src/lib/handle_error.ts:70-85 | the source routed like an entry; without a source a red `Error` notification |
| HandleError.RouteEach | packages/ui/src/lib/handle_error.ts:60-68 | the loop over the entries yields exactly their effects, in order |
| HandleError.Handle | packages/ui/src/lib/handle_error.ts:32-93 | the effects produced are the routing's, in order |
| HandleError.OtherErrorNotifiesOnce | packages/ui/src/lib/handle_error.ts:86-92 | a non-HTTP error gives only the unknown-error notification |
| HandleError.InvalidShapeNotifiesOnce | packages/ui/src/lib/handle_error.ts:42-49 | a bad response shape gives only the not-valid notification |
| HandleError.CallbackFirst | packages/ui/src/lib/handle_error.ts:53-55 | the callback comes first and only once |
| HandleError.RouteEntries | packages/ui/src/lib/handle_error.ts:59-69 | one effect per validation entry, in order, each that entry's routing |
| HandleError.EntriesRouting | packages/ui/src/lib/handle_error.ts:59-69 | one effect per entry, in order, each routed by whether the form has the field |
| HandleError.EmptyEntriesShowNothing | packages/ui/src/lib/handle_error.ts:59-69 | an empty entry list shows nothing |
| HandleError.NoFormNoFieldError | packages/ui/src/lib/handle_error.ts:32-93 | without a form no field error is ever set |

## Left out

- The workspace update (rename) and delete controllers and the list and
  show controllers (backend/core/app/controllers/customer/workspace/routes.ts:9-23)
  are not part of this model. They load one workspace and save or remove
  it behind `WorkspacePolicy.Update`/`Delete`, which are modelled; the
  delete controller's file is not part of this model.
- Hashing, random secrets and the token library's base64 encoding are not
  modelled. The hashes are uninterpreted functions, the secret is a
  parameter, and the token value is `at_` + decimal id + `.` + secret. Only
  the round trip and the prefix check of the encoding are relied on.
- The rate limiter is a boolean parameter. Mail and jobs are a log of queued
  mails. The member cache is a log of expired workspaces. `getMember` reads
  the current rows, so cache staleness is not modelled.
- Lucid queries, transactions and timestamps: a transaction is a snapshot
  restored on error. `createdAt` exists only on tokens, where sign-in's
  eviction orders sessions by it; `updatedAt` is not modelled.
- Vine validation is modelled only for the rules the controllers rely on:
  the role enums, `sameAs` and `notSameAs`. Email and length rules and the
  library's message texts are not modelled.
- The zod check of the structure in `DBReference.create`
  (packages/node_lib/src/db_reference.ts:126) is a Dafny type. Function
  properties such as `name` on the columns function are not modelled.
- `pick` and `omit` work on maps. JavaScript's prototype chain in `in` and
  object aliasing are not modelled. Because maps are values, "`omit` does not
  modify the source" holds by construction.
- `JSONColumn`: `JSON.stringify`/`JSON.parse` are parameters. Floating-point
  numbers are integers plus `NaN`. A driver handing `consume` a non-string
  value is not modelled.
- SignIn.Handle: sorting by `createdAt` and slicing is modelled as repeated
  removal of the oldest session. Ties keep the earlier token.
- InsensitiveLike.LowerChar: lowers ASCII letters only, not the full Unicode
  case mapping of `toLowerCase`.
- PasswordUpdate.Handle: a user without a password never matches the old
  password.
- The `NotFound`, `Forbidden` and `BadRequest` exception classes come from
  packages/node_lib/src/exceptions/list.ts, which is not part of this model.
  They are modelled by their status only.
- The list and show controllers, routes, configuration, React pages, cookies
  and caches are not part of this model.
- Preloaded relations that come back missing (for example a token whose user
  was deleted) are modelled as "no user", as the controllers treat them.

## Findings

| source | as written | input that shows it | evidently intended | confidence | as-written member | corrected member |
|---|---|---|---|---|---|---|
| backend/core/app/controllers/customer/workspace/transfer_controller.ts:50-64 | the owner's row is saved as `manager`, then the new owner's row, loaded earlier, is saved as `owner`. When both are the same row, that second save has no changed field and writes nothing, so the row stays `manager` and the workspace has no owner | an owner transfers the workspace to their own user id (an active member) | transferring to oneself keeps the owner; a real transfer leaves exactly one owner | not executed | WorkspaceTransfer.SelfTransferLeavesNoOwner | WorkspaceTransfer.CorrectedSelfTransferKeepsOwner |
| backend/core/app/controllers/customer/auth/signup_controller.ts:80-87 | the owner membership of the sign-up workspace is created without `joinedAt`, so it is not active | any successful sign-up | the new user is the active owner of their workspace, as with workspace creation | not executed | SignUp.OwnerLockedOut | SignUp.JoinedOwnerOwns |
