# Verified model of simple-idm-slim

A Dafny model of the identity service's state machines and text codecs, with proofs that hold for every input,
every run and every interleaving. The database is a record of in-memory tables. Each SQL statement is one atomic
step that reports what it changed; a committed transaction is one step. Each request is either a method on
mutable tables, proved equal to a function on table values, or a program counter over its statements, where a
schedule is any list of steps of any number of requests. Time is one integer clock, and the values the random
source draws never repeat. Argon2, HMAC-SHA256, the verdict of a TOTP code and RFC 3339 time text are parameters.

`dafny verify dfyconfig.toml` checks the whole project.

## Modules

| files | content |
|---|---|
| `Base64`, `Text`, `Phc` | password hashes in PHC text form: printing, lenient scanning, round trip |
| `OAuthState` | the signed OAuth state cookie |
| `RecoveryCodes` | generating, formatting, normalising and looking up recovery codes |
| `TokenTable`, `VerificationService`, `LatestToken`, `EmailProtocol` | one-shot tokens: the service, its ledger, its interleavings |
| `EmailVerified` | what the email_verified flag says while tokens are redeemed and profiles updated, and how long it stays |
| `MfaProtocol`, `MfaEvidence`, `LoginHandlers` | login with MFA as a concurrent protocol, what was shown for each token, and the handlers |
| `MfaEnrolment`, `MfaHistory` | setting up and disabling MFA, with storage failures in the middle |
| `EnrolmentRaces`, `EnrolmentAlone`, `EnrolmentOrder`, `EnrolmentPairs` | the same requests statement by statement: alone, and at the same time |
| `Lockout`, `PasswordService`, `PasswordHistory`, `LockoutRate` | registration, login and lockout, what they answer after any run, and the rate of attempts |
| `SessionTable`, `SessionService`, `SessionRuns`, `SessionLifetime` | sessions, garbage collection, token lifetimes |
| `PasswordReset`, `ResetRaces` | resetting a password, alone, among other requests, and against other resets |
| `GoogleAccounts`, `GoogleProtocol` | resolving a Google subject to an account |
| `Roles`, `RoleLaws`, `RoleHistory`, `RoleRaces` | roles and their assignment |
| `Prelude`, `Counting` | shared types, sizes of sets and sequences |

## Where the code does less than it promises

- A generated recovery code is stored as the hash of its dashed form under one salt and looked up by the hash of
  its undashed form under a new salt (pkg/auth/mfa.go:117-123, 261-270), so it is not found:
  `RecoveryCodes.LookupFindsIff` gives the exact condition and `RecoveryCodes.AtMostOneSaltFinds` counts the salts.
  The enrolment and login models therefore let the lookup return any row or none.
- `CreateMFAChallenge` inserts without revoking (pkg/auth/mfa.go:353), so a challenge that expired unused blocks
  every later one: `LatestToken.ExpiredChallengeBlocks`, with the shortest run in `LatestToken.SecondLoginBlocked`.
- `SetupTOTP` and `DisableMFA` open a transaction that their statements do not run in (pkg/auth/mfa.go:140-173,
  296-317): `MfaHistory.SetupConsistentIff` and `MfaHistory.DisableConsistentIff` say which failures in the middle
  leave the tables consistent.
- None of their statements is kept apart from those of another enrolment request: an enable can leave MFA on with no
  secret, and two setups sixteen codes, `EnrolmentRaces.EnabledWithoutSecret` and `EnrolmentRaces.SixteenCodes`.
  `EnrolmentOrder.ConsistentByOrder` gives the exact condition on the order of the statements for any number of such
  requests; `EnrolmentPairs.TwoSetups`, `SetupAndDisable` and `EnableAndDisable` spell it out for two.
- `ResetPassword` validates and consumes in separate steps (internal/http/features/password/handler.go:448-475): of any
  number of requests with one token those succeed that validate before the first of them consumes,
  `ResetRaces.SuccessesExactly`; so two can, as `ResetRaces.OneTokenTwoResets` shows.
- Redeeming an email token marks whatever address the account has by then as verified (pkg/auth/verification.go:134-147):
  `EmailVerified.GenuineExactlyWhen` says exactly in which runs a set flag speaks of the current address, and
  `EmailVerified.OldTokenVerifiesNewAddress` shows one in which it does not.
- A profile update writes back the email_verified it read (pkg/repository/users_repo.go:94-116), so a redemption can be
  lost: `EmailVerified.RedemptionStaysIff` says exactly when it is not, `EmailVerified.UpdateUndoesVerification` shows
  one that is. Another spelling of the same address also clears the flag, `EmailVerified.RespellingUnverifies`.
- A failed login whose counter statement fails is not counted (pkg/auth/password.go:209); `LockoutRate.RateBound` grows
  by those.
- Role replacements at the same time can leave a mixture of their lists (pkg/repository/roles_repo.go:151-167):
  `RoleRaces.Outcome` says exactly which, and `RoleRaces.OneListIff` when two leave the list of one.
- A redirect URI that contains `|` never survives the state cookie (internal/http/features/google/handler.go:175-181,
  256-261): `OAuthState.PackThenUnpack`.

## Model

| member | source | states |
|---|---|---|
| Base64.RoundTrip | pkg/auth/crypto.go:38-80 | decoding gives back every byte string, for the standard and URL alphabets, padded or not |
| Base64.EncodeAlphabet | internal/http/features/google/handler.go:52-56 | encoded text uses only the alphabet, so it never holds a `$` or a pipe character |
| Base64.EncodeExactly | pkg/auth/crypto.go:38-43 | the k-th character stands for the k-th 6 bits of the bytes taken in groups of 24, and padding fills up to a multiple of four (section 4 of RFC 4648) |
| Base64.AlphabetExactly | pkg/auth/crypto.go:38-43 | both alphabets by code point (sections 4 and 5 of RFC 4648) |
| Base64.DecodeExactly | pkg/auth/crypto.go:73-80 | a text decodes to these bytes iff without its line breaks it is their encoding, but for the bits of its last character that complete no byte |
| Base64.SkipsLineBreaks | internal/http/features/google/handler.go:253-254 | a carriage return or line feed anywhere does not matter, and every other character does |
| Text.ScanFieldText | pkg/auth/crypto.go:58-71 | scanning a literal and a printed number gives that number exactly when it fits its width, and what follows it |
| Text.SplitJoin | pkg/auth/crypto.go:47-51 | splitting joined parts that hold no separator gives the parts, for every limit that is large enough |
| Phc.DecodeParts | pkg/auth/crypto.go:46-80 | text of the hash's shape decodes iff its type is argon2id, its version 19 and its costs fit uint32, uint32 and uint8, whatever precedes the first `$` and trails the costs; then to exactly the values in it |
| Phc.RoundTrip | pkg/auth/crypto.go:38-80 | decode after encode returns hash, salt, time, memory and threads for all byte strings and all in-range costs |
| Phc.EncodeText | pkg/auth/crypto.go:38-43 | the text of a hash in full |
| Phc.EncodeInjective | pkg/auth/crypto.go:38-43 | two different sets of values never print alike |
| Phc.VerifyIffSameKey | pkg/auth/password.go:274-282 | a stored hash accepts exactly the passwords that derive the same key, for any key derivation of the right length; in particular the password itself |
| Phc.VerifyParts | pkg/auth/password.go:274-282 | text of the hash's shape accepts a password iff type, version and costs are right and the password derives the hash under its own salt, costs and length |
| Phc.OtherShapesRefused | pkg/auth/crypto.go:46-51 | text without exactly five `$` accepts no password |
| Phc.SameHashIff | pkg/auth/password.go:260-271 | two hashes are the same text iff salt and derived key are the same |
| OAuthState.PackThenUnpack | internal/http/features/google/handler.go:175-191 | nonce and redirect URI come back exactly and the expiry cut to the second iff the redirect URI holds no pipe character; otherwise the cookie is refused |
| OAuthState.CallbackAfterStart | internal/http/features/google/handler.go:144-203 | the whole trip from Start to Callback, for the first of redirect_uri, redirect_url and `/` that is given: exact recovery until the ten minutes end, expiry after, invalid state for a pipe character |
| OAuthState.UnpackAcceptsExactlySigned | internal/http/features/google/handler.go:248-283 | Callback accepts a cookie value iff it decodes to three pipe-free fields with a readable expiry, followed by the base64url of the MAC of these fields |
| OAuthState.AcceptedUnderIff | internal/http/features/google/handler.go:52-62 | what is packed under one key is accepted under another iff the redirect URI has no pipe character and both keys give the same MAC of nonce, redirect URI and expiry |
| RecoveryCodes.GenerateRecoveryCode | pkg/auth/mfa.go:467-483 | the in-place modulo loop leaves the mapped characters in the buffer and returns them in groups of four |
| RecoveryCodes.Format | pkg/auth/mfa.go:467-483 | three groups of four characters in order, with a dash after the first and the second |
| RecoveryCodes.Uniform | pkg/auth/mfa.go:467-483 | for every length n each string over the 32 characters comes from exactly 8^n of the 256^n buffers, and no other string from any |
| RecoveryCodes.NormalizeEqualIff | pkg/auth/mfa.go:260-261 | two inputs normalise alike iff they differ only in dashes, spaces and what upper-casing identifies, for any map of characters |
| RecoveryCodes.NormalizeAsciiIff | pkg/auth/mfa.go:260-261 | for ASCII inputs: iff they differ only in dashes, spaces and letter case |
| RecoveryCodes.NormalizeIdempotent | pkg/auth/mfa.go:260-261 | normalising twice is normalising once |
| RecoveryCodes.NormalizeUndoesFormat | pkg/auth/mfa.go:467-483 | normalising a generated code removes exactly the formatting |
| RecoveryCodes.LookupFindsIff | pkg/auth/mfa.go:259-274 | the lookup hash equals a stored hash iff the new salt is the stored one and the derived keys of two different texts coincide |
| RecoveryCodes.AtMostOneSaltFinds | pkg/auth/mfa.go:259-274 | of the 256^n salts the lookup may draw an input finds a generated code under at most the stored one, and under none unless the key of its dashed text is that of an undashed one |
| VerificationService.Database.InsertToken | pkg/repository/verification_tokens_repo.go:28-38 | the row goes in iff the foreign key, the unique hash and the one active row per user and kind allow it |
| VerificationService.Database.MarkTokenConsumed | pkg/repository/verification_tokens_repo.go:67-85 | consumes an unconsumed row and reports one row, else changes nothing and reports none |
| VerificationService.Database.RevokeActiveTokens | pkg/repository/verification_tokens_repo.go:93-101 | stamps every unconsumed row of the user and kind, leaves every other row as it was, removes none, and leaves no active row of that user and kind |
| VerificationService.Database.MarkEmailVerified | pkg/auth/verification.go:140-144 | sets the flag of that user and keeps every other, adding and removing no row |
| VerificationService.Service.CreateVerificationToken | pkg/auth/verification.go:66-114 | revoke and insert together, or nothing |
| VerificationService.Service.VerifyEmailToken | pkg/auth/verification.go:118-153 | classifies invalid, consumed and expired; otherwise consumes the token and verifies its user |
| VerificationService.Service.ValidatePasswordResetToken | pkg/auth/verification.go:157-173 | the same classification without consuming |
| VerificationService.Service.ConsumePasswordResetToken | pkg/auth/verification.go:176-192 | the same classification, then consumes |
| VerificationService.Service.CreateMFAChallenge | pkg/auth/mfa.go:325-358 | a plain insert that fails while any unconsumed challenge of the user exists |
| LatestToken.ServiceRefinesLedger | pkg/auth/verification.go:66-192 | in every run of whole requests every answer is that of a ledger holding only the newest token per user and kind: accepted iff newest, unspent and in time, else invalid, consumed or expired; creating never hits the partial unique index |
| LatestToken.ExpiredChallengeBlocks | pkg/auth/mfa.go:325-358 | after a challenge has expired unused, every later challenge for that user is refused in every run that does not delete the user |
| LatestToken.SecondLoginBlocked | pkg/auth/mfa.go:325-358 | the shortest such run |
| EmailProtocol.UsedAtMostOnce | pkg/auth/verification.go:99-152 | in every interleaving, profile updates included, at most one request redeems or supersedes a given token |
| EmailProtocol.TokenLeavesAtMostOnce | pkg/repository/verification_tokens_repo.go:67-101 | in every interleaving a token leaves the unconsumed state at most once |
| EmailProtocol.SuccessIsOneStep | pkg/auth/verification.go:135-150 | the step that makes a request succeed is the one that consumes the token and sets email_verified |
| EmailProtocol.CreationIsOneStep | pkg/auth/verification.go:66-114 | the step that makes a creation succeed supersedes exactly the user's active tokens of that kind and leaves its own as the only active one |
| EmailProtocol.SoloVerify | pkg/auth/verification.go:118-153 | a verifying request with nothing in between does what the service method does |
| EmailProtocol.SoloUpdate | internal/http/features/me/handler.go:96-146 | a profile update with nothing in between is saved iff no other account has its address; a new spelling becomes the address and clears the flag, and else both stay |
| EmailProtocol.UpdateReads | internal/http/features/me/handler.go:112-131 | a profile update is refused when it reads iff the account is missing or another account has the new address |
| EmailVerified.FlagFollowsHistory | internal/http/features/me/handler.go:96-146 | in every interleaving an account's email and email_verified are those of its history of writes: set by the provider or the latest redeemed token, cleared by a change of address, put back by a profile update to what it had read |
| EmailVerified.GenuineExactlyWhen | pkg/auth/verification.go:134-147 | in every run: in every state each set flag rests on proof of the account's current address, iff no step redeems a token that was mailed to an address the account no longer has |
| EmailVerified.ClearedExactlyBy | internal/http/features/me/handler.go:96-146 | in every reachable state a step clears the flag of an account that stays iff it saves a profile update that no other account's address refuses and that holds the flag cleared |
| EmailVerified.RedemptionStaysIff | pkg/repository/users_repo.go:94-116 | after a redemption, in every continuation that keeps the account: the flag is set in every state iff no profile update is saved that changes the address or that had read the row, not yet verified, before the redemption |
| EmailVerified.OldTokenVerifiesNewAddress | internal/http/features/me/handler.go:132-153 | an input: a token mailed to the old address, redeemed before the new one is created, verifies the new address |
| EmailVerified.RespellingUnverifies | internal/http/features/me/handler.go:124-138 | a profile update that only changes how the address is spelled clears the flag |
| EmailVerified.UpdateUndoesVerification | pkg/repository/users_repo.go:94-116 | an input: a profile update that changes no address undoes a redemption that succeeded meanwhile |
| MfaProtocol.Conservation | internal/http/features/mfa/handler.go:261-329 | in every interleaving: tokens with the MFA claim for MFA-enabled users <= challenges consumed <= challenges created <= correct passwords |
| MfaProtocol.MfaTokenHasPass | internal/http/features/mfa/handler.go:303-321 | in every interleaving such a token comes from a consumed challenge of that same user, created by a login that checked that user's password; refreshed tokens and other logins carry no claim |
| MfaProtocol.OneTokenPerPass | pkg/auth/mfa.go:361-389 | in every interleaving no challenge and no recovery code stands behind two tokens |
| MfaEvidence.EveryTokenEarned | internal/http/features/mfa/handler.go:274-321 | in every interleaving: behind a token with a second factor stands, after the step of its request that found the challenge open and the user's, one in which the TOTP code was right or the recovery code was found unused and the user's, and behind the challenge a login whose password was right and whose user had MFA on; behind one without, such a login of a user with MFA off, another login or a refresh |
| LoginHandlers.Handler.ValidateMFAChallenge | pkg/auth/mfa.go:361-377 | the user of a challenge that is unconsumed and in time, else none |
| LoginHandlers.Handler.VerifyRecoveryCode | pkg/auth/mfa.go:259-291 | accepts iff the row found belongs to the user and is unused, and then uses it up |
| LoginHandlers.Handler.ConsumeMFAChallenge | pkg/auth/mfa.go:380-389 | succeeds iff the challenge is still unconsumed |
| LoginHandlers.Handler.CreateMFAChallenge | pkg/auth/mfa.go:325-358 | inserts iff the constraints allow it |
| LoginHandlers.Handler.IssueSession | pkg/auth/session.go:371-413 | the minted claim is set iff the user has MFA off or a second factor was shown |
| LoginHandlers.Handler.Verify | internal/http/features/mfa/handler.go:261-329 | a token iff the challenge is unconsumed and in time, its user exists, and the TOTP code is right or the row looked up is an unused code of that user; the challenge and the code are then used up. The tables are those of the protocol's request with nothing in between |
| LoginHandlers.Handler.ShowFactor | internal/http/features/mfa/handler.go:286-304 | the same once the challenge is known to be valid: a right TOTP code, or else an unused recovery code |
| LoginHandlers.Handler.Finish | internal/http/features/mfa/handler.go:306-328 | the same from the second factor on: a token iff the challenge is still unconsumed and the user exists |
| LoginHandlers.Handler.Issue | pkg/auth/session.go:115-235 | the last two statements: a token iff the user still exists, with the claim iff MFA is off or a factor was shown |
| LoginHandlers.Handler.Login | internal/http/features/password/handler.go:205-313 | a token iff the password is right, the email may sign in and MFA is off; a challenge iff MFA is on and no challenge is open; the tables as the protocol's request leaves them with nothing in between |
| LoginHandlers.Handler.LoginOpened | internal/http/features/password/handler.go:236-313 | the same once the password is known to be right |
| MfaEnrolment.Service.DeleteAllSecrets | pkg/repository/mfa_secrets_repo.go:96-106 | deletes exactly the user's secrets, or fails and changes nothing |
| MfaEnrolment.Service.DeleteAllCodes | pkg/repository/mfa_recovery_codes_repo.go:130-140 | deletes exactly the user's codes, or fails and changes nothing |
| MfaEnrolment.Service.CreateSecret | pkg/repository/mfa_secrets_repo.go:23-40 | inserts iff the keys allow one more secret |
| MfaEnrolment.Service.CreateBatch | pkg/repository/mfa_recovery_codes_repo.go:23-63 | the insert loop puts in all codes or none |
| MfaEnrolment.Service.UpdateMfaEnabled | pkg/repository/users_repo.go:251-269 | sets the flag of an existing user, else reports the user missing |
| MfaEnrolment.Service.Setup | pkg/auth/mfa.go:77-180 | the whole setup, and what is left behind when the storage fails after any number of its statements, the commit included |
| MfaEnrolment.Service.Enable | pkg/auth/mfa.go:183-221 | turns MFA on iff there is a secret, the code is right and the first write gets through; a failing second write is reported with MFA on |
| MfaEnrolment.Service.VerifyTotp | pkg/auth/mfa.go:224-256 | accepts iff there is a secret, the code is right and noting its use gets through |
| MfaEnrolment.Service.VerifyRecoveryCode | pkg/auth/mfa.go:259-291 | uses up an unused code of the user, whatever row the lookup returned, or reports that the storage failed |
| MfaEnrolment.Service.Disable | pkg/auth/mfa.go:294-322 | removes secrets, codes and flag, or the part of it that came before a failure, the commit included |
| MfaEnrolment.Service.PostDisable | internal/http/features/mfa/handler.go:158-224 | password first, then TOTP or else a recovery code, then disabling and revoking every session, with the storage failing after any number of writes |
| MfaHistory.InsertCodesIff | pkg/repository/mfa_recovery_codes_repo.go:47-60 | the batch goes in iff its codes are distinct and new |
| MfaHistory.InsertCodesRows | pkg/repository/mfa_recovery_codes_repo.go:47-60 | it adds one unused row per code and changes no other |
| MfaHistory.EnrolmentInvariant | pkg/auth/mfa.go:77-408 | in every run of whole requests: no or one secret, eight codes a secret, MFA on only with a secret, unused codes plus uses since the latest setup are eight, and the status reports just that |
| MfaHistory.SetupExactly | pkg/auth/mfa.go:77-180 | a setup is refused for a missing user and while MFA is on, and else succeeds iff its statements and the commit get through, leaving the one new secret and the new codes, all unused |
| MfaHistory.EnableExactly | pkg/auth/mfa.go:183-221 | an enable is refused without a secret, then for a wrong code, and else succeeds iff the user exists and both statements get through; the flag turns on with the first of them and nothing else changes |
| MfaHistory.UseExactly | pkg/auth/mfa.go:259-291 | a recovery code is accepted iff the row found is an unused one of the user, and then that one is used up |
| MfaHistory.OnByRightCode | pkg/auth/mfa.go:183-221 | in every run of whole requests MFA is on for a user iff an enable with a right code succeeded and no disable, registration or deletion since |
| MfaHistory.DisableExactly | internal/http/features/mfa/handler.go:158-224 | disabling succeeds iff password and a second factor are right and the writes up to the commit get through; then no secret, code or flag is left, and exactly the user's sessions are revoked iff one more gets through. It is unauthorized iff password or factor is wrong or the factor's use cannot be noted |
| MfaHistory.DisableMfaExactly | pkg/auth/mfa.go:294-322 | each answer of the service's disable and its condition, and what is left |
| MfaHistory.SetupConsistentIff | pkg/auth/mfa.go:138-173 | after a setup cut short the tables are consistent iff it stopped neither after the secret nor, with an earlier setup, after the first deletion; other users never change |
| MfaHistory.EnableConsistent | pkg/auth/mfa.go:183-221 | an enable cut short at any point leaves the tables consistent |
| MfaHistory.DisableConsistentIff | pkg/auth/mfa.go:294-322 | after a disable cut short the tables are consistent iff it stopped neither after the first of two deletions with rows to delete nor before turning off a flag that was on |
| EnrolmentOrder.TablesFollowOrder | pkg/auth/mfa.go:138-322 | from every reachable state, with any number of setups past their check, enables and disables of one user under way and wherever the schedule ends: a secret is there iff an insertion of one stands after the last deletion, the flag iff an enable that found a secret writes after the last switching off, and of the codes one batch for each setup that found no secret to stop it and inserts after the last deletion of codes |
| EnrolmentOrder.ConsistentByOrder | pkg/auth/mfa.go:138-322 | hence exactly which orders of the statements leave the tables consistent |
| EnrolmentPairs.TwoSetups | pkg/auth/mfa.go:138-173 | two setups: iff each has its secret in before the other deletes secrets exactly when it has its codes in before the other deletes codes |
| EnrolmentPairs.SetupAndDisable | pkg/auth/mfa.go:138-317 | a setup and a disable: iff the secret is in before the disable deletes secrets exactly when the codes are in before it deletes codes |
| EnrolmentPairs.EnableAndDisable | pkg/auth/mfa.go:183-317 | an enable and a disable: MFA stays on with no secret iff there was one, the code is right, and the enable reads before the disable deletes secrets and writes after it has turned MFA off |
| EnrolmentRaces.EnabledWithoutSecret | pkg/auth/mfa.go:183-322 | an input: a disable between an enable's read and its write leaves MFA on with no secret |
| EnrolmentRaces.SixteenCodes | pkg/auth/mfa.go:138-173 | an input: two setups leave one secret and sixteen codes |
| EnrolmentAlone.SoloSetup | pkg/auth/mfa.go:77-180 | a setup with nothing in between leaves after any number of writes what the service function leaves, and gives its answer |
| EnrolmentAlone.SoloEnable | pkg/auth/mfa.go:183-221 | likewise an enable |
| EnrolmentAlone.SoloDisable | pkg/auth/mfa.go:294-322 | likewise a disable |
| EnrolmentAlone.SoloUse | pkg/auth/mfa.go:259-291 | likewise the use of a recovery code |
| PasswordService.Service.InsertUser | pkg/repository/users_repo.go:36-45 | inserts iff id, email and username are unused |
| PasswordService.Service.InsertCredential | pkg/repository/credentials_repo.go:35-44 | inserts iff the user exists and has no credential |
| PasswordService.Service.IncrementFailedLoginAttempts | pkg/repository/users_repo.go:119-132 | one more failure in that row unless it is deleted, a deadline from the fifth on, nothing else in the row and no other row |
| PasswordService.Service.ResetFailedLoginAttempts | pkg/repository/users_repo.go:135-145 | no failures and no deadline in that row unless it is deleted, nothing else in the row and no other row |
| PasswordService.Service.Register | pkg/auth/password.go:48-121 | user and credential together or neither, with each refusal |
| PasswordService.Service.Authenticate | pkg/auth/password.go:125-227 | lock, credential, password in this order, with the counter's change in each case |
| PasswordService.Service.Conclude | pkg/auth/password.go:202-227 | a wrong password counts one up, a right one clears the counter |
| PasswordService.Service.ChangePassword | pkg/auth/password.go:240-257 | replaces an existing credential, else changes nothing |
| PasswordService.RegisterThenLogin | pkg/auth/password.go:48-226 | after registering, the same password logs in by email or username as that user, whichever matching row is returned, if no other account answers to the identifier; another password does iff it derives the same key |
| PasswordHistory.RegisterExactly | pkg/auth/password.go:48-121 | in every reachable database registration succeeds iff its input is fine and id, email and username are unused by any row; a live account's email is reported first, then its username, and a deleted one's as a storage error; a failure leaves no row |
| PasswordHistory.RowSummarizesHistory | pkg/auth/password.go:166-219 | after every run the counter is the number of wrong passwords since the last successful login, and the deadline is set iff that is at least five, to the last failure plus the lockout |
| PasswordHistory.LoginExactly | pkg/auth/password.go:125-227 | after every run, for every row the lookup may return: account locked iff at least five wrong passwords were evaluated since the last right one and now is before the last of them plus the lockout; else signed in as that row iff it has a password and the given one derives the key of the one last set; else, and without a row, invalid credentials |
| PasswordHistory.ChangeExactly | pkg/auth/password.go:240-257 | a change of password is refused for its policy, then for want of a password, and else succeeds |
| Lockout.WrongExtends | pkg/repository/users_repo.go:119-132 | one more failure keeps the row a summary of its history |
| LockoutRate.RateBound | pkg/auth/password.go:142-211 | in every interleaving of at most K requests without the right password, at most 4 + K + K * (t / L) passwords, besides those whose counter statement is lost, are evaluated by requests that read the row up to t after the fifth counted failure; before it at most 4 + K besides |
| LockoutRate.RateAttained | pkg/auth/password.go:142-211 | for every K, L, t and number of lost statements some schedule reaches that number |
| LockoutRate.WrongLoginIsLookThenUpdate | pkg/auth/password.go:142-211 | the two steps with nothing in between are a login with a wrong password |
| SessionService.Service.Issue | pkg/auth/session.go:115-235 | inserts the session of an existing user and mints its first token |
| SessionService.Service.Refresh | pkg/auth/session.go:238-306 | not found, expired, fingerprint mismatch with revocation, missing user, or a new token for the same session |
| SessionService.Service.PostRefresh | internal/http/features/session/handler.go:54-102 | no cookie, an empty token, and one answer for missing, expired and revoked sessions |
| SessionService.Service.PostLogout | internal/http/features/session/handler.go:109-136 | stamps the one session of the token unless it was revoked before, leaves every other row as it was, and always answers alike |
| SessionService.Service.PostLogoutAll | internal/http/features/session/handler.go:141-159 | stamps every session of the user unless it was revoked before, and leaves every other row as it was |
| SessionService.Service.DeleteExpired | pkg/repository/sessions_repo.go:177-188 | keeps exactly the rows neither expired nor revoked before the cutoff and returns the number of the others |
| SessionService.ClaimExactly | pkg/auth/session.go:115-306 | issuing fails for a missing user or a taken hash, and else gives a token for AccessTTL that claims a second factor iff one was shown or the user needs none; a refresh of the session claims it iff the user needs none |
| SessionRuns.CollectionInvisible | pkg/repository/sessions_repo.go:177-188 | two runs that differ only in their collections, with any non-negative age, get the same answers to every request |
| SessionRuns.CollectionVisibleIff | pkg/repository/sessions_repo.go:177-188 | a collection changes the answer to a refresh iff its cutoff lies past the expiry of a live session |
| SessionLifetime.LifetimeBound | pkg/auth/session.go:150-306 | in every interleaving each access token is for its session's user, is issued when it is minted and expires AccessTTL later; and, but for the first, before RefreshTTL + delay + AccessTTL from the session's creation, and within delay + AccessTTL of its revocation, where delay bounds the time between a refresh's read and its minting; zero for whole requests |
| SessionLifetime.LifetimeAttained | pkg/auth/session.go:150-306 | for every configuration and delay some schedule reaches the first bound, but for its last tick |
| SessionLifetime.RevokedLifetimeAttained | pkg/auth/session.go:238-306 | and some schedule the second |
| SessionLifetime.MintsExactly | pkg/auth/session.go:115-306 | in every reachable state which steps mint a token, and exactly which |
| SessionLifetime.RefreshAnswers | internal/http/features/session/handler.go:54-102 | in every reachable state a refresh is unauthorized iff the session was never issued, has ended or is RefreshTTL old, a server error that revokes it iff the fingerprint differs from the stored one under reuse detection, and else a new token for AccessTTL |
| SessionLifetime.NoTokenAnswers | internal/http/features/session/handler.go:54-102 | no cookie is unauthorized, an empty token a bad request, and neither changes anything |
| SessionLifetime.EndedIsFinal | pkg/repository/sessions_repo.go:60-79 | once a session is revoked or removed no refresh that starts later succeeds, in every continuation |
| SessionLifetime.EndsExactlyBy | pkg/repository/sessions_repo.go:112-188 | in every reachable state an unrevoked session ends with a step iff it is its logout, its user's logout everywhere or deletion, a fingerprint mismatch under reuse detection or a collection past its expiry; until then it refreshes exactly until RefreshTTL after its creation |
| SessionLifetime.HalvesMakeRefresh | pkg/auth/session.go:238-306 | reading and minting with nothing in between are a refresh |
| PasswordReset.Handler.PostReset | internal/http/features/password/handler.go:430-488 | validate, change, consume and revoke in this order, ignoring the outcome of consuming |
| PasswordReset.SucceedsIff | internal/http/features/password/handler.go:448-481 | a reset succeeds iff the token is a reset token, unspent and in time, the password acceptable and the user has a credential; each refusal has its condition, and changes nothing |
| PasswordReset.SuccessMeans | internal/http/features/password/handler.go:448-481 | then the stored password accepts exactly what derives the new key, the token is consumed and no session of the user is unrevoked |
| PasswordReset.ChangesNothingElse | internal/http/features/password/handler.go:448-481 | no other user's credential or session and no other token changes |
| PasswordReset.ResetCloses | internal/http/features/password/handler.go:448-481 | in every interleaving, from its last step on a successful reset's token is refused for ever, and so is every refresh token issued to the user before |
| PasswordReset.ChangeAccepts | pkg/auth/password.go:240-257 | in every interleaving the changing step stores a hash that accepts exactly what derives the new key |
| PasswordReset.LateValidationFails | internal/http/features/password/handler.go:448-475 | a reset that validates after the token is used up or expired is refused in every continuation |
| ResetRaces.ValidatedFate | internal/http/features/password/handler.go:457-481 | in every schedule a reset that has validated its token succeeds iff its password is acceptable, the user has a credential at its next step and it takes its remaining steps, one fewer when it finds the token over on reading it again |
| ResetRaces.SuccessesExactly | internal/http/features/password/handler.go:448-475 | any number of resets of one valid token, from every reachable state and in every schedule in which they take all their steps and nothing else ends the token: one succeeds iff it validates before the first of them consumes |
| ResetRaces.BothSucceedIff | internal/http/features/password/handler.go:448-475 | of two: both succeed iff each validates before the other consumes |
| ResetRaces.OneTokenTwoResets | internal/http/features/password/handler.go:448-475 | an input: both succeed, and the later password stays |
| PasswordReset.SoloReset | internal/http/features/password/handler.go:430-488 | the steps of one reset with nothing in between are the whole handler |
| GoogleAccounts.Service.GetByEmail | pkg/repository/users_repo.go:71-91 | the one user with the email, or none |
| GoogleAccounts.Service.InsertUser | pkg/repository/users_repo.go:36-45 | inserts iff id and email are unused |
| GoogleAccounts.Service.InsertIdentity | pkg/repository/identities_repo.go:23-46 | inserts iff the subject is unused and the user exists |
| GoogleAccounts.Service.LogIn | pkg/auth/google.go:188-251 | find, link or create, the creation both rows or neither; emails stay unique and identities keep their user |
| GoogleAccounts.LogInExactly | pkg/auth/google.go:188-251 | a known subject gets its user; else a verified email that a user has gets that user; else a new user iff no row has the email and the drawn id is new; what changes in each case, and nothing on failure |
| GoogleProtocol.SubjectStable | pkg/auth/google.go:188-251 | in every interleaving a login that succeeds returns the user every earlier success for the subject returned, unless that one was deleted since |
| GoogleProtocol.OneLivingUser | pkg/auth/google.go:188-251 | in every interleaving two successes for one subject whose users both exist returned the same user |
| GoogleProtocol.IdentitiesEarned | migrations/20251218000000_initial_schema.sql:30-38 | in every interleaving each identity refers to an existing user and was made with it or linked by a login with a verified email that the user has had |
| GoogleProtocol.WritesOnlyOnSuccess | pkg/auth/google.go:238-250 | the only step of a login that writes is the one it succeeds in, and it adds its identity and at most its own user; a failed creation leaves neither |
| GoogleProtocol.SoloLogin | pkg/auth/google.go:188-251 | a login with nothing in between does what the service method does |
| Roles.RolesRepository.GetByName | pkg/repository/roles_repo.go:66-76 | the one role of that name, or not found, or invalid for an empty name |
| Roles.RolesRepository.Create | pkg/repository/roles_repo.go:24-39 | a new role, unless the name is empty or taken |
| Roles.RolesRepository.Upsert | pkg/repository/roles_repo.go:42-53 | the existing role or a new one |
| Roles.RolesRepository.Update | pkg/repository/roles_repo.go:100-125 | renames iff the role exists and no other role has the name |
| Roles.RolesRepository.Delete | pkg/repository/roles_repo.go:128-131 | the role and every assignment of it are gone, and every other role and assignment is as it was |
| Roles.RolesRepository.AssignToUser | pkg/repository/roles_repo.go:134-142 | adds the assignment iff user and role exist; a repeated one changes nothing |
| Roles.RolesRepository.RemoveFromUser | pkg/repository/roles_repo.go:145-148 | that assignment is gone and every other is as it was |
| Roles.RolesRepository.SetRoles | pkg/repository/roles_repo.go:151-167 | the transaction replaces the user's assignments, or rolls back when any insert violates a foreign key |
| Roles.RolesRepository.GetUserRoleNames | pkg/repository/roles_repo.go:196-206 | the loop over the ordered rows returns the user's names, all of them and strictly ascending |
| Roles.Idm.AssignByName | idm/idm.go:391-397 | ensure, then assign |
| Roles.Idm.RemoveByName | idm/idm.go:400-409 | a missing role is no error |
| Roles.Idm.SetByNames | idm/idm.go:412-422 | the loop ensures every name, stops at the first error, then replaces |
| RoleLaws.EnsureAllExactly | idm/idm.go:412-422 | with no empty name every name gets its own role and no existing role changes |
| RoleLaws.EnsureAllStops | idm/idm.go:412-422 | the first empty name stops the loop, with exactly the names before it created |
| RoleLaws.SetExactly | idm/idm.go:412-422 | for an existing user and non-empty names that user holds exactly these names and nobody else's list changes |
| RoleLaws.SetRefused | idm/idm.go:412-422 | any empty name, or a missing user, changes no assignment |
| RoleLaws.AssignExactly | idm/idm.go:391-397 | adds the name to the one list, iff it is not empty and the user exists |
| RoleLaws.RemoveExactly | idm/idm.go:400-409 | takes the name off the one list |
| RoleLaws.RefusalsExactly | pkg/repository/roles_repo.go:24-142 | each refusal of creating, renaming, assigning and removing, and its exact condition |
| RoleLaws.RenamePointwise | pkg/repository/roles_repo.go:100-125 | succeeds iff the role exists and the name is not empty and free, and replaces the name in every list that had it |
| RoleLaws.DeletePointwise | pkg/repository/roles_repo.go:128-131 | takes the name off every list |
| RoleLaws.SetThenGet | pkg/repository/roles_repo.go:151-206 | setting roles and then listing them gives the strictly ascending list of distinct names |
| RoleLaws.SortedIgnoresOrder | pkg/repository/roles_repo.go:170-206 | two inputs give the same list iff they have the same names, in any order and number |
| RoleLaws.SortedAscending | pkg/repository/roles_repo.go:170-206 | that list is strictly ascending and has exactly the given names |
| RoleLaws.OrderedRowsExist | pkg/repository/roles_repo.go:170-193 | the ordered query has a strictly ascending answer in every consistent state |
| RoleHistory.NamesFollowHistory | idm/idm.go:366-427 | in every run of role requests the constraints hold and each user holds exactly the names the history of requests says |
| RoleRaces.Outcome | pkg/repository/roles_repo.go:151-167 | any number of replacements: once the transaction with the last DELETE has committed, the roles are exactly those that the committed ones among the transactions under way at that DELETE had inserted by then or had still to come to |
| RoleRaces.ClaimsAll | pkg/repository/roles_repo.go:151-167 | what a transaction has inserted or has still to come to is its whole list at least until another commits |
| RoleRaces.OutcomeOfTwo | pkg/repository/roles_repo.go:151-167 | of two replacements the later one decides if they do not overlap; if they do, the roles of both lists are left |
| RoleRaces.OneListIff | pkg/repository/roles_repo.go:151-167 | the outcome of two is one request's list iff they do not overlap or one list has all of the other |
| RoleRaces.AloneIsReplace | pkg/repository/roles_repo.go:151-167 | a transaction with nothing in between leaves the roles that replacing them leaves |

## Left out

- RecoveryCodes.NormalizeIdempotent: of Unicode upper-casing only this is used: it is a map of characters that is right on ASCII, idempotent, and yields no dash or space from anything else.
- OAuthState.PackThenUnpack: RFC 3339 text is a pair of functions of which only parse after format, cutting to the second, is assumed; the fallback to the in-memory StateStore, whose Get and Delete lock separately, is not modelled.
- PasswordService.Service.Authenticate: the row the identifier lookup returns is an input, any one that matches; emails and usernames are compared as case-folded text.
- PasswordService.Service.Register: validation and policy of email, password and name are one boolean verdict.
- Lockout.WrongExtends: the counter is unbounded; overflow of the 32-bit INTEGER column is not modelled.
- LockoutRate.RateBound: profile updates, which write back lockout fields read earlier, are not among the requests; application and database share one clock; the lockout is a positive constant.
- PasswordHistory.RowSummarizesHistory: the statements that count a failure or clear the counter, whose errors are ignored, get through.
- LoginHandlers.Handler.Verify: the verdict of the TOTP code and the row a recovery-code lookup returns are inputs, as is the password verdict of Login.
- MfaEnrolment.Service.Setup: secrets are ids; encryption, the QR code and last_used_at are not modelled, and reads do not fail.
- MfaHistory.EnrolmentInvariant: runs of whole requests without storage failure.
- EmailProtocol.UsedAtMostOnce: each transaction is one step, and one that loses a conflict is an aborted request.
- EmailVerified.GenuineExactlyWhen: the address a token is mailed to is whatever its request has at hand; that mail is delivered and read is not modelled. An address is its spelling with the text the database compares; how that folds letter case is not modelled.
- SessionRuns.CollectionInvisible: runs of whole requests; the clock has one-tick resolution.
- SessionLifetime.LifetimeBound: the role lookup between read and minting is not modelled, and the token is minted by the step that reads the clock.
- SessionService.Service.Refresh: the fingerprint is one text; session metadata other than the fingerprint and the roles claim are not modelled. The refresh handler itself passes no request to compare.
- PasswordReset.ResetCloses: without storage failures; the handler ignores a failed consume or revoke, which then leaves the token or the sessions in force.
- GoogleProtocol.SubjectStable: one provider; a commit whose outcome is unknown to the caller is not modelled.
- Roles.RolesRepository.GetUserRoleNames: the rows of the ordered query are an input, required to be the user's roles in the order of the collation.
- RoleHistory.NamesFollowHistory: role requests run one after the other.
- RoleRaces.Outcome: replacements of one user's roles only; a DELETE that waits for another is one step, and one chosen as a deadlock victim is an aborted transaction.
- EnrolmentOrder.TablesFollowOrder: setups are past their check that MFA is off, and the user is not removed meanwhile.
- Tokens enter through their hash: SHA-256 collisions and repeated random values are excluded.
- Argon2, HMAC, AES-GCM, TOTP and JWT internals, and the HTTP, JSON, cookie, mail, logging, rate-limiting and configuration code around the services.
- GoogleService.ValidateIDToken and access-token validation: single-pass checks that would only add easy members.
