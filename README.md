# Authentication core of the cosmetics shop server, in Dafny

This project models the authentication logic of the shop's Spring Boot server. It covers the following parts.

- **One-time passwords (`OtpService`).** A small state machine over a key-value store whose entries expire.
  - `sendOtp` passes three gates in order: the block marker, the resend limit, then the cooldown. It then stores a fresh challenge, delivers the code by mail or SMS, and counts the send in a resend tracker.
  - `verifyOtp` handles several cases:
    - a missing record;
    - a record expired by its own `expiresAt`;
    - a record that is already used;
    - a wrong code, which is counted, and which blocks the user when the attempt limit is reached;
    - the right code, which marks the record used for a 5-second audit period and clears the tracker.
- **Identifier and credential rules.**
  - Username normalisation in the registration request and in the OTP service.
  - The `EmailOrPhone` validator.
  - The bean-validation constraints of the registration and password-reset requests.
  - The e-mail and phone tests on the user entity.
- **Key naming** of the ephemeral store (`RedisKetPattern`).
- **The refresh-token and user tables** and their Spring Data / JPQL queries and updates, over a sequence of rows.
- **JWT claims and the token blacklist** (`JwtConfig`).
  - The claim sets of access and refresh tokens.
  - The registered claims `sub`, `iat` and `exp` (section 4.1 of RFC 7519).
  - The expiry test.
  - The blacklist write and lookup against the store.
  - HS256 signing and parsing are uninterpreted functions.
- **The request filter** (`JwtAuthFilter`): which paths it skips, role authorities, and the header/authentication decision.
- **The notification helpers** (`EmailService`, `SmsService`): masking, subjects, templates, SMS texts and the SMS-side store write.

The store is one `Redis` object holding `map<string, Slot>`. Each slot is a value and an absolute deadline, and an entry is live while `now <= deadline`. Time (`now`, in milliseconds) and the random source are explicit inputs.

Java `null` strings are `Option<string>`. Exceptions are `Result.Thrown(name)`. Spring Data single-result lookups are `Lookup.Absent | Found | NonUnique`, where `NonUnique` is the "query did not return a unique result" exception.

The imperative parts are classes whose methods are proved against pure specification functions. This covers `OtpService.OtpService`, `TtlStore.Redis`, `SmsService.SmsService`, `EmailService.EmailService`, `JwtConfig.JwtConfig`, `UserEntity.ManagedUser` and the two table classes. The properties are proved as lemmas about those functions.

Source paths below are relative to the repository root.

## Model

| member | source | states |
|---|---|---|
| TtlStore.Get | server/server/src/main/java/com/cosmetics/server/service/OtpService.java:97 | a value is returned exactly when the key is live at `now`, and it is the stored value |
| TtlStore.Put | server/server/src/main/java/com/cosmetics/server/service/OtpService.java:62 | `set(key, v, ttl)` stores `v` with deadline `now + ttl` and leaves every other key as it was |
| TtlStore.Delete | server/server/src/main/java/com/cosmetics/server/service/OtpService.java:106 | `delete(key)` removes the key and leaves every other key as it was |
| TtlStore.GetAfterPut | server/server/src/main/java/com/cosmetics/server/service/OtpService.java:62 | a stored value can be read back until its TTL has run out, and not after |
| TtlStore.OtherKeysUntouched | server/server/src/main/java/com/cosmetics/server/service/OtpService.java:121 | a write or delete of one key does not change what any other key reads |
| TtlStore.Redis.Set | server/server/src/main/java/com/cosmetics/server/service/OtpService.java:62 | the store object's entries become `Put` of the old entries |
| TtlStore.Redis.Remove | server/server/src/main/java/com/cosmetics/server/service/OtpService.java:106 | the store object's entries become `Delete` of the old entries |
| OtpLogic.NormalizationCases | server/server/src/main/java/com/cosmetics/server/service/OtpService.java:197-207 | null gives `""`; an e-mail is trimmed and lower-cased and keeps its `@`; anything else keeps only `+` and digits |
| OtpLogic.NormalizationIdempotent | server/server/src/main/java/com/cosmetics/server/service/OtpService.java:197-207 | normalising a normal form gives it back, so case and whitespace variants of one e-mail build the same keys |
| OtpLogic.EmailNormalFixed | server/server/src/main/java/com/cosmetics/server/service/OtpService.java:200-201 | a lower-cased e-mail without surrounding blanks is already normal |
| OtpLogic.PhoneNormalFixed | server/server/src/main/java/com/cosmetics/server/service/OtpService.java:202-205 | a string of `+` and digits is already normal |
| OtpLogic.KeyLayout | server/server/src/main/java/com/cosmetics/server/service/OtpService.java:185-195 | `String.format(lead + "%s:%s", id, purpose)` is `lead + id + ":" + purpose` and starts with the lead |
| OtpLogic.OtpKey | server/server/src/main/java/com/cosmetics/server/service/OtpService.java:185-187 | the challenge key lies in the `otp:` family and never in the resend family |
| OtpLogic.ResendKey | server/server/src/main/java/com/cosmetics/server/service/OtpService.java:189-191 | the tracker key lies in the `otp_resend:` family and never in the challenge family |
| OtpLogic.BlockKey | server/server/src/main/java/com/cosmetics/server/service/OtpService.java:193-195 | the block key is in neither family, so a block marker is never read as a challenge or tracker |
| OtpLogic.OtpKeySpelling | server/server/src/main/java/com/cosmetics/server/service/OtpService.java:185-187 | the key equals `String.format("otp:%s:%s", id, purpose)`, a pattern with two directives |
| OtpLogic.ResendKeySpelling | server/server/src/main/java/com/cosmetics/server/service/OtpService.java:189-191 | the key equals `String.format("otp_resend:%s:%s", id, purpose)` |
| OtpLogic.BlockKeySpelling | server/server/src/main/java/com/cosmetics/server/service/OtpService.java:193-195 | the key equals `String.format("otp_block:%s:%s", id, purpose)` |
| OtpLogic.ForeignKey | server/server/src/main/java/com/cosmetics/server/service/SmsService.java:43 | a key not starting with `o`, such as the SMS copy `OTP:…`, is in neither OTP family |
| OtpLogic.PutKeepsInvariant | server/server/src/main/java/com/cosmetics/server/service/OtpService.java:62 | a write that puts a challenge (unused ones with deadline = `expiresAt`) under a challenge key and a tracker under a tracker key keeps the store invariant |
| OtpLogic.DeleteKeepsInvariant | server/server/src/main/java/com/cosmetics/server/service/OtpService.java:106 | deleting any key keeps the store invariant |
| OtpLogic.ChallengeAt | server/server/src/main/java/com/cosmetics/server/service/OtpService.java:96-97 | the challenge read back is present exactly when its key is live, and it is the stored record |
| OtpLogic.TrackerAt | server/server/src/main/java/com/cosmetics/server/service/OtpService.java:150-151 | the tracker read back is present exactly when its key is live, and it is the stored tracker |
| OtpLogic.GenerateOtp | server/server/src/main/java/com/cosmetics/server/service/OtpService.java:181-183 | `String.format("%06d", r)` is six ASCII digits whose decimal value is `r` |
| OtpLogic.FreshOtp | server/server/src/main/java/com/cosmetics/server/service/OtpService.java:52-59 | a new record has the code, 0 attempts, not used, the purpose, created now and expiring after the expiration period |
| OtpLogic.NextTracker | server/server/src/main/java/com/cosmetics/server/service/OtpService.java:80-89 | no tracker gives count 1 first and last sent now; otherwise count + 1 and last sent now |
| OtpLogic.TrackerUnaffected | server/server/src/main/java/com/cosmetics/server/service/OtpService.java:62 | a write under any other key leaves the tracker as it was |
| OtpLogic.AfterDelivery | server/server/src/main/java/com/cosmetics/server/service/OtpService.java:49-68 | after the challenge write and the delivery, the challenge is stored with deadline now + expiration, and the tracker and the invariant are unchanged |
| OtpLogic.SendEffect | server/server/src/main/java/com/cosmetics/server/service/OtpService.java:46-73 | a successful send leaves the fresh challenge (TTL = expiration) and the next tracker (TTL = resend window) and keeps the invariant |
| OtpLogic.VerifyEffect | server/server/src/main/java/com/cosmetics/server/service/OtpService.java:95-143 | it returns true exactly for a live, unexpired, unused record and the matching code; it throws exactly when such a record meets a null code; the invariant is kept |
| OtpLogic.SendStoresFreshRecord | server/server/src/main/java/com/cosmetics/server/service/OtpService.java:49-62 | throughout the expiration period after a send, the stored record is the fresh one, and its code is six digits with value = the random number |
| OtpLogic.SendCountsResend | server/server/src/main/java/com/cosmetics/server/service/OtpService.java:75-93 | throughout the resend window after a send, the tracker is the next tracker of the one before |
| OtpLogic.GateInsideCooldown | server/server/src/main/java/com/cosmetics/server/service/OtpService.java:157-161 | inside the cooldown since the last send, no send goes ahead |
| OtpLogic.CooldownRefusesResend | server/server/src/main/java/com/cosmetics/server/service/OtpService.java:145-163 | a second send before the cooldown has passed is refused |
| OtpLogic.LimitRefusesResend | server/server/src/main/java/com/cosmetics/server/service/OtpService.java:153-156 | a tracker at the resend limit refuses as blocked or rate-limited |
| OtpLogic.LiveUnusedIsUnexpired | server/server/src/main/java/com/cosmetics/server/service/OtpService.java:104-109 | a live unused record is never past its own `expiresAt` |
| OtpLogic.WrongCodeAtLimitBlocks | server/server/src/main/java/com/cosmetics/server/service/OtpService.java:116-122 | a wrong code that reaches the attempt limit returns false, deletes the record, and blocks sends for the block duration |
| OtpLogic.WrongCodeBelowLimitCounts | server/server/src/main/java/com/cosmetics/server/service/OtpService.java:123-131 | below the limit a wrong code returns false, stores the record with one more attempt, and keeps its original expiry |
| OtpLogic.RightCodeAccepted | server/server/src/main/java/com/cosmetics/server/service/OtpService.java:135-142 | the right code is accepted whatever the attempts; the record is stored used, with one more attempt, for exactly the 5-second audit period; the tracker is removed |
| OtpLogic.UsedRecordRefuses | server/server/src/main/java/com/cosmetics/server/service/OtpService.java:99-114 | a missing or used record refuses every code without throwing; the store is unchanged, except that a record past its `expiresAt` is deleted |
| OtpLogic.VerifyStoreBeforeCounting | server/server/src/main/java/com/cosmetics/server/service/OtpService.java:99-118 | no live record, a used record or a null code leave the store unchanged; a record past its `expiresAt` is deleted |
| OtpLogic.WrongCodeAtExpiryDeletes | server/server/src/main/java/com/cosmetics/server/service/OtpService.java:124-130 | a wrong code below the limit at the instant of expiry returns false and deletes the record, since no time remains |
| OtpLogic.AcceptedOnce | server/server/src/main/java/com/cosmetics/server/service/OtpService.java:111-142 | after a success every later verification, with any code, returns false |
| OtpLogic.SendThenVerify | server/server/src/main/java/com/cosmetics/server/service/OtpService.java:46-143 | the code a send stores is accepted within the expiration period |
| OtpLogic.MaskUsername | server/server/src/main/java/com/cosmetics/server/service/OtpService.java:213-235 | null gives `***`; for a phone, `****` up to four cleaned characters, else `***` (or `+***` when the cleaned form starts with `+`) followed by its last four characters |
| OtpLogic.MaskUsernameEmail | server/server/src/main/java/com/cosmetics/server/service/OtpService.java:216-221 | an e-mail masks to at most three local characters, `***@` and the domain |
| OtpLogic.RegistrationAndOtpFormsDiffer | server/server/src/main/java/com/cosmetics/server/DTO/request/RegisterRequest.java:53-59 | a phone with a leading `0` normalises to different strings in registration (`+84…`) and in the OTP keys (`0…`) |
| OtpLogic.RegistrationAndOtpFormsAgree | server/server/src/main/java/com/cosmetics/server/DTO/request/RegisterRequest.java:53-59 | a phone whose cleaned form does not start with `0` gets the same normal form in registration and in the OTP keys |
| OtpService.OtpService.constructor | server/server/src/main/java/com/cosmetics/server/service/OtpService.java:41-44 | the service holds the settings, the store and both delivery services, and starts valid |
| OtpService.OtpService.IsBlocked | server/server/src/main/java/com/cosmetics/server/service/OtpService.java:170-173 | true exactly when the block marker is live |
| OtpService.OtpService.ValidateRateLimit | server/server/src/main/java/com/cosmetics/server/service/OtpService.java:145-163 | the outcome is the gate: blocked, else rate-limited at the limit, else cooldown, else sent |
| OtpService.OtpService.UpdateResendTracking | server/server/src/main/java/com/cosmetics/server/service/OtpService.java:75-93 | the store gains the next tracker for the resend window |
| OtpService.OtpService.SendOtpAs | server/server/src/main/java/com/cosmetics/server/service/OtpService.java:46-73 | the steps of `sendOtp` for a normalised id: refused sends change nothing; a send leaves `SendEffect` and one mail or one SMS |
| OtpService.OtpService.SendOtp | server/server/src/main/java/com/cosmetics/server/service/OtpService.java:46-73 | the gate decides; a refused send changes nothing; a send leaves `SendEffect` and delivers one mail (e-mail username) or one SMS (anything else) |
| OtpService.OtpService.BlockUser | server/server/src/main/java/com/cosmetics/server/service/OtpService.java:175-179 | the block marker is stored for the block duration |
| OtpService.OtpService.ClearResendTracking | server/server/src/main/java/com/cosmetics/server/service/OtpService.java:165-168 | the tracker is deleted |
| OtpService.OtpService.VerifyOtpAs | server/server/src/main/java/com/cosmetics/server/service/OtpService.java:95-143 | the steps of `verifyOtp` for a normalised id leave the result and store of `VerifyEffect` |
| OtpService.OtpService.VerifyOtp | server/server/src/main/java/com/cosmetics/server/service/OtpService.java:95-143 | result and store are those of `VerifyEffect` for the normalised username |
| RedisKeyPattern.KeyShape | server/server/src/main/java/com/cosmetics/server/pattern/RedisKetPattern.java:30-72 | every key starts with its pattern's fixed lead and ends with its last argument |
| RedisKeyPattern.BuildOtpKey | server/server/src/main/java/com/cosmetics/server/pattern/RedisKetPattern.java:30-32 | `"OTP:" + username + ":" + purpose` |
| RedisKeyPattern.BuildOtpAttemptsKey | server/server/src/main/java/com/cosmetics/server/pattern/RedisKetPattern.java:34-36 | `"OTP_ATTEMPTS:" + username + ":" + purpose` |
| RedisKeyPattern.BuildOtpBlockKey | server/server/src/main/java/com/cosmetics/server/pattern/RedisKetPattern.java:38-40 | `"OTP_BLOCK:" + username`, with no purpose, so one key per user |
| RedisKeyPattern.BuildRateLimitLoginKey | server/server/src/main/java/com/cosmetics/server/pattern/RedisKetPattern.java:42-44 | `"RATE_LIMIT:LOGIN:" + username` |
| RedisKeyPattern.BuildRateLimitOtpSendKey | server/server/src/main/java/com/cosmetics/server/pattern/RedisKetPattern.java:46-48 | `"RATE_LIMIT:OTP_SEND:" + username` |
| RedisKeyPattern.BuildRateLimitRegisterKey | server/server/src/main/java/com/cosmetics/server/pattern/RedisKetPattern.java:50-52 | `"RATE_LIMIT:REGISTER:" + ip` |
| RedisKeyPattern.BuildBlacklistTokenKey | server/server/src/main/java/com/cosmetics/server/pattern/RedisKetPattern.java:54-56 | `"BLACKLIST_TOKEN:" + jti` |
| RedisKeyPattern.BuildUserSessionKey | server/server/src/main/java/com/cosmetics/server/pattern/RedisKetPattern.java:58-60 | `"USER_SESSION:" + userId` |
| RedisKeyPattern.BuildOtpResendCooldownKey | server/server/src/main/java/com/cosmetics/server/pattern/RedisKetPattern.java:62-64 | `"OTP_RESEND:" + username + ":" + purpose` |
| RedisKeyPattern.BuildOtpResendCountKey | server/server/src/main/java/com/cosmetics/server/pattern/RedisKetPattern.java:66-68 | `"OTP_RESEND_COUNT:" + username + ":" + purpose` |
| RedisKeyPattern.BuildChallengeKey | server/server/src/main/java/com/cosmetics/server/pattern/RedisKetPattern.java:70-72 | `"CHALLENGE:" + challengeId` |
| RedisKeyPattern.LeadsDiverge | server/server/src/main/java/com/cosmetics/server/pattern/RedisKetPattern.java:4-27 | no two pattern leads are prefixes of each other: they differ at a common index |
| RedisKeyPattern.NamespacesDisjoint | server/server/src/main/java/com/cosmetics/server/pattern/RedisKetPattern.java:30-72 | two different builders never produce the same key, whatever their arguments |
| RedisKeyPattern.RateLimitKeysDiffer | server/server/src/main/java/com/cosmetics/server/pattern/RedisKetPattern.java:42-52 | the login, OTP-send and register rate-limit keys for one argument are pairwise different |
| RedisKeyPattern.OtpKeyInjective | server/server/src/main/java/com/cosmetics/server/pattern/RedisKetPattern.java:30-32 | for purposes without `:`, equal OTP keys come from equal (username, purpose) pairs |
| BeanValidation.NotBlankWhen | server/server/src/main/java/com/cosmetics/server/DTO/request/RegisterRequest.java:18 | a string with a non-blank character passes `@NotBlank` |
| PasswordPolicy.LookaheadOfOne | server/server/src/main/java/com/cosmetics/server/DTO/request/RegisterRequest.java:24 | on a one-character string, a lookahead `(?=.*[X])` holds only if that character is in X |
| PasswordPolicy.PasswordPatternUnsatisfiable | server/server/src/main/java/com/cosmetics/server/DTO/request/RegisterRequest.java:24 | no string matches the password pattern as written |
| PasswordPolicy.LookaheadOverPasswordChars | server/server/src/main/java/com/cosmetics/server/DTO/request/RegisterRequest.java:24 | over password characters, a lookahead for a class holds iff the string contains a character of it |
| PasswordPolicy.PasswordPatternIntendedMeaning | server/server/src/main/java/com/cosmetics/server/DTO/request/RegisterRequest.java:24 | with a `{8,}` quantifier on the character class, matching `@Size(min = 8)`, the pattern holds iff there are at least eight characters, every one allowed, and all four classes occur |
| PasswordPolicy.PasswordPatternIntendedAccepts | server/server/src/main/java/com/cosmetics/server/DTO/request/RegisterRequest.java:24 | the intended pattern accepts `Abcdef1!` |
| RegisterRequest.EmailXorPhone | server/server/src/main/java/com/cosmetics/server/DTO/request/RegisterRequest.java:38-44 | a non-null username is exactly one of e-mail and phone; null is neither |
| RegisterRequest.NormalizedUsername | server/server/src/main/java/com/cosmetics/server/DTO/request/RegisterRequest.java:46-61 | null gives `""`; an e-mail is trimmed and lower-cased; a phone keeps `+` and digits and never starts with `0`: a leading `0` becomes `+84`, and any other cleaned form is returned as it is |
| RegisterRequest.NormalizedUsernameIdempotent | server/server/src/main/java/com/cosmetics/server/DTO/request/RegisterRequest.java:46-61 | normalising the normal form gives it back |
| RegisterRequest.NoRequestIsValid | server/server/src/main/java/com/cosmetics/server/DTO/request/RegisterRequest.java:22-26 | no registration request passes its constraints, because of the password pattern |
| RegisterRequest.IntendedRequestCanBeValid | server/server/src/main/java/com/cosmetics/server/DTO/request/RegisterRequest.java:18-36 | with the intended password pattern a concrete request passes every constraint |
| ResetPasswordRequest.OtpFieldMeaning | server/server/src/main/java/com/cosmetics/server/DTO/request/ResetPasswordRequest.java:20-22 | the OTP field is valid iff it is exactly six ASCII digits |
| ResetPasswordRequest.BlankUsernameInvalid | server/server/src/main/java/com/cosmetics/server/DTO/request/ResetPasswordRequest.java:17-18 | a null or blank username fails, with either password pattern |
| ResetPasswordRequest.NoRequestIsValid | server/server/src/main/java/com/cosmetics/server/DTO/request/ResetPasswordRequest.java:24-28 | no reset request passes, because of the new-password pattern |
| ResetPasswordRequest.IntendedRequestCanBeValid | server/server/src/main/java/com/cosmetics/server/DTO/request/ResetPasswordRequest.java:17-28 | with the intended pattern a concrete request passes |
| EmailOrPhoneValidator.EmailPatternAccepts | server/server/src/main/java/com/cosmetics/server/validation/EmailOrPhoneValidator.java:10-12 | `local@domain.tld` with allowed characters and a TLD of at least two letters matches |
| EmailOrPhoneValidator.EmailPatternOneAt | server/server/src/main/java/com/cosmetics/server/validation/EmailOrPhoneValidator.java:10-12 | a matching address has exactly one `@`, neither first nor last |
| EmailOrPhoneValidator.NormalizePhone | server/server/src/main/java/com/cosmetics/server/validation/EmailOrPhoneValidator.java:40-53 | only `+` and digits remain; a leading `0` or `84` becomes `+84`; the result never starts with `0` or `84` |
| EmailOrPhoneValidator.NullOrBlankInvalid | server/server/src/main/java/com/cosmetics/server/validation/EmailOrPhoneValidator.java:26-28 | null or blank input is invalid |
| EmailOrPhoneValidator.EmailBranch | server/server/src/main/java/com/cosmetics/server/validation/EmailOrPhoneValidator.java:30-34 | input whose trimmed form has `@` is valid iff that form matches the e-mail pattern |
| EmailOrPhoneValidator.NormalizedMobileShape | server/server/src/main/java/com/cosmetics/server/validation/EmailOrPhoneValidator.java:15 | a normalised number matching the mobile alternative is `+84`, a carrier prefix and seven digits, 12 characters |
| EmailOrPhoneValidator.AcceptedPhoneShape | server/server/src/main/java/com/cosmetics/server/validation/EmailOrPhoneValidator.java:36-37 | an accepted non-empty phone normalises to that 12-character shape |
| EmailOrPhoneValidator.EmptyAlternativeAcceptsLetters | server/server/src/main/java/com/cosmetics/server/validation/EmailOrPhoneValidator.java:14-18 | `abc` is accepted, through the empty alternative |
| EmailOrPhoneValidator.IntendedPhoneShape | server/server/src/main/java/com/cosmetics/server/validation/EmailOrPhoneValidator.java:14-18 | without the empty alternative, every accepted phone normalises to the 12-character shape |
| EmailOrPhoneValidator.IntendedRejectsLetters | server/server/src/main/java/com/cosmetics/server/validation/EmailOrPhoneValidator.java:14-18 | without the empty alternative, `abc` is rejected |
| UserEntity.NoArgs | server/server/src/main/java/com/cosmetics/server/entity/auth/Users.java:53-99 | field initialisers: roles {CUSTOMER}, LOCAL, not verified, id valid, OFFLINE, timestamps now |
| UserEntity.BuilderDefaults | server/server/src/main/java/com/cosmetics/server/entity/auth/Users.java:53-99 | builder defaults: roles {CUSTOMER}, LOCAL, not verified, OFFLINE, timestamps now |
| UserEntity.BuilderDropsIdValid | server/server/src/main/java/com/cosmetics/server/entity/auth/Users.java:77-78 | the builder leaves `idValid` false where the initialiser says true, and that is the only difference |
| UserEntity.BuilderDefaultsIntended | server/server/src/main/java/com/cosmetics/server/entity/auth/Users.java:77-78 | with `@Builder.Default` on `idValid` the builder agrees with the initialisers |
| UserEntity.E164ShapedChars | server/server/src/main/java/com/cosmetics/server/entity/auth/Users.java:110-112 | a phone-shaped username has 2 to 16 characters, only `+` and digits, and no `@` |
| UserEntity.NeverEmailAndPhone | server/server/src/main/java/com/cosmetics/server/entity/auth/Users.java:106-112 | no user is both an e-mail user and a phone user |
| UserEntity.ManagedUser.constructor | server/server/src/main/java/com/cosmetics/server/entity/auth/Users.java:30 | the managed entity holds the given state |
| UserEntity.ManagedUser.OnUpdate | server/server/src/main/java/com/cosmetics/server/entity/auth/Users.java:101-104 | only `updatedAt` changes, to now |
| TokenEntity.NoArgs | server/server/src/main/java/com/cosmetics/server/entity/auth/Token.java:38-48 | field initialisers: created now, not revoked |
| TokenEntity.Built | server/server/src/main/java/com/cosmetics/server/entity/auth/Token.java:20-48 | the builder leaves `createAt` unset and `revoked` false |
| TokenEntity.ActiveUntilExpiry | server/server/src/main/java/com/cosmetics/server/entity/auth/Token.java:43-52 | an unrevoked token is active iff now is not after its expiry; active at the expiry instant, not one millisecond later |
| TokenEntity.RevokedNeverActive | server/server/src/main/java/com/cosmetics/server/entity/auth/Token.java:47-52 | a revoked token is never active |
| TokenEntity.ActiveEarlier | server/server/src/main/java/com/cosmetics/server/entity/auth/Token.java:43-52 | a token active at some time was active at every earlier time |
| UserTokenRepository.FindByRefreshTokenHashAndRevokedFalse | server/server/src/main/java/com/cosmetics/server/repository/UserTokenRepository.java:16 | a found row has the hash and is unrevoked; nothing is found iff no such row exists; a single matching row is found; the query fails as non-unique iff two rows match |
| UserTokenRepository.FindAllByUserIdAndRevokedFalse | server/server/src/main/java/com/cosmetics/server/repository/UserTokenRepository.java:17 | exactly the user's unrevoked rows |
| UserTokenRepository.FindAllByUserId | server/server/src/main/java/com/cosmetics/server/repository/UserTokenRepository.java:18 | exactly the user's rows |
| UserTokenRepository.UnrevokedAmongAll | server/server/src/main/java/com/cosmetics/server/repository/UserTokenRepository.java:17-18 | the unrevoked rows are the user's rows filtered by "not revoked", so a subsequence of them |
| UserTokenRepository.FindActiveTokensByUserId | server/server/src/main/java/com/cosmetics/server/repository/UserTokenRepository.java:20-22 | exactly the user's rows that are unrevoked and expire strictly after now |
| UserTokenRepository.ActiveQueryVersusIsActive | server/server/src/main/java/com/cosmetics/server/repository/UserTokenRepository.java:20-22 | the query agrees with `Token.isActive` except for a row expiring exactly now |
| UserTokenRepository.CountActiveTokensByUserId | server/server/src/main/java/com/cosmetics/server/repository/UserTokenRepository.java:32-33 | the count is the number of the user's unrevoked rows, ignoring expiry |
| UserTokenRepository.RevokeKeepsActiveTokens | server/server/src/main/java/com/cosmetics/server/repository/UserTokenRepository.java:24-26 | revoking expired tokens changes no user's active-token query |
| UserTokenRepository.RevokeCoversExpired | server/server/src/main/java/com/cosmetics/server/repository/UserTokenRepository.java:24-26 | afterwards no unrevoked row of the user expires before now |
| UserTokenRepository.UserTokenTable.constructor | server/server/src/main/java/com/cosmetics/server/repository/UserTokenRepository.java:15 | the table starts with the given rows |
| UserTokenRepository.UserTokenTable.RevokeAllUserTokens | server/server/src/main/java/com/cosmetics/server/repository/UserTokenRepository.java:24-26 | the rows become the old rows with the user's rows expiring before now revoked |
| UserTokenRepository.UserTokenTable.DeleteExpiredTokens | server/server/src/main/java/com/cosmetics/server/repository/UserTokenRepository.java:35-37 | exactly the rows expiring before the cutoff are removed, in order |
| UsersRepository.FindByEmail | server/server/src/main/java/com/cosmetics/server/repository/UsersRepository.java:18 | a found row has the e-mail; nothing is found iff no row has it; a single such row is found; non-unique iff two rows have it |
| UsersRepository.FindByPhoneNumber | server/server/src/main/java/com/cosmetics/server/repository/UsersRepository.java:19 | a found row has the phone number; nothing is found iff no row has it; a single such row is found; non-unique iff two rows have it |
| UsersRepository.FindByUsername | server/server/src/main/java/com/cosmetics/server/repository/UsersRepository.java:20-21 | a found row has the argument as e-mail or phone number, and the username column is not consulted; a single such row is found; non-unique iff two rows match |
| UsersRepository.ExistsByEmailAgrees | server/server/src/main/java/com/cosmetics/server/repository/UsersRepository.java:18-24 | `existsByEmail` holds iff `findByEmail` is not empty |
| UsersRepository.ExistsButNotFound | server/server/src/main/java/com/cosmetics/server/repository/UsersRepository.java:20-23 | a user can exist by username while `findByUsername` finds nothing |
| UsersRepository.FindByAllByStatus | server/server/src/main/java/com/cosmetics/server/repository/UsersRepository.java:30-31 | a found row has the status; nothing is found iff no row has it; a single such row is found; the Optional query fails as non-unique iff two rows share the status |
| UsersRepository.FindRecentUsers | server/server/src/main/java/com/cosmetics/server/repository/UsersRepository.java:33-34 | a found row was created at or after the date; nothing is found iff none was; a single such row is found; non-unique iff two rows were |

| UsersRepository.LookupsUnique | server/server/src/main/java/com/cosmetics/server/repository/UsersRepository.java:18-19 | with unique e-mails and phone numbers, neither lookup can match two rows |
| UsersRepository.FindByUsernameCanBeNonUnique | server/server/src/main/java/com/cosmetics/server/repository/UsersRepository.java:20-21 | even then `findByUsername` can match two rows: one by e-mail, one by phone |
| UsersRepository.UsersTable.constructor | server/server/src/main/java/com/cosmetics/server/repository/UsersRepository.java:17 | the table starts with the given rows |
| UsersRepository.UsersTable.UpdateUserStatus | server/server/src/main/java/com/cosmetics/server/repository/UsersRepository.java:36-38 | the rows with the id get the status; every other row is unchanged |
| UsersRepository.UsersTable.UpdateLastLoginAt | server/server/src/main/java/com/cosmetics/server/repository/UsersRepository.java:40-42 | the rows with the id get the last-login time; every other row is unchanged |
| UsersRepository.StatusUpdateFrame | server/server/src/main/java/com/cosmetics/server/repository/UsersRepository.java:36-38 | the status update changes only the status of the rows with the id |
| UsersRepository.LastLoginUpdateFrame | server/server/src/main/java/com/cosmetics/server/repository/UsersRepository.java:40-42 | the last-login update changes only that field of the rows with the id |
| JwtConfig.ExpiryAfterLifetime | server/server/src/main/java/com/cosmetics/server/service/JwtConfig.java:82-90 | `exp` is now + lifetime in whole seconds, and `exp - iat` is the lifetime in seconds, or one more |
| JwtConfig.ClaimSetsDiffer | server/server/src/main/java/com/cosmetics/server/service/JwtConfig.java:64-80 | access tokens carry uid, roles, provider and verified = email or phone verified; refresh tokens carry uid and type `refresh` only; both carry `sub` iff the username is set |
| JwtConfig.ExtractUserName | server/server/src/main/java/com/cosmetics/server/service/JwtConfig.java:92-94 | throws iff the token does not parse; a parsed token with a string `sub` gives that subject, and a subject returned is the `sub` claim |
| JwtConfig.ExpirationMs | server/server/src/main/java/com/cosmetics/server/service/JwtConfig.java:100-102 | throws iff the token does not parse; a parsed token with a date `exp` gives it in milliseconds, and a value returned is that `exp` |
| JwtConfig.IssuedTokenReadsBack | server/server/src/main/java/com/cosmetics/server/service/JwtConfig.java:82-119 | an issued token reads back its subject and expiry, and is expired exactly after that expiry |
| JwtConfig.BlacklistKeysDiffer | server/server/src/main/java/com/cosmetics/server/service/JwtConfig.java:53-54 | the written key `"blackList: " + token` is never the looked-up key `"blackList:" + token` |
| JwtConfig.BlacklistWrite | server/server/src/main/java/com/cosmetics/server/service/JwtConfig.java:47-62 | with `exp` after now the write key gets TTL = the absolute `exp`; otherwise, or on a parse failure, nothing changes |
| JwtConfig.BlacklistInvisible | server/server/src/main/java/com/cosmetics/server/service/JwtConfig.java:47-62 | blacklisting a token never changes whether it is blacklisted |
| JwtConfig.TokenValidAsWritten | server/server/src/main/java/com/cosmetics/server/service/JwtConfig.java:130-135 | true iff the subject is the user's username, the token is unexpired and the token IS blacklisted |
| JwtConfig.NeverValidAsWritten | server/server/src/main/java/com/cosmetics/server/service/JwtConfig.java:130-135 | a token that is not blacklisted is never valid, before or after `blackListToken` |
| JwtConfig.BlacklistWriteIntended | server/server/src/main/java/com/cosmetics/server/service/JwtConfig.java:47-62 | corrected: the lookup key gets TTL = `exp - now` |
| JwtConfig.TokenValid | server/server/src/main/java/com/cosmetics/server/service/JwtConfig.java:130-135 | corrected: true iff the subject matches, the token is unexpired and NOT blacklisted |
| JwtConfig.RevocationTakesEffect | server/server/src/main/java/com/cosmetics/server/service/JwtConfig.java:47-135 | after the corrected write, the token is blacklisted and invalid until its expiry |
| JwtConfig.JwtConfig.constructor | server/server/src/main/java/com/cosmetics/server/service/JwtConfig.java:26-35 | the configuration holds the secret, both lifetimes and the store |
| JwtConfig.JwtConfig.Init | server/server/src/main/java/com/cosmetics/server/service/JwtConfig.java:37-40 | the secret is replaced by its Base64 encoding |
| JwtConfig.JwtConfig.GenerateToken | server/server/src/main/java/com/cosmetics/server/service/JwtConfig.java:82-90 | the token is the signature of the claims with `sub`, `iat` and `exp` set |
| JwtConfig.JwtConfig.GenerateAccessToken | server/server/src/main/java/com/cosmetics/server/service/JwtConfig.java:64-72 | the token signs the access claims with the access lifetime |
| JwtConfig.JwtConfig.GenerateRefreshToken | server/server/src/main/java/com/cosmetics/server/service/JwtConfig.java:74-80 | the token signs the refresh claims with the refresh lifetime |
| JwtConfig.JwtConfig.BlackListToken | server/server/src/main/java/com/cosmetics/server/service/JwtConfig.java:47-62 | the store becomes `BlacklistWrite` of the old store |
| JwtAuthFilter.ShouldNotFilter | server/server/src/main/java/com/cosmetics/server/security/JwtAuthFilter.java:77-84 | a skipped path starts with `/` and has at least six characters |
| JwtAuthFilter.SkippedPaths | server/server/src/main/java/com/cosmetics/server/security/JwtAuthFilter.java:80-83 | `/auth/…`, `/oauth2/…`, `/public/…` and `/error` are skipped; `/auth`, `/error/` and `/api/orders` are not |
| JwtAuthFilter.SkipCoversSubtree | server/server/src/main/java/com/cosmetics/server/security/JwtAuthFilter.java:80-82 | anything appended to a skipped path other than `/error` is skipped too |
| JwtAuthFilter.ApiAndErrorSubpathsFiltered | server/server/src/main/java/com/cosmetics/server/security/JwtAuthFilter.java:80-83 | every `/api/` path and every proper extension of `/error` is filtered |
| JwtAuthFilter.AuthorityOf | server/server/src/main/java/com/cosmetics/server/security/JwtAuthFilter.java:73 | the authority is `ROLE_` followed by the role's name |
| JwtAuthFilter.Authorities | server/server/src/main/java/com/cosmetics/server/security/JwtAuthFilter.java:71-75 | every role gives its authority, and every authority starts with `ROLE_` |
| JwtAuthFilter.AuthoritiesCount | server/server/src/main/java/com/cosmetics/server/security/JwtAuthFilter.java:71-75 | there are exactly as many authorities as roles |
| JwtAuthFilter.TryAuthenticate | server/server/src/main/java/com/cosmetics/server/security/JwtAuthFilter.java:47-67 | the authentication changes only from none, to the extracted username with the authorities of the user found by it, when the token is valid for that user |
| JwtAuthFilter.DoFilterInternal | server/server/src/main/java/com/cosmetics/server/security/JwtAuthFilter.java:34-70 | the chain runs once unless an exception escapes; it escapes iff the header is null or is shorter than 7 characters without `Bearer `; only a non-`Bearer ` header can authenticate |
| JwtAuthFilter.BearerNeverAuthenticates | server/server/src/main/java/com/cosmetics/server/security/JwtAuthFilter.java:40-43 | a `Bearer` header passes down the chain with the authentication unchanged |
| JwtAuthFilter.DoFilterIntended | server/server/src/main/java/com/cosmetics/server/security/JwtAuthFilter.java:40-45 | corrected: never throws, runs the chain once, and only a `Bearer ` header can authenticate |
| JwtAuthFilter.BearerAuthenticatesIntended | server/server/src/main/java/com/cosmetics/server/security/JwtAuthFilter.java:40-62 | a `Bearer` token valid for a known user authenticates in the corrected filter, and does not as written |
| EmailService.MaskEmail | server/server/src/main/java/com/cosmetics/server/service/EmailService.java:34-47 | null or `@`-less input is returned as is; otherwise it throws iff `split("@")` yields no field, an empty first field or a single field, and else gives the first character (first field of at most 3) or first three, then `***@`, then the second field |
| EmailService.MaskEmailAddress | server/server/src/main/java/com/cosmetics/server/service/EmailService.java:39-46 | the masked form of `local@domain` |
| EmailService.MaskEmailThrowsWithoutDomain | server/server/src/main/java/com/cosmetics/server/service/EmailService.java:39-43 | `local@` throws: `split` drops the empty domain |
| EmailService.MaskEmailThrowsWithoutLocal | server/server/src/main/java/com/cosmetics/server/service/EmailService.java:42-43 | `@domain` throws: the empty local part has no first character |
| EmailService.SubjectCases | server/server/src/main/java/com/cosmetics/server/service/EmailService.java:49-58 | the two password purposes share a subject; other purposes, such as CHECKOUT, get `verification code`; the REGISTER subject ends in `appName + "account"` |
| EmailService.TemplateFor | server/server/src/main/java/com/cosmetics/server/service/EmailService.java:140-148 | every template name ends in `-otp`; the password purposes get `password-reset-otp`, ADD_EMAIL and ADD_PHONE `email-verification-otp`, every unnamed purpose `generic-otp` |
| EmailService.TemplateName | server/server/src/main/java/com/cosmetics/server/service/EmailService.java:140-148 | a template name is its stem followed by `-otp` |
| EmailService.SharedTemplates | server/server/src/main/java/com/cosmetics/server/service/EmailService.java:143-145 | the password purposes share `password-reset-otp`; ADD_EMAIL and ADD_PHONE share `email-verification-otp` |
| EmailService.TemplatePartition | server/server/src/main/java/com/cosmetics/server/service/EmailService.java:140-148 | two purposes share a template iff they are equal, both password purposes, both contact purposes, or both unnamed by the switch |
| EmailService.EmailContext | server/server/src/main/java/com/cosmetics/server/service/EmailService.java:133-139 | the template context has the code, the purpose and `expiryMinutes = 5` |
| EmailService.EmailService.constructor | server/server/src/main/java/com/cosmetics/server/service/EmailService.java:27-32 | the service holds the sender address and application name, with nothing sent |
| EmailService.EmailService.SendOtpMail | server/server/src/main/java/com/cosmetics/server/service/EmailService.java:60-79 | exactly one mail is appended, with the subject, template and context of the purpose |
| SmsService.MessageFrame | server/server/src/main/java/com/cosmetics/server/service/SmsService.java:69-76 | the fixed text around the two `%s` of each message has no `%` |
| SmsService.GenerateSmsMessage | server/server/src/main/java/com/cosmetics/server/service/SmsService.java:68-77 | the message is the purpose's lead, the application name, the separator, the code and `. Valid for 5 minutes.` |
| SmsService.MessageCarriesCode | server/server/src/main/java/com/cosmetics/server/service/SmsService.java:68-77 | every message contains the application name and the code and ends with `Valid for 5 minutes.` |
| SmsService.PasswordPurposesShareMessage | server/server/src/main/java/com/cosmetics/server/service/SmsService.java:72 | FORGET_PASSWORD and CHANGE_PASSWORD produce the same message |
| SmsService.MaskPhone | server/server/src/main/java/com/cosmetics/server/service/SmsService.java:61-66 | null or shorter than four characters is returned as is; four or five characters give the first four, `****` and the rest; from six on, the first four, `****` and the last two |
| SmsService.MaskPhoneReveals | server/server/src/main/java/com/cosmetics/server/service/SmsService.java:61-66 | without the `****`, the mask shows the whole number of four or five characters, otherwise its first four and last two |
| SmsService.SmsCopyKey | server/server/src/main/java/com/cosmetics/server/service/SmsService.java:43 | the key is `OTP:` followed by the raw number |
| SmsService.ChannelFor | server/server/src/main/java/com/cosmetics/server/service/SmsService.java:46-49 | every provider name, known or not, selects the mock sender |
| SmsService.SmsService.constructor | server/server/src/main/java/com/cosmetics/server/service/SmsService.java:25-37 | the service holds the store, provider and application name, with nothing sent |
| SmsService.SmsService.SendOtp | server/server/src/main/java/com/cosmetics/server/service/SmsService.java:39-50 | the code is stored under `OTP:` + raw number for five minutes and exactly one mock SMS, to the masked number, is logged |

## Left out

- Concurrency: `@Async` delivery and the read-modify-write races on the attempt counter and the tracker. The model runs one request at a time, and delivery completes before `sendOtp` returns.
- I/O: the mail server, Thymeleaf rendering and the SMS log. Sent mail and SMS are recorded as values in an outbox.
- The clock: every "now" of one call is one `now: nat` parameter. The two `LocalDateTime.now()` calls of `sendOtp` and the separate clock read of `updateResendTracking` are collapsed to one instant.
- The random source: `SecureRandom.nextInt(1_000_000)` is a parameter below 1,000,000.
- OtpService.OtpService.SendOtp: the Java code normalises the raw username again for every key it builds. The model normalises once and passes the result to the steps; this gives the same keys.
- The store is a map with deadlines. Its failures, serialisation and eviction are not modelled. The settings must be positive (`ConfigValid`) because Redis refuses a zero TTL.
- JWT signing and parsing (jjwt, HS256) are parameters. In particular, the parser's own rejection of expired tokens is not modelled: a parse that fails is an exception.
- The Base64 encoder of `init` is a parameter.
- `extractUserId` and `extractClaim` are not modelled separately: they are claim reads like `extractUserName`.
- `JwtService`, used by the request filter, is not part of this model. Its `extractUserName` and `isTokenValid` are parameters of the filter.
- JwtConfig.TokenValidAsWritten: line 130 of JwtConfig.java does not compile, because `!isTokenBlacklisted` is not a Java method name. Its body is modelled as the token-validity check it evidently is.
- The `@Value` placeholders for the JWT secret and the refresh lifetime lack their `$`. The model takes the configured values as given.
- A store failure inside `isTokenBlacklisted`, which returns false, is not modelled: the store never fails.
- The request details that `doFilterInternal` attaches (`WebAuthenticationDetailsSource`) and the credentials (always null) are not part of the authentication value.
- The first- and last-name constraints use Unicode classes (`\p{L}\p{M}`). They are parameters (`namePattern`) of the request validity predicate.
- The model's `ToLower` folds ASCII letters only. Java's `toLowerCase()` folds all of Unicode and depends on the default locale (`"I"` becomes `"ı"` under a Turkish locale); that is not modelled. `trim` removes characters up to `' '`, as Java does.
- Java string lengths and indices count UTF-16 code units, while a Dafny `string` counts characters. `@Size`, the `substring` and `charAt` calls of the masks, and the header cut at 7 are modelled over characters; they differ from Java for text outside the Basic Multilingual Plane.
- `UsersRepository.findByProviderAndProviderId` names properties the entity does not have; it is not modelled.
- `UserTokenRepository.revokedExpiredTokens` is a `@Modifying` count with an unbound `:userId`; it is not modelled.
- Lombok getters, setters and constructors other than the defaults above are not modelled.
- SmsService.ChannelFor: both branches of the provider switch call the same mock sender, so its contract says only that.
- The Spring Security configuration, the Redis configuration, the OAuth2 controller, the Angular client and the plain data classes are not part of this model.

## Findings

| source | as written | input that shows it | evidently intended | confidence | as-written member | corrected member |
|---|---|---|---|---|---|---|
| server/server/src/main/java/com/cosmetics/server/DTO/request/RegisterRequest.java:24 | the password pattern matches one character, which must also contain all four classes | any password, e.g. `Abcdef1!` | `[A-Za-z\d@$!%*?&]{8,}$` with the four lookaheads (with `+` it agrees only together with `@Size(min = 8)`) | high, not executed | PasswordPolicy.PasswordPatternUnsatisfiable | PasswordPolicy.PasswordPatternIntendedMeaning |
| server/server/src/main/java/com/cosmetics/server/DTO/request/ResetPasswordRequest.java:26 | the same pattern rejects every new password | any request | the same correction | high, not executed | ResetPasswordRequest.NoRequestIsValid | ResetPasswordRequest.IntendedRequestCanBeValid |
| server/server/src/main/java/com/cosmetics/server/validation/EmailOrPhoneValidator.java:15 | the trailing `\|` adds an empty alternative | `abc` is accepted | only the mobile-number alternative | high, not executed | EmailOrPhoneValidator.EmptyAlternativeAcceptsLetters | EmailOrPhoneValidator.IntendedRejectsLetters |
| server/server/src/main/java/com/cosmetics/server/entity/auth/Users.java:77-78 | `idValid = true` without `@Builder.Default` | `Users.builder().build()` has `idValid == false` | builder default true | high, not executed | UserEntity.BuilderDropsIdValid | UserEntity.BuilderDefaultsIntended |
| server/server/src/main/java/com/cosmetics/server/service/JwtConfig.java:53-56 | writes `"blackList: " + token` with TTL = the absolute `exp`; the lookup reads `"blackList:" + token` | any unexpired token: it stays unblacklisted | the lookup key with TTL `exp - now` | high, not executed | JwtConfig.BlacklistInvisible | JwtConfig.RevocationTakesEffect |
| server/server/src/main/java/com/cosmetics/server/service/JwtConfig.java:134 | validity requires the token to BE blacklisted | any token never blacklisted is invalid | `!isTokenBlacklisted(token)` | high, not executed | JwtConfig.NeverValidAsWritten | JwtConfig.TokenValid |
| server/server/src/main/java/com/cosmetics/server/security/JwtAuthFilter.java:40 | a header WITH `Bearer ` skips authentication; other headers are cut at 7, and null throws | `Bearer <valid token>` never authenticates; no header throws | skip when the header is null or lacks `Bearer ` | high, not executed | JwtAuthFilter.BearerNeverAuthenticates | JwtAuthFilter.BearerAuthenticatesIntended |
