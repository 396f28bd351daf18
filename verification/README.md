# A verified model of the JusticeLynk backend

The backend is a NestJS service over a relational database, a keyed store with expiries
and an object store. This project models the parts of it whose correctness is a claim
about whole runs or about inputs of any size, and proves those claims with Dafny.

| files | what they hold |
|---|---|
| `Redis.dfy` | the keyed store with expiries and the names of its keys |
| `AuthModel.dfy`, `AuthRuns.dfy` | the authentication state, one function per endpoint, runs and the invariant |
| `AuthSessions.dfy`, `AuthLimits.dfy`, `AuthVerification.dfy`, `AuthReset.dfy`, `AuthMfa.dfy` | the theorems about runs: sessions and rotation, rate limits, e-mail verification, password reset, backup codes |
| `AuthLaws.dfy`, `AuthJourneys.dfy` | what each endpoint answers and changes, exactly when; what users are owed over a run |
| `AuthService.dfy` | the repositories and services, updating tables and store in place, each endpoint proved equal to its step; the gateway that shows that what happens is a run |
| `SeedModel.dfy`, `SeedTheorems.dfy`, `SeedRows.dfy`, `SeedSync.dfy` | the reconciler of modules, features and actions: specification, theorems, the rows read against the seed, loops |
| `Paths.dfy`, `StorageModel.dfy`, `StorageTheorems.dfy`, `StorageLaws.dfy`, `StorageService.dfy` | paths and slugs; file rows, directory rows and objects; their agreement; the effect of each request; the service in place |
| `CaseNumbers.dfy`, `Cases.dfy` | case numbers and their creation by interleaved count and insert steps |
| `Doubles.dfy`, `Paise.dfy` | rounding to double precision; the price in paise |
| `Pagination.dfy` | page arithmetic and the reversed pages of the chat |

`dafny verify dfyconfig.toml` checks everything.

## How to read it

State that the backend updates in place is a class whose methods assign its fields. Each
such method promises that state and reply are those of a step function on values
(`LoginStep`, `MoveFileStep`, `SyncModule`, ...). The theorems speak about runs: sequences of
such steps from an initial state, with any requests, in any order, at any non-decreasing
times. `AuthService.Gateway`, `StorageService.StorageService` and `Cases.CasesService` keep
the run so far as a ghost field and show that every request extends it, so the theorems
apply to whatever they are given. What the step functions themselves do is stated apart
from their bodies, in both directions, in `AuthLaws.dfy` and `StorageLaws.dfy`.

## Assumptions

- Every authentication, storage and payment request is one atomic step; only the creation
  of cases is split into its count and its insert. The clock never goes back.
- Hashes are symbolic: SHA-256 is injective, and a bcrypt comparison succeeds exactly on
  the password that was hashed.
- User ids, session ids, secure tokens, file ids and file uuids are new when drawn. Minted
  refresh tokens are new as well; in reality this holds when two mints of one payload fall
  in different seconds, because a signed token carries its issue time in seconds.
- One-time codes may repeat. They, all other random values, the verdicts of the TOTP
  library and the production flag come with the request.
- Addresses arrive lower-cased and trimmed, backup codes upper-cased. A key of the keyed
  store is gone as soon as its time to live has elapsed. A day of the session lifetime has
  24 hours.
- Mail and audit writes change nothing that is modelled.
- A run of the authentication service starts from any accounts that satisfy the invariant,
  without sessions or stored keys. A run of storage or of cases starts empty.
- The address of an uploading user and that of an organisation's owner contain an `@`.
  Storage targets have no leading slash and a move leaves the directory of its file; the
  two exactness theorems show what happens otherwise.
- Rows of the catalogue draw their ids from a supply that does not repeat, and the
  catalogue starts with unique ids and without dangling references, as the database's
  constraints guarantee.

## Findings

- A refresh through the grace entry never mints tokens: `findSessionById` does not load the
  user, so `generateTokens` fails before anything is written
  (src/modules/auth/repositories/auth.repository.ts:155-159,
  src/modules/auth/services/auth.service.ts:599). The comment there promises a grace period;
  the model follows the code (`AuthSessions.GraceBranch`).
- Organisations whose ids agree on their first four characters share one set of case
  numbers under a unique index. The first of them to create a case shuts the others out for
  good, soft deletion included (`Cases.TagIsLostForGood`).
- Moving a file to the directory it is in deletes its object, and a target with a leading
  slash separates row and object (`StorageTheorems.MoveExact`).

## Model

| member | source | states |
|---|---|---|
| `Redis.RenderInjective` | src/modules/auth/services/auth.service.ts:50-53 | two keys of the keyed store that are sent as the same string are the same key, whatever address, token or user id they carry, so OTPs, counters, reset, MFA and grace entries never overwrite one another |
| `Redis.RedisService.Set` | src/database/redis.service.ts:35-44 | a write replaces exactly one key; it expires `ttl` seconds after now, or never when the time to live is not positive |
| `Redis.RedisService.Fetch` | src/database/redis.service.ts:49-57 | a read returns the stored value exactly while its expiry has not been reached |
| `Redis.RedisService.Remove` | src/database/redis.service.ts:62-64 | a deletion removes exactly the named key |
| `AuthRuns.ReachableInv` | src/modules/auth/repositories/auth.repository.ts:13-22 | in every reachable state e-mail addresses and session token hashes are unique, every session belongs to an account and expires seven days after it was opened, lock and counter agree, and an account without MFA has neither secret nor codes |
| `AuthRuns.StepFramed` | src/modules/auth/services/auth.service.ts:212-725 | no request touches a key of the store it does not name, removes an account or changes its address; a surviving session keeps owner, creation time and expiry, and a new one carries the ids the request minted |
| `AuthRuns.StepSecurityFramed` | src/modules/auth/services/auth.service.ts:222-245 | only a compared password moves an account's counter and lock, and only the MFA requests move its MFA columns |
| `AuthRuns.MintedFresh` | src/modules/auth/services/auth.service.ts:700-719 | every session id and every token hash in a reachable state was minted by an earlier request, so later mints are new |
| `AuthSessions.SessionProvenance` | src/modules/auth/services/auth.service.ts:212-339 | every session in every reachable state comes from a login with the right password while unlocked, active, verified and approved: directly with MFA off, or through one MFA temporary token handed out less than 300 s before the second factor, which itself was a valid TOTP or a code of the account |
| `AuthSessions.OneSessionPerTemp` | src/modules/auth/services/auth.service.ts:425-483 | over a whole run one MFA temporary token yields at most one session |
| `AuthSessions.MfaTempOrigin` | src/modules/auth/services/auth.service.ts:292-294 | a stored temporary token is the one a first factor handed out, for that account and with that expiry |
| `AuthSessions.SecondFactorSpends` | src/modules/auth/services/auth.service.ts:441-443 | a second factor that succeeds removes its temporary token and opens a session for the account behind it |
| `AuthSessions.SessionBirth` | src/modules/auth/services/auth.service.ts:700-722 | every session of a reachable state was opened by one earlier call and has been there since, with the same owner, creation time and expiry |
| `AuthSessions.RefreshSucceedsIff` | src/modules/auth/services/auth.service.ts:582-605 | a refresh succeeds if and only if the presented token is the current token of a session that has not expired |
| `AuthSessions.RotationEffect` | src/modules/auth/services/auth.service.ts:599-605 | a successful refresh replaces the token of that session alone, leaves the presented token current nowhere and writes its 30 s grace entry |
| `AuthSessions.GraceBranch` | src/modules/auth/services/auth.service.ts:587-599 | a refresh that does not present a current token always fails and changes nothing, except that it removes the session found if that has expired |
| `AuthSessions.ExpiredIsRemoved` | src/modules/auth/services/auth.service.ts:594-597 | an attempt on an expired session, by its current token or by a grace entry, removes that session |
| `AuthSessions.NeverCurrentAgain` | src/modules/auth/repositories/auth.repository.ts:141-149 | a minted token that is not current in some state is current in no later state |
| `AuthSessions.GraceEntryStays` | src/modules/auth/services/auth.service.ts:605 | no later request overwrites or removes the grace entry of a rotated-out token |
| `AuthSessions.RotatedLookup` | src/modules/auth/services/auth.service.ts:586-592 | until 30 s after its rotation a rotated-out token looks up to its own session if that still exists; from then on, or when the session is gone, to nothing |
| `AuthSessions.TokenOwner` | src/modules/auth/repositories/auth.repository.ts:134-139 | a token is current for at most one session over the whole run |
| `AuthSessions.GraceOrigin` | src/modules/auth/services/auth.service.ts:605 | every grace entry was written by a rotation of exactly that token, and names the session it was current for |
| `AuthSessions.DeadTokens` | src/modules/auth/services/auth.service.ts:586-594 | once a session is gone, no refresh token it ever had leads to any session at any time |
| `AuthSessions.EndsSessionRemoves` | src/modules/security/services/security.service.ts:80-98 | logout with a sid, revocation of one or all sessions and a successful reset remove the session |
| `AuthSessions.GoneForGood` | src/modules/auth/services/auth.service.ts:700 | a removed session id never comes back |
| `AuthSessions.RevocationIsFinal` | src/modules/auth/strategies/jwt.strategy.ts:23-38 | after logout with its sid, revocation or a reset, the session is in no later state, no access token with its sid is accepted, no refresh answers with it and none of its refresh tokens leads anywhere, grace entries included |
| `AuthSessions.AbsoluteLifetime` | src/modules/auth/services/auth.service.ts:594-602 | no refresh succeeds later than seven days after the session was opened, however often it was refreshed |
| `AuthLimits.LockMatchesCounter` | src/modules/auth/repositories/auth.repository.ts:87-99 | in every reachable state `lockedUntil` is set if and only if `loginAttempts` is at least 5 |
| `AuthLimits.LockPotential` | src/modules/auth/services/auth.service.ts:222-241 | the counter and the lock of an account show how many wrong passwords were compared since any earlier call, and how long they must have taken |
| `AuthLimits.LockoutThroughput` | src/modules/auth/services/auth.service.ts:222-241 | in any window of T minutes without a right password, at most 5 + floor(T/30) wrong passwords of an account are compared |
| `AuthLimits.ResendPotential` | src/modules/auth/services/auth.service.ts:400-418 | the stored resend counter covers every successful resend of the last 30 minutes |
| `AuthLimits.ResendWindow` | src/modules/auth/services/auth.service.ts:400-418 | every window of less than 30 minutes holds at most 3 successful resends for an address |
| `AuthLimits.FourResendsSpan` | src/modules/auth/services/auth.service.ts:400-418 | any four successful resends for one address span at least 30 minutes |
| `AuthVerification.VerificationProvenance` | src/modules/auth/services/auth.service.ts:343-371 | an account that becomes verified does so by a call naming its own address, which presents the latest code sent there less than 10 minutes before, or the master code outside production |
| `AuthVerification.CodeOrigin` | src/modules/auth/services/auth.service.ts:675-686 | a stored verification code is the one sent last to that address, by a registration, a resend or a login of an unverified account |
| `AuthReset.ExchangesIff` | src/modules/auth/services/auth.service.ts:516-538 | a reset token is issued if and only if the code stored for the address is the one presented |
| `AuthReset.ResetsIff` | src/modules/auth/services/auth.service.ts:542-578 | a reset succeeds if and only if the token is stored, has not expired and leads to an account with a security row |
| `AuthReset.ResetsEffect` | src/modules/auth/services/auth.service.ts:554-564 | a successful reset sets the new password, removes exactly the sessions of the account and spends the token |
| `AuthReset.ResetCorrespondence` | src/modules/auth/services/auth.service.ts:487-578 | each successful reset rests on a code exchange less than 15 minutes earlier and that on a request for a code for the same account less than 15 minutes before it, whose code was the latest issued for that address |
| `AuthReset.OneResetPerExchange` | src/modules/auth/services/auth.service.ts:542-564 | no two successful resets rest on the same exchange |
| `AuthReset.OneExchangePerRequest` | src/modules/auth/services/auth.service.ts:516-531 | no two exchanges rest on the same request for a code |
| `AuthMfa.NoFactorNoCodes` | src/modules/security/services/security.service.ts:32-36 | in every reachable state, MFA off implies a null secret and no backup codes |
| `AuthMfa.AcceptsCodeIff` | src/modules/auth/services/auth.service.ts:467-479 | a backup-code login succeeds if and only if the code is among the codes of the account behind the temporary token |
| `AuthMfa.AcceptanceUsesOneCode` | src/modules/auth/services/auth.service.ts:469-475 | accepting a code implies MFA was on and removes exactly one occurrence of that code |
| `AuthMfa.BackupCodeConservation` | src/modules/security/services/security.service.ts:48-57 | since the last enable or regenerate, codes accepted and codes remaining together are exactly the ten codes handed out |
| `Redis.ReadAfterWrite` | src/database/redis.service.ts:35-64 | what was written is read back until its time to live is over, for ever without one; other keys keep their values, and a deleted key reads as absent |
| `AuthLaws.LoginOpensIff` | src/modules/auth/services/auth.service.ts:212-339 | a login opens a session if and only if it gives the right password of an unlocked, active, verified and approved account without MFA; the reply carries the session and the minted token, the table gains exactly that session for seven days, counter and lock are cleared |
| `AuthLaws.LoginAsksIff` | src/modules/auth/services/auth.service.ts:291-315 | with MFA the same login hands out a temporary token, stored for 300 s for that account, and opens nothing |
| `AuthLaws.LoginHeldUp` | src/modules/auth/services/auth.service.ts:243-289 | a right password of an account that is not verified or not approved is answered with what is missing; an unverified one is sent a code |
| `AuthLaws.LoginWrong` | src/modules/auth/services/auth.service.ts:230-241 | a wrong password is counted, and from the fifth on it locks the account for thirty minutes |
| `AuthLaws.LoginNotCompared` | src/modules/auth/services/auth.service.ts:213-228 | where no password is compared nothing changes, and the reply names the reason |
| `AuthLaws.RegisterIff` | src/modules/auth/services/auth.service.ts:70-200 | registration succeeds if and only if nobody has the address; the account, its security row and its code are as asked for, and nothing else changes |
| `AuthLaws.VerifyEmailIff` | src/modules/auth/services/auth.service.ts:343-390 | tokens are answered if and only if the code stored for the account, or the master code outside production, is presented; the flag of that account is set and the code is used up |
| `AuthLaws.ResendIff` | src/modules/auth/services/auth.service.ts:394-421 | a resend succeeds if and only if the account is unverified and fewer than three are on the counter; code and counter are replaced with their times to live |
| `AuthLaws.UnknownAddress` | src/modules/auth/services/auth.service.ts:397-398 | an address nobody has gets neither a code nor a counter |
| `AuthLaws.VerifyMfaIff` | src/modules/auth/services/auth.service.ts:425-457 | a TOTP login opens a session if and only if the temporary token leads to an account with a secret and the code is valid; otherwise nothing changes |
| `AuthLaws.BackupCodeIff` | src/modules/auth/services/auth.service.ts:461-483 | a backup-code login opens a session exactly on a code of the account; the first occurrence goes, the others keep their order |
| `AuthLaws.SetupMfaIff` | src/modules/auth/services/auth.service.ts:641-652 | the secret handed out is stored for ten minutes |
| `AuthLaws.EnableMfaIff` | src/modules/auth/services/auth.service.ts:655-671 | MFA is turned on exactly by a valid code for a secret that is set up; the account gets that secret and the hashes of the codes handed out, in order |
| `AuthLaws.DisableMfaIff` | src/modules/security/services/security.service.ts:25-46 | MFA is turned off if and only if it was on and the right password is given |
| `AuthLaws.RegenerateIff` | src/modules/security/services/security.service.ts:48-64 | codes are replaced exactly while MFA is on |
| `AuthLaws.ForgotStores` | src/modules/auth/services/auth.service.ts:487-512 | a request for a known address stores the code for its account for fifteen minutes |
| `AuthLaws.ExchangeStores` | src/modules/auth/services/auth.service.ts:516-538 | the right code stores the reset token for that account for fifteen minutes and is used up; a wrong one changes nothing |
| `AuthLaws.ResetSets` | src/modules/auth/services/auth.service.ts:542-578 | a reset sets the password, ends exactly the sessions of the account and spends the token; a failed one changes nothing |
| `AuthLaws.RefreshAnswers` | src/modules/auth/services/auth.service.ts:599-615 | a successful refresh answers with the minted token for the session and the account of the presented one, and the minted token is then current for that session |
| `AuthLaws.SessionEndsIff` | src/modules/auth/repositories/auth.repository.ts:151-167 | a session is removed by a request if and only if that is a logout with its sid or (without any sid) its current token, a revocation by its owner, a reset of its owner's password, or a refresh that finds it expired; every other session survives |
| `AuthLaws.EndingsFrame` | src/modules/security/services/security.service.ts:80-111 | logout and revocation always report success and change nothing but the session table, and in it no row that stays |
| `AuthLaws.AdminSets` | src/modules/admin/controllers/admin.controller.ts:69-92 | an update sets the three columns of one account |
| `AuthLaws.ValidateIff` | src/modules/auth/strategies/jwt.strategy.ts:23-38 | an access token is accepted if and only if its account is active and not deleted and its session, if it names one, exists |
| `AuthJourneys.TokensWork` | src/modules/auth/services/auth.service.ts:582-615 | tokens handed out with a session work over a run for as long as the seven days last and nothing has ended the session or used the refresh token: the refresh token is accepted, and the access token while the account is active |
| `AuthJourneys.SecondFactorCompletes` | src/modules/auth/services/auth.service.ts:425-483 | within 300 s of the first factor, a valid TOTP or one of the account's backup codes opens a session, if the temporary token has not been spent |
| `AuthJourneys.VerificationCompletes` | src/modules/auth/services/auth.service.ts:343-390 | the latest code sent to an address verifies the account with that address for ten minutes, if it has not been used |
| `AuthJourneys.ExchangeCompletes` | src/modules/auth/services/auth.service.ts:516-538 | the latest reset code issued less than fifteen minutes before and not exchanged since is exchanged |
| `AuthJourneys.ResetCompletes` | src/modules/auth/services/auth.service.ts:542-578 | a reset succeeds with any token exchanged less than fifteen minutes before and not spent since, for an account with a security row, and sets the password |
| `AuthJourneys.PasswordIsLastSet` | src/modules/auth/services/auth.service.ts:554-558 | in every reachable state the password of an account is the one last set by its registration or by a reset, or the one from before the run |
| `AuthJourneys.LockOrigin` | src/modules/auth/services/auth.service.ts:222-241 | every lock was set thirty minutes before its end by a wrong password, with no password compared since |
| `AuthJourneys.LockEnds` | src/modules/auth/services/auth.service.ts:222-245 | thirty minutes after the last wrong password the right password of an active account is let through, and clears counter and lock |
| `AuthService.AuthRepository.FindUserByEmail` | src/modules/auth/repositories/auth.repository.ts:13-22 | finds the account with the address, or none |
| `AuthService.AuthRepository.FindSessionByToken` | src/modules/auth/repositories/auth.repository.ts:134-139 | finds the session whose current token hash this is, or none |
| `AuthService.AuthRepository.UpdateSecurity` | src/modules/auth/repositories/auth.repository.ts:83-85 | changes one security row, or refuses when there is none |
| `AuthService.AuthRepository.IncrementLoginAttempts` | src/modules/auth/repositories/auth.repository.ts:87-92 | adds one to the counter of one account |
| `AuthService.AuthRepository.ResetLoginAttempts` | src/modules/auth/repositories/auth.repository.ts:94-99 | clears counter and lock of one account |
| `AuthService.AuthRepository.UpdateLastLogin` | src/modules/auth/repositories/auth.repository.ts:101-103 | changes the last login of one account only |
| `AuthService.AuthRepository.MarkEmailVerified` | src/modules/auth/repositories/auth.repository.ts:105-111 | sets the flag of one account and reports whether a security row was there |
| `AuthService.AuthRepository.CreateSession` | src/modules/auth/repositories/auth.repository.ts:122-132 | adds one session row |
| `AuthService.AuthRepository.UpdateSessionActivity` | src/modules/auth/repositories/auth.repository.ts:141-149 | replaces token hash and activity time of one session and leaves its expiry alone |
| `AuthService.AuthRepository.DeleteSessionById` | src/modules/auth/repositories/auth.repository.ts:161-163 | removes one session, or nothing when there is none |
| `AuthService.AuthRepository.DeleteSession` | src/modules/security/repositories/security.repository.ts:27-31 | removes a session only for its owner |
| `AuthService.AuthRepository.DeleteAllSessions` | src/modules/auth/repositories/auth.repository.ts:165-167 | removes exactly the sessions of one account |
| `AuthService.AuthService.Register` | src/modules/auth/services/auth.service.ts:70-100 | a taken address changes nothing; otherwise the account, its security row and the code are created (four endpoints that differ in the approval they start from) |
| `AuthService.AuthService.Login` | src/modules/auth/services/auth.service.ts:212-339 | every branch in order: unknown address, deactivated, no security row, locked, wrong password with or without locking, unverified, not approved, MFA, session |
| `AuthService.AuthService.GenerateTokensWithSession` | src/modules/auth/services/auth.service.ts:694-725 | one session row with the hash of the minted refresh token, expiring in seven days |
| `AuthService.AuthService.VerifyEmailOtp` | src/modules/auth/services/auth.service.ts:343-390 | code or master code, whose account it verifies, what it consumes, and tokens without a session |
| `AuthService.AuthService.ResendOtp` | src/modules/auth/services/auth.service.ts:394-421 | limit, new code and counter with a fresh time to live |
| `AuthService.AuthService.SendVerificationOtp` | src/modules/auth/services/auth.service.ts:675-692 | replaces the stored code for a known address, nothing for an unknown one |
| `AuthService.AuthService.VerifyMfa` | src/modules/auth/services/auth.service.ts:425-457 | spends the temporary token and opens a session on a valid TOTP, else changes nothing |
| `AuthService.AuthService.VerifyMfaBackupCode` | src/modules/auth/services/auth.service.ts:461-483 | removes the first occurrence of the code, spends the temporary token and opens a session, else changes nothing |
| `AuthService.AuthService.ForgotPassword` | src/modules/auth/services/auth.service.ts:487-512 | replaces the reset code of a known address; the reply never depends on whether it is known |
| `AuthService.AuthService.VerifyForgotPasswordOtp` | src/modules/auth/services/auth.service.ts:516-538 | exchanges the stored code for a reset token, or changes nothing |
| `AuthService.AuthService.ResetPassword` | src/modules/auth/services/auth.service.ts:542-578 | password, sessions and reset token change together, or nothing does |
| `AuthService.AuthService.RefreshTokens` | src/modules/auth/services/auth.service.ts:582-616 | lookup by current token, then by grace entry, expiry, mint, rotation and grace entry in that order |
| `AuthService.AuthService.Logout` | src/modules/auth/services/auth.service.ts:620-637 | removes the session of the sid, else of the token, else nothing |
| `AuthService.AuthService.SetupMfa` | src/modules/auth/services/auth.service.ts:641-652 | keeps the secret for ten minutes |
| `AuthService.AuthService.EnableMfa` | src/modules/auth/services/auth.service.ts:655-671 | turns MFA on with the stored secret and the new codes and consumes the setup entry |
| `AuthService.AuthService.ValidateToken` | src/modules/auth/strategies/jwt.strategy.ts:23-38 | accepts a payload exactly when the account is active, not deleted, and the session named, if any, exists |
| `AuthService.AuthService.AdminSetAccount` | src/modules/admin/controllers/admin.controller.ts:69-92 | activation, approval and soft deletion of an account, by an administrator, at any point of a run |
| `AuthService.SecurityService.DisableMfa` | src/modules/security/services/security.service.ts:25-46 | clears flag, secret and codes on the right password |
| `AuthService.SecurityService.RegenerateBackupCodes` | src/modules/security/services/security.service.ts:48-64 | replaces the codes when MFA is on |
| `AuthService.SecurityService.RevokeSession` | src/modules/security/services/security.service.ts:80-96 | removes a session of the account itself only |
| `AuthService.SecurityService.RevokeAllSessions` | src/modules/security/services/security.service.ts:98-111 | removes every session of the account |
| `AuthService.Gateway.Handle` | src/modules/auth/services/auth.service.ts:212-725 | whatever requests come in, in any order and at any times, what has happened is a run, and each reply is that of its step |
| `SeedTheorems.SeedConvergence` | prisma/seed.ts:241-323 | from any consistent catalogue and any seed with distinct module and distinct feature keys, the rows left match the seed exactly (keys, parents, names, paths, target types, actions), with no extra row and no dangling reference |
| `SeedTheorems.SeedIdentity` | prisma/seed.ts:255-321 | a module keeps its id exactly when its key is in the seed, a feature exactly when its key and its old module's key are, an action exactly when its feature survives and lists it |
| `SeedTheorems.SeedIdempotent` | prisma/seed.ts:255-321 | the specification of a run determines every table when it is applied to its own result |
| `SeedTheorems.SecondRunChangesNothing` | prisma/seed.ts:241-323 | running the reconciler a second time changes no table |
| `SeedTheorems.PrunedEffect` | prisma/seed.ts:255-258 | the two deletions and their cascades leave exactly the modules in the seed, the features whose key and module survive, and the actions and plan links of what is left |
| `SeedTheorems.DropModulesEffect` | prisma/schema.prisma:372-398 | deleting modules takes their features, those features' actions and the plan links of both with it |
| `SeedTheorems.SyncAppsProgress` | prisma/seed.ts:261-323 | after any part of the seed the upserted rows are as asked for, everything else is untouched and the catalogue is consistent |
| `SeedTheorems.LinksFromProgress` | prisma/schema.prisma:391-449 | a plan link survives exactly when its module or feature keeps its row |
| `SeedRows.ModuleRowIs` | prisma/seed.ts:261-278 | every module listed in the seed has its row afterwards, with its name, path, target types and the application it is listed under |
| `SeedRows.FeatureRowIs` | prisma/seed.ts:280-296 | every feature listed in the seed has its row, under the row of the module it is listed in |
| `SeedRows.ActionRowsAre` | prisma/seed.ts:298-321 | every feature of the seed has exactly the actions listed for it, under their display names |
| `SeedRows.NoOtherRows` | prisma/seed.ts:254-258 | every module row and every feature row is listed in the seed, and every action belongs to a feature |
| `SeedRows.ActionNameIs` | prisma/seed.ts:311-317 | the display name of an action is its key with the first character as a capital and every later underscore as a space |
| `SeedSync.CollectKeys` | prisma/seed.ts:241-252 | the nested loops collect exactly the module keys and the feature keys, in seed order |
| `SeedSync.CatalogDb.DeleteModulesNotIn` | prisma/seed.ts:255 | the deletion with its cascades through features, actions and plan links |
| `SeedSync.CatalogDb.DeleteFeaturesNotIn` | prisma/seed.ts:258 | the deletion with its cascades through actions and plan links |
| `SeedSync.CatalogDb.UpsertModuleRow` | prisma/seed.ts:263-278 | updates the seeded columns of an existing row and keeps the others, or creates the row |
| `SeedSync.CatalogDb.UpsertFeatureRow` | prisma/seed.ts:281-296 | updates the seeded columns and the parent of an existing row, or creates the row |
| `SeedSync.CatalogDb.DeleteActionsNotIn` | prisma/seed.ts:299-304 | removes exactly the unlisted actions of one feature |
| `SeedSync.CatalogDb.UpsertActionRow` | prisma/seed.ts:307-320 | renames or creates one action |
| `SeedSync.SyncOneFeature` | prisma/seed.ts:280-321 | one feature and its actions, in order |
| `SeedSync.Sync` | prisma/seed.ts:241-323 | the whole reconciliation, in place, leaves a catalogue that matches the seed |
| `StorageTheorems.StorageAgreement` | src/modules/storage/services/storage.service.ts:109-205 | in every reachable state active rows and file objects correspond one to one with the content first stored, base names are pairwise distinct (deleted rows included), each key is its directory path joined to its base name, and `storageDir` is the last component of that path |
| `StorageTheorems.OriginStays` | src/common/utils/s3.util.ts:40-82 | what a file was first stored with is never forgotten or changed by a later request |
| `StorageTheorems.CopyHasSourceOrigin` | src/modules/storage/services/storage.service.ts:175-196 | a copy starts from the content of its source |
| `StorageTheorems.MoveExact` | src/modules/storage/services/storage.service.ts:143-165 | a move keeps rows and objects in agreement if and only if the target has no leading slash and is not the directory the file is already in |
| `StorageTheorems.CopyExact` | src/common/utils/s3.util.ts:40-53 | a copy keeps rows and objects in agreement if and only if the target has no leading slash |
| `StorageTheorems.MoveFails` | src/modules/storage/services/storage.service.ts:147-156 | concrete inputs: a file moved to the directory it is in, or to a target with a leading slash, no longer agrees with the object store |
| `StorageTheorems.CopyFails` | src/common/utils/s3.util.ts:45-50 | a concrete copy to a target with a leading slash after which row and object disagree |
| `StorageTheorems.DirectoryIndexAgreement` | src/modules/storage/repositories/storage.repository.ts:101-127 | in every reachable state `parentPath` is exactly the part of `path` before the last slash, so a listing by parent returns precisely the rows one component below |
| `StorageTheorems.EnsureDirsEffect` | src/modules/storage/services/storage.service.ts:267-285 | the loop inserts exactly the missing paths it passes through, with their parents and names, and leaves existing rows untouched |
| `StorageTheorems.PassedArePrefixes` | src/modules/storage/services/storage.service.ts:272-276 | the paths the loop passes through are exactly the prefixes of the path that end at a slash or at its end, leading slashes stripped |
| `StorageTheorems.ReachedPath` | src/modules/storage/services/storage.service.ts:273-276 | the last value of `current` is the path with its leading slashes stripped |
| `StorageTheorems.EnsureDirsIdempotent` | src/modules/storage/services/storage.service.ts:267-285 | running the loop again, even as another user, changes nothing |
| `StorageTheorems.TargetReachable` | src/modules/storage/services/storage.service.ts:267-285 | afterwards the target is reached from the root by parent listings, one step per component |
| `StorageTheorems.DepthIsComponents` | src/modules/storage/services/storage.service.ts:272 | the number of those steps is the number of components |
| `StorageTheorems.ListingIsOneBelow` | src/modules/storage/repositories/storage.repository.ts:115-123 | when parents agree with paths, listing by parent returns precisely the rows one component below |
| `StorageLaws.UploadSucceedsIff` | src/modules/storage/services/storage.service.ts:97-101 | an upload succeeds if and only if there are files and a named organisation exists; without files nothing changes, without the organisation only the user's folder is marked |
| `StorageLaws.UploadEnsuresDirectories` | src/modules/storage/services/storage.service.ts:102-105 | after an upload every prefix of the final path is a directory of the effective owner with its name and parent, the final path is reached by listings from the root, and older directories are untouched |
| `StorageLaws.UploadFilesAll` | src/modules/storage/services/storage.service.ts:109-130 | every uploaded file has an active row with its owner, user, name, size, extension, kind and path, whose object holds its content; no other row changes, the folders are marked and no other object changes |
| `StorageLaws.MoveEffect` | src/modules/storage/services/storage.service.ts:143-165 | a move succeeds exactly for an active file of the owner; row and object go to the target under the old name, and nothing else changes |
| `StorageLaws.CopyEffect` | src/modules/storage/services/storage.service.ts:175-196 | a copy succeeds exactly for an active file of the owner; a second row and a second object appear at a key where nothing lay, and nothing else changes |
| `StorageLaws.DeleteEffect` | src/modules/storage/services/storage.service.ts:200-205 | a deletion marks the row inactive and removes its object, and nothing else |
| `StorageLaws.CreateDirectoryEffect` | src/modules/storage/services/storage.service.ts:39-57 | a directory is created exactly when its path is free: one row with name and parent, and a marker under the path with one trailing slash |
| `StorageLaws.DeleteDirectoryEffect` | src/modules/storage/services/storage.service.ts:59-63 | the row with the path is removed, and nothing else |
| `StorageLaws.FileSurvives` | src/modules/storage/services/storage.service.ts:91-205 | through any requests of a run a file stays with its owner and name and can be read with its content, until its owner deletes it |
| `Paths.SlugGrows` | src/modules/storage/services/storage.service.ts:314-321 | read from left to right each character adds its piece: `@` becomes -at-, a dot or the first of a run of white space a dash, capitals small letters, and what is neither letter, digit nor dash is dropped |
| `Paths.SplitJoin` | src/modules/storage/services/storage.service.ts:272 | splitting a path at its slashes is undone by joining, and no component contains a slash |
| `Paths.UnderInjective` | src/modules/storage/services/storage.service.ts:148 | the directory of a key can be read off the key |
| `Paths.SlugShape` | src/modules/storage/services/storage.service.ts:314-321 | a slug contains no slash, and the slug of an e-mail address is not empty |
| `StorageService.StorageRepository.UpsertDirectory` | src/modules/storage/repositories/storage.repository.ts:101-113 | inserts a missing directory row and leaves an existing one as it is |
| `StorageService.StorageRepository.FindFileById` | src/modules/storage/repositories/storage.repository.ts:32-34 | finds a row of this owner, deleted or not |
| `StorageService.StorageRepository.FindDirectoriesByParent` | src/modules/storage/repositories/storage.repository.ts:115-123 | the paths whose row names this parent |
| `StorageService.StorageRepository.FindFilesByPath` | src/modules/storage/repositories/storage.repository.ts:25-30 | the active files of this owner filed under exactly this path |
| `StorageService.StorageRepository.UpdateFileStoragePath` | src/modules/storage/repositories/storage.repository.ts:55-65 | changes key, path and directory of one row |
| `StorageService.StorageRepository.CreateFileCopy` | src/modules/storage/repositories/storage.repository.ts:67-87 | a new active row with the source's columns and the new place |
| `StorageService.StorageRepository.SoftDeleteFile` | src/modules/storage/repositories/storage.repository.ts:48-53 | marks one row deleted and keeps it |
| `StorageService.ObjectStore.CreateFolder` | src/common/utils/s3.util.ts:28-35 | an empty object under the path with one trailing slash |
| `StorageService.ObjectStore.CopyFile` | src/common/utils/s3.util.ts:40-53 | copies under normalised keys, or fails and writes nothing when the source is missing |
| `StorageService.ObjectStore.DeleteFile` | src/common/utils/s3.util.ts:76-82 | removes exactly the key as given, unnormalised |
| `StorageService.StorageService.CreateDirectory` | src/modules/storage/services/storage.service.ts:39-57 | conflict on an existing path, else marker and row |
| `StorageService.StorageService.DeleteDirectory` | src/modules/storage/services/storage.service.ts:59-63 | removes the row with this path, or fails |
| `StorageService.StorageService.GetFilesAndFolders` | src/modules/storage/services/storage.service.ts:67-79 | lists exactly the directories one component below the path and the active files at it |
| `StorageService.StorageService.EnsureDirectoryExists` | src/modules/storage/services/storage.service.ts:267-285 | the loop over the components, proved equal to the recursive specification |
| `StorageService.StorageService.ResolveUploadDirectory` | src/modules/storage/services/storage.service.ts:226-265 | root path and owner of an upload, with the folder markers written on the way |
| `StorageService.StorageService.StoreFilesUnder` | src/modules/storage/services/storage.service.ts:100-130 | the directories of the final path, then for each file an object and an active row filed under its key |
| `StorageService.StorageService.UploadFiles` | src/modules/storage/services/storage.service.ts:91-133 | no files, unknown organisation, or every file stored with its row |
| `StorageService.StorageService.MoveFile` | src/modules/storage/services/storage.service.ts:143-165 | copy, delete and row update in that order |
| `StorageService.StorageService.CopyFileRecord` | src/modules/storage/services/storage.service.ts:175-196 | copy under a new name, then a new row |
| `StorageService.StorageService.DeleteFile` | src/modules/storage/services/storage.service.ts:200-205 | object removed, row marked deleted |
| `StorageService.StorageService.Handle` | src/modules/storage/services/storage.service.ts:39-205 | whatever requests come in, rows, objects and directories agree afterwards |
| `CaseNumbers.SameNumberIff` | src/modules/cases/repositories/cases.repository.ts:92 | two case numbers coincide if and only if the counters do and the organisations' ids agree on their first four characters, letter case aside |
| `CaseNumbers.PaddedValue` | src/modules/cases/repositories/cases.repository.ts:92 | zero-padded printing is undone by reading the digits, for every natural number |
| `CaseNumbers.FormatShape` | src/modules/cases/repositories/cases.repository.ts:92 | the printed shape: JL, the tag and the counter between dashes; the counter in decimal, five digits at least, zeros in front only to make up five |
| `CaseNumbers.TagIs` | src/modules/cases/repositories/cases.repository.ts:92 | the tag is as many as four characters of the organisation's id, capitals for small letters |
| `Cases.CountIs` | src/modules/cases/repositories/cases.repository.ts:91 | the count is that of the organisation's rows, deleted ones included |
| `Cases.DeletedEffect` | src/modules/cases/repositories/cases.repository.ts:78-80 | soft deletion sets the flag of one row and keeps every row, organisation and number |
| `Cases.NumbersAreOneToN` | src/modules/cases/repositories/cases.repository.ts:78-93 | for any interleaving of count and insert steps of any number of creators, an organisation's committed rows carry exactly the numbers 1..n in commit order, soft-deleted rows included, and no number occurs twice |
| `Cases.CommitsIff` | src/modules/cases/services/cases.service.ts:16-31 | a creation that counts at one step and inserts at a later one commits if and only if no case of its organisation was committed in between and no other organisation with the same first four characters has a case; it then commits the next number |
| `Cases.OneOrgPerTag` | prisma/schema.prisma:519 | of the organisations whose ids agree on their first four characters, at most one ever has a case |
| `Cases.TagIsLostForGood` | prisma/schema.prisma:519 | once an organisation has a case, no other with the same first four characters ever gets one |
| `Cases.SharedTagFails` | src/modules/cases/repositories/cases.repository.ts:90-93 | a concrete run of two organisations in which the second creation is refused although nothing interferes |
| `Cases.NextIsFreeIff` | src/modules/cases/repositories/cases.repository.ts:90-93 | an organisation's next number is free if and only if no other organisation with the same first four characters has a case |
| `Cases.InsertSequential` | src/modules/cases/services/cases.service.ts:17-19 | a number that was counted earlier either hits the unique index or continues the sequence |
| `Cases.CasesRepository.GetNextCaseNumber` | src/modules/cases/repositories/cases.repository.ts:90-93 | the printed count of the organisation's rows, deleted ones included, plus one |
| `Cases.CasesRepository.Create` | src/modules/cases/repositories/cases.repository.ts:9-14 | the row is added if and only if its number is not in the table |
| `Cases.CasesRepository.SoftDelete` | src/modules/cases/repositories/cases.repository.ts:78-80 | one row is marked deleted and stays |
| `Cases.CasesService.SoftDeleteStep` | src/modules/cases/repositories/cases.repository.ts:78-80 | a soft deletion is a step of the run that marks one row |
| `Cases.CasesService.Create` | src/modules/cases/services/cases.service.ts:16-31 | count and insert with nothing in between succeed if and only if no other organisation with the same first four characters has a case |
| `Paise.ExactPaise` | src/modules/payments/services/payments.service.ts:35-36 | `Math.round(Number(price) * 100)`, with both roundings of double precision carried out, equals the exact number of paise for every price of two decimals below 2^51 paise, which covers every price of the column |
| `Paise.ExactIff` | src/modules/payments/services/payments.service.ts:36 | under any relative errors of at most 2^-53 the result is exact if and only if the amount is below 2^51 paise |
| `Paise.LimitFails` | src/modules/payments/services/payments.service.ts:36 | at 2^51 paise two relative errors of 2^-53 give one paisa too many |
| `Paise.RoundIs` | src/modules/payments/services/payments.service.ts:36 | rounding gives the nearest integer, half-way the upper one |
| `Doubles.NearestIsNearest` | src/modules/payments/services/payments.service.ts:36 | no number with 53 significant bits is nearer than the one rounded to (section 4.3.1 of IEEE 754-2019) |
| `Doubles.NearestIsDouble` | src/modules/payments/services/payments.service.ts:36 | the rounded number has 53 significant bits, and in case of a tie the last one is even |
| `Doubles.NearestWithin` | src/modules/payments/services/payments.service.ts:36 | rounding to 53 significant bits, ties to even, has relative error at most 2^-53 (section 4.3.1 of IEEE 754-2019) |
| `Paise.PaymentsService.CreateOrder` | src/modules/payments/services/payments.service.ts:33-50 | the amount ordered is the price of the chosen interval to the last paisa, and the pending payment records that price |
| `Pagination.PagesPartition` | src/common/utils/pagination.util.ts:39-68 | following `hasNextPage` from page 1 ends after exactly the pages 1..`totalPages` (the first alone for an empty list), and what was read is the list, every item once and in order |
| `Pagination.NextPageIff` | src/common/utils/pagination.util.ts:49-68 | `hasNextPage` holds exactly when the list goes on after this page, a page with a next one is full, and a page is empty exactly beyond `totalPages` |
| `Pagination.VisitedItems` | src/common/utils/pagination.util.ts:39-43 | reading on from any page returns the list from that page's offset |
| `Pagination.EnvelopeIs` | src/common/utils/pagination.util.ts:49-68 | the envelope: defaults 1 and 20 for what is absent or zero, the fewest pages that hold the total, and whether there is a page on either side |
| `Pagination.ListPageIs` | src/common/utils/pagination.util.ts:39-43 | a page holds the items from its offset on, as many as the limit allows |
| `Pagination.ConversationIs` | src/modules/chat/repositories/chat.repository.ts:25-47 | the conversation is exactly the messages of the case that are not deleted, each as often as in the table and in table order |
| `Pagination.ChatPageIs` | src/modules/chat/services/chat.service.ts:34-42 | a chat page is the stretch of the conversation between two distances from its end, in chronological order |
| `Pagination.ChatIsChronological` | src/modules/chat/services/chat.service.ts:34-42 | read from the last page to the first, the reversed pages are the conversation in chronological order |
| `Pagination.ChatRepository.CountByCaseId` | src/modules/chat/repositories/chat.repository.ts:44-48 | the number of positions in the table that hold a message of the case that is not deleted |
| `Pagination.ChatService.GetMessages` | src/modules/chat/services/chat.service.ts:34-42 | every item is a message of the table, of that case and not deleted; the page is a stretch of the positions of all such messages in table order, and the total is their number |

## Left out

- Interleaving inside an authentication or storage request, such as two concurrent logins that both read the counter: each request is one step.
- The object store's own refusal to copy an object onto itself: copying is modelled as a write under a key, and the move into the same directory is stated for that.
- Rounding at the ends of the exponent range of double precision: `Doubles.Nearest` has no overflow and no underflow, neither of which a price can reach.
- Letter case and white space outside ASCII in slugs and case numbers: only ASCII letters change case and only ASCII white space is collapsed.
- Upper-casing that changes the length of a string: the first four characters of an organisation's id are mapped one by one.
- Rows of organisations, professionals and memberships created along with a registration: no authentication step reads them.
- Permission caches under `jl:permissions:`: they are only deleted by pattern and never hold what is modelled.
- Access token signatures and their expiry, and the guard that checks a refresh token's signature before a refresh: library calls in front of the modelled steps.
- Logout without the sid that presents a token with an unexpired grace entry: the model follows the code, which looks up the current token only; the theorem on final revocation covers logout with a sid.
- Access tokens issued by e-mail verification carry no sid, so no revocation reaches them: revocation is stated for payloads with a sid.
- AuthService.AuthService.AdminSetAccount: stands for every route that changes activation, approval or deletion, without their other columns.
- AuthService.AuthService.Register: does not model the personal, professional and organisation columns of the four registration endpoints.
- StorageService.StorageService.GetFilesAndFolders: does not model the order of the listing or the signed URLs.
- Pagination.ChatService.GetMessages: messages are taken in the order in which they were sent; two messages with one time stamp may come in either order in the database.
- The kind of an uploaded file, which is read off its MIME type, and its extension: both come with the upload.
- Pages below 1 and limits below 1, which the validation of the page parameters refuses.
- Messages that arrive between the requests for two pages.
- The order in which plan links are listed, and the plans themselves: a link is a pair of a plan and a module or feature.
- Subscription plans, subscription periods, payment status, invites, notifications, chat presence and the plain reads and writes of the other modules: single-branch or library code with no invariant over runs.
- Guards, controllers, validation, templates and configuration: wiring.
