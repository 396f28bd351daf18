// Runs of the authentication service, what a single step can touch, and the invariant
// every reachable state satisfies.
module AuthRuns {

  import opened Options
  import opened Redis
  import opened AuthModel

  // ---- Random draws ----

  function MintedSession(req: Request): Option<SessionId> {
    match req
    case Login(_, _, _, _, sid, _) => Some(sid)
    case VerifyMfa(_, _, sid, _) => Some(sid)
    case VerifyMfaBackupCode(_, _, sid, _) => Some(sid)
    case _ => None
  }

  function MintedRefresh(req: Request): Option<Token> {
    match req
    case Login(_, _, _, _, _, refresh) => Some(refresh)
    case VerifyEmailOtp(_, _, _, refresh) => Some(refresh)
    case VerifyMfa(_, _, _, refresh) => Some(refresh)
    case VerifyMfaBackupCode(_, _, _, refresh) => Some(refresh)
    case RefreshTokens(_, refresh) => Some(refresh)
    case _ => None
  }

  // Temporary tokens of the second factor and of the password reset.
  function MintedSecret(req: Request): Option<Token> {
    match req
    case Login(_, _, _, mfaTemp, _, _) => Some(mfaTemp)
    case VerifyForgotPasswordOtp(_, _, resetToken) => Some(resetToken)
    case _ => None
  }

  predicate Differ<T(==)>(a: Option<T>, b: Option<T>) {
    a.Some? ==> a != b
  }

  // uuids, secure tokens and minted refresh tokens never repeat.
  predicate FreshAfter(earlier: Request, later: Request) {
    && Differ(MintedSession(earlier), MintedSession(later))
    && Differ(MintedRefresh(earlier), MintedRefresh(later))
    && Differ(MintedSecret(earlier), MintedSecret(later))
  }

  // What the environment guarantees of the random values of one request.
  predicate WellDrawn(s: State, req: Request) {
    match req
    case Register(_, userId, _, _, _) => userId !in s.users
    case EnableMfa(_, _, codes) => |codes| == BACKUP_CODE_COUNT
    case RegenerateBackupCodes(_, codes) => |codes| == BACKUP_CODE_COUNT
    case _ => true
  }

  // ---- The state invariant ----

  ghost predicate UniqueEmails(users: map<UserId, User>) {
    forall a, b :: a in users && b in users && users[a].email == users[b].email ==> a == b
  }

  ghost predicate UniqueHashes(sessions: map<SessionId, Session>) {
    forall a, b :: a in sessions && b in sessions && sessions[a].tokenHash == sessions[b].tokenHash ==> a == b
  }

  predicate SecurityOk(sec: Security) {
    && (sec.lockedUntil.Some? <==> sec.loginAttempts >= MAX_LOGIN_ATTEMPTS)
    && (!sec.mfaEnabled ==> sec.mfaSecret.None? && sec.backupCodes == [])
  }

  ghost predicate SessionsOk(s: State) {
    forall sid :: sid in s.sessions ==>
      && s.sessions[sid].userId in s.users
      && s.sessions[sid].expiresAt == s.sessions[sid].createdAt + SESSION_LIFETIME
  }

  ghost predicate Inv(s: State) {
    && UniqueEmails(s.users)
    && UniqueHashes(s.sessions)
    && SessionsOk(s)
    && s.security.Keys <= s.users.Keys
    && (forall id :: id in s.security ==> SecurityOk(s.security[id]))
  }

  // A run starts from any accounts, with no session and an empty keyed store.
  ghost predicate Initial(s: State) {
    Inv(s) && s.sessions == map[] && s.redis == map[]
  }

  // ---- Runs ----

  datatype Run = Run(states: seq<State>, calls: seq<Call>)

  ghost predicate StepAt(r: Run, i: nat)
    requires |r.states| == |r.calls| + 1 && i < |r.calls|
  {
    WellDrawn(r.states[i], r.calls[i].req) && r.states[i + 1] == Step(r.states[i], r.calls[i]).state
  }

  predicate Before(a: Call, b: Call) {
    a.at <= b.at && FreshAfter(a.req, b.req)
  }

  ghost predicate IsRun(r: Run) {
    && |r.states| == |r.calls| + 1
    && Initial(r.states[0])
    && (forall i :: 0 <= i < |r.calls| ==> StepAt(r, i))
    && (forall i, j :: 0 <= i < j < |r.calls| ==> Before(r.calls[i], r.calls[j]))
  }

  ghost predicate Admissible(r: Run, c: Call)
    requires |r.states| > 0
  {
    && WellDrawn(r.states[|r.states| - 1], c.req)
    && (forall i :: 0 <= i < |r.calls| ==> Before(r.calls[i], c))
  }

  ghost function Extend(r: Run, c: Call): Run
    requires |r.states| > 0
  {
    Run(r.states + [Step(r.states[|r.states| - 1], c).state], r.calls + [c])
  }

  lemma ExtendRun(r: Run, c: Call)
    requires IsRun(r) && Admissible(r, c)
    ensures IsRun(Extend(r, c))
  {
    var e := Extend(r, c);
    forall i | 0 <= i < |e.calls|
      ensures StepAt(e, i)
    {
      if i < |r.calls| {
        assert StepAt(r, i);
        assert e.states[i] == r.states[i] && e.states[i + 1] == r.states[i + 1] && e.calls[i] == r.calls[i];
      }
    }
  }

  // ---- What one step can touch ----

  function TouchedKeys(req: Request): set<Key> {
    match req
    case Register(_, _, email, _, _) => {OtpVerify(email)}
    case Login(email, _, _, mfaTemp, _, _) => {OtpVerify(email), MfaTemp(mfaTemp)}
    case VerifyEmailOtp(email, _, _, _) => {OtpVerify(email)}
    case ResendOtp(email, _) => {OtpVerify(email), OtpResend(email)}
    case VerifyMfa(mfaTemp, _, _, _) => {MfaTemp(mfaTemp)}
    case VerifyMfaBackupCode(mfaTemp, _, _, _) => {MfaTemp(mfaTemp)}
    case ForgotPassword(email, _) => {OtpPwd(email)}
    case VerifyForgotPasswordOtp(email, _, resetToken) => {OtpPwd(email), ResetSession(resetToken)}
    case ResetPassword(resetToken, _) => {ResetSession(resetToken)}
    case RefreshTokens(presented, _) => {Grace(HashToken(presented))}
    case SetupMfa(userId, _) => {MfaSetup(userId)}
    case EnableMfa(userId, _, _) => {MfaSetup(userId)}
    case _ => {}
  }

  predicate SameEntry(a: Store, b: Store, key: Key) {
    (key in a <==> key in b) && (key in a ==> a[key] == b[key])
  }

  // The keyed store changes only at the keys the request names.
  ghost predicate RedisFramed(s: State, c: Call, t: State) {
    forall key :: key !in TouchedKeys(c.req) ==> SameEntry(s.redis, t.redis, key)
  }

  // Accounts are never removed and keep their address.
  ghost predicate AccountsFramed(s: State, t: State) {
    && s.users.Keys <= t.users.Keys
    && (forall id :: id in s.users ==> t.users[id].email == s.users[id].email)
    && s.security.Keys <= t.security.Keys
    && t.security.Keys - s.security.Keys <= t.users.Keys
  }

  // A new account has an address nobody had.
  ghost predicate NewAccounts(s: State, c: Call, t: State) {
    forall id :: id in t.users && id !in s.users ==>
      c.req.Register? && id == c.req.userId && t.users[id].email == c.req.email && UserByEmail(s.users, c.req.email).None?
  }

  // A session row that survives keeps its owner, its creation time and its expiry; its
  // token hash moves only when the current token is presented for a refresh.
  predicate SessionKept(s: State, c: Call, t: State, sid: SessionId)
    requires sid in s.sessions && sid in t.sessions
  {
    && t.sessions[sid].userId == s.sessions[sid].userId
    && t.sessions[sid].createdAt == s.sessions[sid].createdAt
    && t.sessions[sid].expiresAt == s.sessions[sid].expiresAt
    && (t.sessions[sid].tokenHash == s.sessions[sid].tokenHash
        || (&& c.req.RefreshTokens?
            && HashToken(c.req.presented) == s.sessions[sid].tokenHash
            && t.sessions[sid].tokenHash == HashToken(c.req.refresh)))
  }

  // A row for a session id the request minted is new: it carries the minted refresh token
  // and expires seven days later.
  predicate SessionOpened(c: Call, t: State, sid: SessionId)
    requires sid in t.sessions
  {
    && MintedSession(c.req) == Some(sid)
    && MintedRefresh(c.req).Some?
    && t.sessions[sid].tokenHash == HashToken(MintedRefresh(c.req).value)
    && t.sessions[sid].createdAt == c.at
    && t.sessions[sid].expiresAt == c.at + SESSION_LIFETIME
    && t.sessions[sid].userId in t.users
  }

  ghost predicate SessionsFramed(s: State, c: Call, t: State) {
    forall sid :: sid in t.sessions ==>
      SessionOpened(c, t, sid) || (sid in s.sessions && SessionKept(s, c, t, sid))
  }

  ghost predicate Framed(s: State, c: Call, t: State) {
    RedisFramed(s, c, t) && AccountsFramed(s, t) && NewAccounts(s, c, t) && SessionsFramed(s, c, t)
  }

  ghost function AfterLogin(s: State, c: Call): State
    requires c.req.Login?
  {
    LoginStep(s, c.at, c.req.email, c.req.password, c.req.otp, c.req.mfaTemp, c.req.sid, c.req.refresh).state
  }

  lemma LoginRedisFramed(s: State, c: Call)
    requires c.req.Login?
    ensures RedisFramed(s, c, AfterLogin(s, c))
  {
  }

  lemma LoginAccountsFramed(s: State, c: Call)
    requires c.req.Login?
    ensures AccountsFramed(s, AfterLogin(s, c)) && NewAccounts(s, c, AfterLogin(s, c))
  {
  }

  lemma LoginSessionsFramed(s: State, c: Call)
    requires c.req.Login?
    ensures SessionsFramed(s, c, AfterLogin(s, c))
  {
  }

  lemma LoginFramed(s: State, c: Call)
    requires c.req.Login?
    ensures Framed(s, c, AfterLogin(s, c))
  {
    LoginRedisFramed(s, c);
    LoginAccountsFramed(s, c);
    LoginSessionsFramed(s, c);
  }

  lemma RegisterFramed(s: State, c: Call)
    requires c.req.Register? && WellDrawn(s, c.req)
    ensures Framed(s, c, RegisterStep(s, c.at, c.req.kind, c.req.userId, c.req.email, c.req.password, c.req.otp).state)
  {
  }

  ghost function AfterVerifyEmail(s: State, c: Call): State
    requires c.req.VerifyEmailOtp?
  {
    VerifyEmailOtpStep(s, c.at, c.req.email, c.req.otp, c.req.production, c.req.refresh).state
  }

  lemma VerifyEmailRedisFramed(s: State, c: Call)
    requires c.req.VerifyEmailOtp?
    ensures RedisFramed(s, c, AfterVerifyEmail(s, c)) && SessionsFramed(s, c, AfterVerifyEmail(s, c))
  {
  }

  lemma VerifyEmailAccountsFramed(s: State, c: Call)
    requires c.req.VerifyEmailOtp?
    ensures AccountsFramed(s, AfterVerifyEmail(s, c)) && NewAccounts(s, c, AfterVerifyEmail(s, c))
  {
  }

  lemma VerifyEmailFramed(s: State, c: Call)
    requires c.req.VerifyEmailOtp?
    ensures Framed(s, c, AfterVerifyEmail(s, c))
  {
    VerifyEmailRedisFramed(s, c);
    VerifyEmailAccountsFramed(s, c);
  }

  lemma ResendFramed(s: State, c: Call)
    requires c.req.ResendOtp?
    ensures Framed(s, c, ResendOtpStep(s, c.at, c.req.email, c.req.otp).state)
  {
  }

  lemma VerifyMfaFramed(s: State, c: Call)
    requires c.req.VerifyMfa?
    ensures Framed(s, c, VerifyMfaStep(s, c.at, c.req.mfaTemp, c.req.totpValid, c.req.sid, c.req.refresh).state)
  {
  }

  lemma BackupCodeFramed(s: State, c: Call)
    requires c.req.VerifyMfaBackupCode?
    ensures Framed(s, c, VerifyMfaBackupCodeStep(s, c.at, c.req.mfaTemp, c.req.code, c.req.sid, c.req.refresh).state)
  {
  }

  lemma RefreshFramed(s: State, c: Call)
    requires c.req.RefreshTokens?
    ensures Framed(s, c, RefreshTokensStep(s, c.at, c.req.presented, c.req.refresh).state)
  {
    var t := RefreshTokensStep(s, c.at, c.req.presented, c.req.refresh).state;
    assert AccountsFramed(s, t) && NewAccounts(s, c, t);
    hide AccountsFramed, NewAccounts;
  }

  lemma ForgotFramed(s: State, c: Call)
    ensures c.req.ForgotPassword? ==> Framed(s, c, ForgotPasswordStep(s, c.at, c.req.email, c.req.otp).state)
    ensures c.req.VerifyForgotPasswordOtp? ==>
              Framed(s, c, VerifyForgotPasswordOtpStep(s, c.at, c.req.email, c.req.otp, c.req.resetToken).state)
  {
  }

  lemma ResetFramed(s: State, c: Call)
    requires c.req.ResetPassword?
    ensures Framed(s, c, ResetPasswordStep(s, c.at, c.req.resetToken, c.req.password).state)
  {
  }

  predicate OnlySessions(req: Request) {
    req.Logout? || req.RevokeSession? || req.RevokeAllSessions?
  }

  predicate OnlySettings(req: Request) {
    req.AdminSetAccount? || req.SetupMfa? || req.EnableMfa? || req.DisableMfa? || req.RegenerateBackupCodes?
  }

  lemma OnlySessionsFramed(s: State, c: Call)
    requires OnlySessions(c.req)
    ensures Framed(s, c, Step(s, c).state)
  {
    hide LoginStep, RegisterStep, VerifyEmailOtpStep, ResendOtpStep, VerifyMfaStep, VerifyMfaBackupCodeStep;
    hide RefreshTokensStep, ForgotPasswordStep, VerifyForgotPasswordOtpStep, ResetPasswordStep;
    hide SetupMfaStep, EnableMfaStep, DisableMfaStep, RegenerateBackupCodesStep, AdminSetAccountStep;
  }

  lemma OnlySettingsFramed(s: State, c: Call)
    requires OnlySettings(c.req)
    ensures Framed(s, c, Step(s, c).state)
  {
    hide LoginStep, RegisterStep, VerifyEmailOtpStep, ResendOtpStep, VerifyMfaStep, VerifyMfaBackupCodeStep;
    hide RefreshTokensStep, ForgotPasswordStep, VerifyForgotPasswordOtpStep, ResetPasswordStep;
    hide LogoutStep, RevokeSessionStep, RevokeAllSessionsStep;
    assert Step(s, c).state.sessions == s.sessions;
  }

  lemma StepFramed(s: State, c: Call)
    requires WellDrawn(s, c.req)
    ensures Framed(s, c, Step(s, c).state)
  {
    hide Framed;
    if OnlySessions(c.req) {
      hide Step;
      OnlySessionsFramed(s, c);
    } else if OnlySettings(c.req) {
      hide Step;
      OnlySettingsFramed(s, c);
    } else {
      hide LoginStep, RegisterStep, VerifyEmailOtpStep, ResendOtpStep, VerifyMfaStep, VerifyMfaBackupCodeStep;
      hide RefreshTokensStep, ForgotPasswordStep, VerifyForgotPasswordOtpStep, ResetPasswordStep;
      match c.req {
        case Login(_, _, _, _, _, _) => LoginFramed(s, c);
        case Register(_, _, _, _, _) => RegisterFramed(s, c);
        case VerifyEmailOtp(_, _, _, _) => VerifyEmailFramed(s, c);
        case ResendOtp(_, _) => ResendFramed(s, c);
        case VerifyMfa(_, _, _, _) => VerifyMfaFramed(s, c);
        case VerifyMfaBackupCode(_, _, _, _) => BackupCodeFramed(s, c);
        case RefreshTokens(_, _) => RefreshFramed(s, c);
        case ForgotPassword(_, _) => ForgotFramed(s, c);
        case VerifyForgotPasswordOtp(_, _, _) => ForgotFramed(s, c);
        case ResetPassword(_, _) => ResetFramed(s, c);
      }
    }
  }

  // ---- The login counter ----

  // The request compares a password for this account.
  ghost predicate Compared(s: State, c: Call, id: UserId) {
    && c.req.Login?
    && UserByEmail(s.users, c.req.email) == Some(id)
    && s.users[id].isActive
    && id in s.security
    && !Locked(s.security[id], c.at)
  }

  ghost predicate RightPassword(s: State, c: Call, id: UserId) {
    Compared(s, c, id) && ComparePassword(c.req.password, s.security[id].passwordHash)
  }

  ghost predicate WrongPassword(s: State, c: Call, id: UserId) {
    Compared(s, c, id) && !ComparePassword(c.req.password, s.security[id].passwordHash)
  }

  predicate SameLock(a: Security, b: Security) {
    a.loginAttempts == b.loginAttempts && a.lockedUntil == b.lockedUntil
  }

  predicate FreshSecurity(sec: Security) {
    sec.loginAttempts == 0 && sec.lockedUntil == None && !sec.mfaEnabled && sec.mfaSecret == None && sec.backupCodes == []
  }

  // Only a compared password moves the counter and the lock of an account.
  ghost predicate LockFramed(s: State, c: Call, t: State) {
    forall id :: id in t.security ==>
      if id !in s.security then FreshSecurity(t.security[id])
      else if WrongPassword(s, c, id) then SameLock(t.security[id], AfterWrongPassword(s.security[id], c.at))
      else if RightPassword(s, c, id) then SameLock(t.security[id], AfterRightPassword(s.security[id]))
      else SameLock(t.security[id], s.security[id])
  }

  // ---- The second factor ----

  predicate SameMfa(a: Security, b: Security) {
    a.mfaEnabled == b.mfaEnabled && a.mfaSecret == b.mfaSecret && a.backupCodes == b.backupCodes
  }

  // The request sets ten new backup codes for this account.
  ghost predicate SetsCodes(s: State, c: Call, id: UserId) {
    && (c.req.EnableMfa? || c.req.RegenerateBackupCodes?)
    && c.req.userId == id
    && Step(s, c).reply.BackupCodes?
  }

  ghost predicate TurnsMfaOff(s: State, c: Call, id: UserId) {
    c.req.DisableMfa? && c.req.userId == id && Step(s, c).reply.Done?
  }

  // The request logs in with a backup code of this account.
  ghost predicate AcceptsCode(s: State, c: Call, id: UserId) {
    && c.req.VerifyMfaBackupCode?
    && UserRefAt(s.redis, c.at, MfaTemp(c.req.mfaTemp)) == Some(id)
    && id in s.users && id in s.security
    && HashToken(c.req.code) in s.security[id].backupCodes
  }

  ghost predicate MfaMoved(s: State, c: Call, t: State, id: UserId)
    requires id in s.security && id in t.security
  {
    if AcceptsCode(s, c, id) then
      var before := s.security[id].backupCodes;
      var i := IndexOf(before, HashToken(c.req.code));
      && t.security[id].mfaEnabled == s.security[id].mfaEnabled
      && t.security[id].mfaSecret == s.security[id].mfaSecret
      && t.security[id].backupCodes == RemoveAt(before, i)
    else if SetsCodes(s, c, id) then
      && t.security[id].mfaEnabled
      && t.security[id].backupCodes == HashAll(c.req.codes)
    else if TurnsMfaOff(s, c, id) then
      !t.security[id].mfaEnabled && t.security[id].mfaSecret == None && t.security[id].backupCodes == []
    else SameMfa(t.security[id], s.security[id])
  }

  ghost predicate MfaFramed(s: State, c: Call, t: State) {
    forall id :: id in s.security && id in t.security ==> MfaMoved(s, c, t, id)
  }

  predicate MovesSecurity(req: Request) {
    || req.Register? || req.Login? || req.VerifyMfaBackupCode? || req.ResetPassword?
    || req.EnableMfa? || req.DisableMfa? || req.RegenerateBackupCodes?
  }

  lemma SecurityUntouched(s: State, c: Call)
    requires !MovesSecurity(c.req)
    ensures Step(s, c).state.security == s.security
  {
  }

  lemma LoginLockFramed(s: State, c: Call)
    requires c.req.Login?
    ensures LockFramed(s, c, AfterLogin(s, c))
  {
  }

  lemma LoginMfaFramed(s: State, c: Call)
    requires c.req.Login?
    ensures MfaFramed(s, c, AfterLogin(s, c))
  {
    hide Step;
  }

  lemma RegisterSecurityFramed(s: State, c: Call)
    requires c.req.Register? && WellDrawn(s, c.req) && s.security.Keys <= s.users.Keys
    ensures var t := RegisterStep(s, c.at, c.req.kind, c.req.userId, c.req.email, c.req.password, c.req.otp).state;
      LockFramed(s, c, t) && MfaFramed(s, c, t)
  {
    hide Step;
  }

  lemma BackupCodeSecurityFramed(s: State, c: Call)
    requires c.req.VerifyMfaBackupCode?
    ensures var t := VerifyMfaBackupCodeStep(s, c.at, c.req.mfaTemp, c.req.code, c.req.sid, c.req.refresh).state;
      LockFramed(s, c, t) && MfaFramed(s, c, t)
  {
    hide Step;
  }

  lemma ResetSecurityFramed(s: State, c: Call)
    requires c.req.ResetPassword?
    ensures var t := ResetPasswordStep(s, c.at, c.req.resetToken, c.req.password).state;
      LockFramed(s, c, t) && MfaFramed(s, c, t)
  {
    hide Step;
  }

  lemma EnableMfaFramed(s: State, c: Call)
    requires c.req.EnableMfa?
    ensures LockFramed(s, c, Step(s, c).state) && MfaFramed(s, c, Step(s, c).state)
  {
  }

  lemma DisableMfaFramed(s: State, c: Call)
    requires c.req.DisableMfa?
    ensures LockFramed(s, c, Step(s, c).state) && MfaFramed(s, c, Step(s, c).state)
  {
  }

  lemma RegenerateFramed(s: State, c: Call)
    requires c.req.RegenerateBackupCodes?
    ensures LockFramed(s, c, Step(s, c).state) && MfaFramed(s, c, Step(s, c).state)
  {
  }

  lemma StepSecurityFramed(s: State, c: Call)
    requires WellDrawn(s, c.req) && s.security.Keys <= s.users.Keys
    ensures LockFramed(s, c, Step(s, c).state) && MfaFramed(s, c, Step(s, c).state)
  {
    if !MovesSecurity(c.req) {
      assert Step(s, c).state.security == s.security by { SecurityUntouched(s, c); }
      hide Step;
    } else if c.req.EnableMfa? || c.req.DisableMfa? || c.req.RegenerateBackupCodes? {
      hide Step;
      match c.req {
        case EnableMfa(_, _, _) => EnableMfaFramed(s, c);
        case DisableMfa(_, _) => DisableMfaFramed(s, c);
        case RegenerateBackupCodes(_, _) => RegenerateFramed(s, c);
      }
    } else {
      hide LoginStep, RegisterStep, VerifyMfaBackupCodeStep, ResetPasswordStep;
      match c.req {
        case Register(_, _, _, _, _) => RegisterSecurityFramed(s, c);
        case Login(_, _, _, _, _, _) => LoginLockFramed(s, c); LoginMfaFramed(s, c);
        case VerifyMfaBackupCode(_, _, _, _) => BackupCodeSecurityFramed(s, c);
        case ResetPassword(_, _) => ResetSecurityFramed(s, c);
      }
    }
  }

  // ---- The invariant over runs ----

  // No session holds the refresh token this request mints.
  ghost predicate NewHash(s: State, c: Call) {
    MintedRefresh(c.req).Some? ==>
      forall sid :: sid in s.sessions ==> s.sessions[sid].tokenHash != HashToken(MintedRefresh(c.req).value)
  }

  lemma SecurityInv(s: State, c: Call, t: State)
    requires Inv(s) && LockFramed(s, c, t) && MfaFramed(s, c, t)
    ensures forall id :: id in t.security ==> SecurityOk(t.security[id])
  {
    hide Step, UniqueEmails, UniqueHashes, SessionsOk, Compared;
    forall id | id in t.security
      ensures SecurityOk(t.security[id])
    {
      if id in s.security {
        assert SecurityOk(s.security[id]) && MfaMoved(s, c, t, id);
      }
    }
  }

  lemma EmailsInv(s: State, c: Call, t: State)
    requires UniqueEmails(s.users) && AccountsFramed(s, t) && NewAccounts(s, c, t)
    ensures UniqueEmails(t.users)
  {
  }

  lemma HashesInv(s: State, c: Call, t: State)
    requires UniqueHashes(s.sessions) && NewHash(s, c) && SessionsFramed(s, c, t)
    ensures UniqueHashes(t.sessions)
  {
  }

  lemma SessionsInv(s: State, c: Call, t: State)
    requires SessionsOk(s) && AccountsFramed(s, t) && SessionsFramed(s, c, t)
    ensures SessionsOk(t)
  {
  }

  lemma StepInv(s: State, c: Call)
    requires Inv(s) && WellDrawn(s, c.req) && NewHash(s, c)
    ensures Inv(Step(s, c).state)
  {
    hide Step, LockFramed, MfaFramed, UniqueEmails, UniqueHashes, SessionsOk, SecurityOk;
    hide NewAccounts, SessionsFramed, RedisFramed;
    StepFramed(s, c);
    StepSecurityFramed(s, c);
    SecurityInv(s, c, Step(s, c).state);
    EmailsInv(s, c, Step(s, c).state);
    HashesInv(s, c, Step(s, c).state);
    SessionsInv(s, c, Step(s, c).state);
  }

  ghost predicate HashMinted(calls: seq<Call>, h: TokenHash) {
    exists j :: 0 <= j < |calls| && MintedRefresh(calls[j].req) == Some(h.of)
  }

  ghost predicate SessionMinted(calls: seq<Call>, sid: SessionId) {
    exists j :: 0 <= j < |calls| && MintedSession(calls[j].req) == Some(sid)
  }

  // Every session id and every current token was minted by an earlier request.
  ghost predicate AllMinted(s: State, calls: seq<Call>) {
    forall sid :: sid in s.sessions ==> HashMinted(calls, s.sessions[sid].tokenHash) && SessionMinted(calls, sid)
  }

  lemma MintedGrows(calls: seq<Call>, c: Call, h: TokenHash, sid: SessionId)
    ensures HashMinted(calls, h) || MintedRefresh(c.req) == Some(h.of) ==> HashMinted(calls + [c], h)
    ensures SessionMinted(calls, sid) || MintedSession(c.req) == Some(sid) ==> SessionMinted(calls + [c], sid)
  {
    var more := calls + [c];
    assert more[|calls|] == c;
    if HashMinted(calls, h) {
      var j :| 0 <= j < |calls| && MintedRefresh(calls[j].req) == Some(h.of);
      assert more[j] == calls[j];
    }
    if SessionMinted(calls, sid) {
      var j :| 0 <= j < |calls| && MintedSession(calls[j].req) == Some(sid);
      assert more[j] == calls[j];
    }
  }

  lemma MintedStep(s: State, calls: seq<Call>, c: Call)
    requires AllMinted(s, calls) && WellDrawn(s, c.req)
    ensures AllMinted(Step(s, c).state, calls + [c])
  {
    hide Step;
    StepFramed(s, c);
    var t := Step(s, c).state;
    forall sid | sid in t.sessions
      ensures HashMinted(calls + [c], t.sessions[sid].tokenHash) && SessionMinted(calls + [c], sid)
    {
      MintedGrows(calls, c, t.sessions[sid].tokenHash, sid);
      hide HashMinted, SessionMinted;
      assert SessionOpened(c, t, sid) || (sid in s.sessions && SessionKept(s, c, t, sid));
    }
  }

  // The minted values of call `i` are not yet in use at that time.
  lemma MintedFresh(r: Run, i: nat)
    requires IsRun(r) && i < |r.calls| && AllMinted(r.states[i], r.calls[..i])
    ensures NewHash(r.states[i], r.calls[i])
    ensures MintedSession(r.calls[i].req).Some? ==> MintedSession(r.calls[i].req).value !in r.states[i].sessions
  {
    hide StepAt, Initial;
    var s, c := r.states[i], r.calls[i];
    forall sid | sid in s.sessions
      ensures MintedRefresh(c.req) != Some(s.sessions[sid].tokenHash.of) && MintedSession(c.req) != Some(sid)
    {
      var j :| 0 <= j < i && MintedRefresh(r.calls[..i][j].req) == Some(s.sessions[sid].tokenHash.of);
      assert Before(r.calls[j], r.calls[i]);
      var k :| 0 <= k < i && MintedSession(r.calls[..i][k].req) == Some(sid);
      assert Before(r.calls[k], r.calls[i]);
    }
  }

  // In every reachable state the invariant holds and every session was minted.
  lemma {:induction false} ReachableInv(r: Run, i: nat)
    requires IsRun(r) && i < |r.states|
    ensures Inv(r.states[i]) && AllMinted(r.states[i], r.calls[..i])
  {
    if i > 0 {
      ReachableInv(r, i - 1);
      assert StepAt(r, i - 1);
      MintedFresh(r, i - 1);
      hide Inv, AllMinted, NewHash, Step;
      StepInv(r.states[i - 1], r.calls[i - 1]);
      MintedStep(r.states[i - 1], r.calls[..i - 1], r.calls[i - 1]);
      assert r.calls[..i] == r.calls[..i - 1] + [r.calls[i - 1]];
    }
  }
}
