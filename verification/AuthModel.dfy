// The state of the authentication service and what each endpoint does to it: one
// function per endpoint, from the state before a request to the state after it and the
// reply. A request is one atomic step at a given time.
module AuthModel {

  import opened Options
  import opened Redis

  type UserId = string
  type SessionId = string
  type Email = string   // lower-cased and trimmed
  type Otp = string

  // ---- Constants (milliseconds, and seconds for times to live) ----

  const MINUTE: Millis := 60000
  const DAY: Millis := 86400000
  const MAX_LOGIN_ATTEMPTS: nat := 5
  const LOCK_DURATION: Millis := 30 * MINUTE
  const OTP_TTL: nat := 600
  const FORGOT_OTP_TTL: nat := 900
  const RESET_SESSION_TTL: nat := 900
  const RESEND_WINDOW_TTL: nat := 1800
  const OTP_MAX_RESENDS: nat := 3
  const MFA_TEMP_TTL: nat := 300
  const MFA_SETUP_TTL: nat := 600
  const GRACE_TTL: nat := 30
  const BACKUP_CODE_COUNT: nat := 10
  const SESSION_LIFETIME: Millis := 7 * DAY
  const MASTER_OTP: Otp := "555555"

  // ---- Rows ----

  datatype Approval = Pending | Approved | Rejected | Suspended

  datatype User = User(
    email: Email,
    approval: Approval,
    isActive: bool,
    isVerified: bool,
    deleted: bool,
    lastLoginAt: Option<Millis>)

  // bcrypt treated symbolically: comparing succeeds exactly on the hashed password.
  datatype PasswordHash = PasswordHash(of: string)

  datatype Security = Security(
    passwordHash: PasswordHash,
    mfaEnabled: bool,
    mfaSecret: Option<string>,
    backupCodes: seq<TokenHash>,
    loginAttempts: nat,
    lockedUntil: Option<Millis>,
    passwordChangedAt: Option<Millis>)

  datatype Session = Session(
    userId: UserId,
    tokenHash: TokenHash,
    createdAt: Millis,
    expiresAt: Millis,
    lastActiveAt: Millis)

  datatype State = State(
    users: map<UserId, User>,
    security: map<UserId, Security>,
    sessions: map<SessionId, Session>,
    redis: Store)

  // ---- Requests and replies ----

  // The four registration endpoints differ in the approval they start from.
  datatype Registration = Generic | Client | Professional | LawFirm

  // Random values (user ids, session ids, one-time passwords, secure tokens, minted
  // refresh tokens, backup codes) and verdicts of the TOTP library come with the request.
  datatype Request =
    | Register(kind: Registration, userId: UserId, email: Email, password: string, otp: Otp)
    | Login(email: Email, password: string, otp: Otp, mfaTemp: Token, sid: SessionId, refresh: Token)
    | VerifyEmailOtp(email: Email, otp: Otp, production: bool, refresh: Token)
    | ResendOtp(email: Email, otp: Otp)
    | VerifyMfa(mfaTemp: Token, totpValid: bool, sid: SessionId, refresh: Token)
    | VerifyMfaBackupCode(mfaTemp: Token, code: string, sid: SessionId, refresh: Token)
    | ForgotPassword(email: Email, otp: Otp)
    | VerifyForgotPasswordOtp(email: Email, otp: Otp, resetToken: Token)
    | ResetPassword(resetToken: Token, password: string)
    | RefreshTokens(presented: Token, refresh: Token)
    | Logout(token: Option<Token>, ownSid: Option<SessionId>)
    | SetupMfa(userId: UserId, secret: string)
    | EnableMfa(userId: UserId, totpValid: bool, codes: seq<string>)
    | DisableMfa(userId: UserId, password: string)
    | RegenerateBackupCodes(userId: UserId, codes: seq<string>)
    | RevokeSession(userId: UserId, sid: SessionId)
    | RevokeAllSessions(userId: UserId)
    | AdminSetAccount(userId: UserId, isActive: bool, approval: Approval, deleted: bool)

  datatype Call = Call(at: Millis, req: Request)

  datatype Payload = Payload(sub: UserId, sid: Option<SessionId>, mfaVerified: bool)

  datatype Error =
    | EmailTaken | InvalidCredentials | Deactivated | SetupIncomplete | AccountLocked | TooManyAttempts
    | OtpExpired | OtpInvalid | UserNotFound | AlreadyVerified | TooManyResends
    | MfaSessionExpired | MfaNotConfigured | MfaCodeInvalid | BackupCodeInvalid | MfaSetupExpired | MfaNotEnabled
    | IncorrectPassword | ResetSessionExpired | SessionExpired | SessionRevoked
    | RecordNotFound      // the database refuses to update a missing row
    | UndefinedUser       // a property of an undefined user is read

  datatype Reply =
    | Done
    | EmailVerificationRequired
    | ApprovalPending
    | ApprovalRejected
    | AccountSuspended
    | MfaRequired(mfaTemp: Token)
    | Tokens(payload: Payload, refresh: Token)
    | ResetTokenIssued(resetToken: Token)
    | MfaSecret(secret: string)
    | BackupCodes(codes: seq<string>)
    | Failed(error: Error)

  datatype Outcome = Outcome(state: State, reply: Reply)

  // ---- Library calls ----

  function HashToken(t: Token): TokenHash { TokenHash(t) }

  function HashPassword(password: string): PasswordHash { PasswordHash(password) }

  predicate ComparePassword(password: string, h: PasswordHash) { h == HashPassword(password) }

  function HashAll(codes: seq<string>): (r: seq<TokenHash>)
    ensures |r| == |codes|
    ensures forall i :: 0 <= i < |codes| ==> r[i] == HashToken(codes[i])
  {
    seq(|codes|, i requires 0 <= i < |codes| => HashToken(codes[i]))
  }

  // ---- Lookups through a unique index ----

  ghost function UserByEmail(users: map<UserId, User>, email: Email): (r: Option<UserId>)
    ensures r.Some? ==> r.value in users && users[r.value].email == email
    ensures r.None? ==> forall id :: id in users ==> users[id].email != email
  {
    if exists id :: id in users && users[id].email == email then
      var id :| id in users && users[id].email == email;
      Some(id)
    else None
  }

  ghost function SessionByHash(sessions: map<SessionId, Session>, h: TokenHash): (r: Option<SessionId>)
    ensures r.Some? ==> r.value in sessions && sessions[r.value].tokenHash == h
    ensures r.None? ==> forall sid :: sid in sessions ==> sessions[sid].tokenHash != h
  {
    if exists sid :: sid in sessions && sessions[sid].tokenHash == h then
      var sid :| sid in sessions && sessions[sid].tokenHash == h;
      Some(sid)
    else None
  }

  // ---- Typed reads of the keyed store ----

  function OtpAt(store: Store, now: Millis, key: Key): Option<(Otp, UserId)> {
    match Get(store, now, key)
    case Some(OtpValue(otp, userId)) => Some((otp, userId))
    case _ => None
  }

  function UserRefAt(store: Store, now: Millis, key: Key): Option<UserId> {
    match Get(store, now, key)
    case Some(UserRef(userId)) => Some(userId)
    case _ => None
  }

  function SessionRefAt(store: Store, now: Millis, key: Key): Option<SessionId> {
    match Get(store, now, key)
    case Some(SessionRef(sid)) => Some(sid)
    case _ => None
  }

  function SecretAt(store: Store, now: Millis, key: Key): Option<string> {
    match Get(store, now, key)
    case Some(SecretValue(secret)) => Some(secret)
    case _ => None
  }

  function CountAt(store: Store, now: Millis, key: Key): nat {
    match Get(store, now, key)
    case Some(CountValue(n)) => n
    case _ => 0
  }

  // ---- Registration and e-mail verification ----

  function InitialApproval(kind: Registration): Approval {
    match kind
    case Generic => Approved
    case Client => Approved
    case Professional => Pending
    case LawFirm => Pending
  }

  ghost function SendVerificationOtp(s: State, now: Millis, email: Email, otp: Otp): State {
    match UserByEmail(s.users, email)
    case None => s
    case Some(id) => s.(redis := Put(s.redis, now, OtpVerify(email), OtpValue(otp, id), OTP_TTL))
  }

  ghost function RegisterStep(s: State, now: Millis, kind: Registration, userId: UserId, email: Email,
                              password: string, otp: Otp): Outcome
  {
    if UserByEmail(s.users, email).Some? then Outcome(s, Failed(EmailTaken))
    else
      var user := User(email, InitialApproval(kind), true, false, false, None);
      var security := Security(HashPassword(password), false, None, [], 0, None, None);
      var s1 := s.(users := s.users[userId := user], security := s.security[userId := security]);
      Outcome(SendVerificationOtp(s1, now, email, otp), Done)
  }

  ghost function VerifyEmailOtpStep(s: State, now: Millis, email: Email, otp: Otp, production: bool,
                                    refresh: Token): Outcome
  {
    var stored := OtpAt(s.redis, now, OtpVerify(email));
    var isMaster := otp == MASTER_OTP && !production;
    if stored.None? && !isMaster then Outcome(s, Failed(OtpExpired))
    else if !isMaster && stored.value.0 != otp then Outcome(s, Failed(OtpInvalid))
    else
      var who := if stored.Some? then (if stored.value.1 in s.users then Some(stored.value.1) else None)
                 else UserByEmail(s.users, email);
      match who
      case None => Outcome(s, Failed(UserNotFound))
      case Some(id) =>
        var s1 := s.(users := s.users[id := s.users[id].(isVerified := true)]);
        if id !in s.security then Outcome(s1, Failed(RecordNotFound))
        else
          Outcome(if stored.Some? then s1.(redis := Del(s.redis, OtpVerify(email))) else s1,
                  Tokens(Payload(id, None, false), refresh))
  }

  ghost function ResendOtpStep(s: State, now: Millis, email: Email, otp: Otp): Outcome {
    match UserByEmail(s.users, email)
    case None => Outcome(s, Failed(UserNotFound))
    case Some(id) =>
      if s.users[id].isVerified then Outcome(s, Failed(AlreadyVerified))
      else
        var count := CountAt(s.redis, now, OtpResend(email));
        if count >= OTP_MAX_RESENDS then Outcome(s, Failed(TooManyResends))
        else
          var s1 := SendVerificationOtp(s, now, email, otp);
          Outcome(s1.(redis := Put(s1.redis, now, OtpResend(email), CountValue(count + 1), RESEND_WINDOW_TTL)), Done)
  }

  // ---- Login ----

  predicate Locked(sec: Security, now: Millis) {
    sec.lockedUntil.Some? && now < sec.lockedUntil.value
  }

  // The security row after a wrong password.
  function AfterWrongPassword(sec: Security, now: Millis): Security {
    var counted := sec.(loginAttempts := sec.loginAttempts + 1);
    if sec.loginAttempts + 1 >= MAX_LOGIN_ATTEMPTS then counted.(lockedUntil := Some(now + LOCK_DURATION))
    else counted
  }

  function AfterRightPassword(sec: Security): Security {
    sec.(loginAttempts := 0, lockedUntil := None)
  }

  function OpenSession(s: State, now: Millis, id: UserId, sid: SessionId, refresh: Token, mfaVerified: bool): Outcome
    requires id in s.users
  {
    var session := Session(id, HashToken(refresh), now, now + SESSION_LIFETIME, now);
    Outcome(s.(users := s.users[id := s.users[id].(lastLoginAt := Some(now))], sessions := s.sessions[sid := session]),
            Tokens(Payload(id, Some(sid), mfaVerified), refresh))
  }

  ghost function LoginStep(s: State, now: Millis, email: Email, password: string, otp: Otp,
                           mfaTemp: Token, sid: SessionId, refresh: Token): Outcome
  {
    match UserByEmail(s.users, email)
    case None => Outcome(s, Failed(InvalidCredentials))
    case Some(id) =>
      var user := s.users[id];
      if !user.isActive then Outcome(s, Failed(Deactivated))
      else if id !in s.security then Outcome(s, Failed(SetupIncomplete))
      else
        var sec := s.security[id];
        if Locked(sec, now) then Outcome(s, Failed(AccountLocked))
        else if !ComparePassword(password, sec.passwordHash) then
          Outcome(s.(security := s.security[id := AfterWrongPassword(sec, now)]),
                  Failed(if sec.loginAttempts + 1 >= MAX_LOGIN_ATTEMPTS then TooManyAttempts else InvalidCredentials))
        else
          var s1 := s.(security := s.security[id := AfterRightPassword(sec)]);
          if !user.isVerified then Outcome(SendVerificationOtp(s1, now, user.email, otp), EmailVerificationRequired)
          else match user.approval
            case Pending => Outcome(s1, ApprovalPending)
            case Rejected => Outcome(s1, ApprovalRejected)
            case Suspended => Outcome(s1, AccountSuspended)
            case Approved =>
              if sec.mfaEnabled then
                Outcome(s1.(redis := Put(s1.redis, now, MfaTemp(mfaTemp), UserRef(id), MFA_TEMP_TTL)), MfaRequired(mfaTemp))
              else OpenSession(s1, now, id, sid, refresh, false)
  }

  // ---- Second factor ----

  ghost function VerifyMfaStep(s: State, now: Millis, mfaTemp: Token, totpValid: bool, sid: SessionId,
                               refresh: Token): Outcome
  {
    match UserRefAt(s.redis, now, MfaTemp(mfaTemp))
    case None => Outcome(s, Failed(MfaSessionExpired))
    case Some(id) =>
      if id !in s.users || id !in s.security || s.security[id].mfaSecret.None? then Outcome(s, Failed(MfaNotConfigured))
      else if !totpValid then Outcome(s, Failed(MfaCodeInvalid))
      else OpenSession(s.(redis := Del(s.redis, MfaTemp(mfaTemp))), now, id, sid, refresh, true)
  }

  // Position of the first occurrence, or -1.
  function IndexOf(codes: seq<TokenHash>, h: TokenHash): (r: int)
    ensures -1 <= r < |codes|
    ensures r >= 0 ==> codes[r] == h && h !in codes[..r]
    ensures r == -1 <==> h !in codes
  {
    if codes == [] then -1
    else if codes[0] == h then 0
    else
      var rest := IndexOf(codes[1..], h);
      assert codes == [codes[0]] + codes[1..];
      if rest == -1 then -1 else
        assert codes[..rest + 1] == [codes[0]] + codes[1..][..rest];
        rest + 1
  }

  function RemoveAt<T>(xs: seq<T>, i: nat): seq<T>
    requires i < |xs|
  {
    xs[..i] + xs[i + 1..]
  }

  ghost function VerifyMfaBackupCodeStep(s: State, now: Millis, mfaTemp: Token, code: string, sid: SessionId,
                                         refresh: Token): Outcome
  {
    match UserRefAt(s.redis, now, MfaTemp(mfaTemp))
    case None => Outcome(s, Failed(MfaSessionExpired))
    case Some(id) =>
      if id !in s.users || id !in s.security then Outcome(s, Failed(MfaSessionExpired))
      else
        var sec := s.security[id];
        var i := IndexOf(sec.backupCodes, HashToken(code));
        if i == -1 then Outcome(s, Failed(BackupCodeInvalid))
        else
          var s1 := s.(security := s.security[id := sec.(backupCodes := RemoveAt(sec.backupCodes, i))],
                       redis := Del(s.redis, MfaTemp(mfaTemp)));
          OpenSession(s1, now, id, sid, refresh, true)
  }

  function SetupMfaStep(s: State, now: Millis, userId: UserId, secret: string): Outcome {
    if userId !in s.users then Outcome(s, Failed(UserNotFound))
    else Outcome(s.(redis := Put(s.redis, now, MfaSetup(userId), SecretValue(secret), MFA_SETUP_TTL)), MfaSecret(secret))
  }

  function EnableMfaStep(s: State, now: Millis, userId: UserId, totpValid: bool, codes: seq<string>): Outcome {
    match SecretAt(s.redis, now, MfaSetup(userId))
    case None => Outcome(s, Failed(MfaSetupExpired))
    case Some(secret) =>
      if !totpValid then Outcome(s, Failed(MfaCodeInvalid))
      else if userId !in s.security then Outcome(s, Failed(RecordNotFound))
      else
        var sec := s.security[userId].(mfaEnabled := true, mfaSecret := Some(secret), backupCodes := HashAll(codes));
        Outcome(s.(security := s.security[userId := sec], redis := Del(s.redis, MfaSetup(userId))), BackupCodes(codes))
  }

  function DisableMfaStep(s: State, userId: UserId, password: string): Outcome {
    if userId !in s.security then Outcome(s, Failed(RecordNotFound))
    else
      var sec := s.security[userId];
      if !ComparePassword(password, sec.passwordHash) then Outcome(s, Failed(IncorrectPassword))
      else if !sec.mfaEnabled then Outcome(s, Failed(MfaNotEnabled))
      else
        Outcome(s.(security := s.security[userId := sec.(mfaEnabled := false, mfaSecret := None, backupCodes := [])]), Done)
  }

  function RegenerateBackupCodesStep(s: State, userId: UserId, codes: seq<string>): Outcome {
    if userId !in s.security || !s.security[userId].mfaEnabled then Outcome(s, Failed(MfaNotEnabled))
    else
      Outcome(s.(security := s.security[userId := s.security[userId].(backupCodes := HashAll(codes))]), BackupCodes(codes))
  }

  // ---- Password reset ----

  ghost function ForgotPasswordStep(s: State, now: Millis, email: Email, otp: Otp): Outcome {
    match UserByEmail(s.users, email)
    case None => Outcome(s, Done)
    case Some(id) => Outcome(s.(redis := Put(s.redis, now, OtpPwd(email), OtpValue(otp, id), FORGOT_OTP_TTL)), Done)
  }

  function VerifyForgotPasswordOtpStep(s: State, now: Millis, email: Email, otp: Otp, resetToken: Token): Outcome {
    match OtpAt(s.redis, now, OtpPwd(email))
    case None => Outcome(s, Failed(OtpInvalid))
    case Some(stored) =>
      if stored.0 != otp then Outcome(s, Failed(OtpInvalid))
      else
        var put := Put(s.redis, now, ResetSession(resetToken), UserRef(stored.1), RESET_SESSION_TTL);
        Outcome(s.(redis := Del(put, OtpPwd(email))), ResetTokenIssued(resetToken))
  }

  function WithoutUser(sessions: map<SessionId, Session>, id: UserId): map<SessionId, Session> {
    map sid | sid in sessions && sessions[sid].userId != id :: sessions[sid]
  }

  function ResetPasswordStep(s: State, now: Millis, resetToken: Token, password: string): Outcome {
    match UserRefAt(s.redis, now, ResetSession(resetToken))
    case None => Outcome(s, Failed(ResetSessionExpired))
    case Some(id) =>
      if id !in s.users then Outcome(s, Failed(UserNotFound))
      else if id !in s.security then Outcome(s, Failed(RecordNotFound))
      else
        var sec := s.security[id].(passwordHash := HashPassword(password), passwordChangedAt := Some(now));
        Outcome(s.(security := s.security[id := sec],
                   sessions := WithoutUser(s.sessions, id),
                   redis := Del(s.redis, ResetSession(resetToken))),
                Done)
  }

  // ---- Sessions ----

  // The session a presented refresh token leads to: by its current token, or by an
  // unexpired grace entry.
  ghost function Lookup(s: State, now: Millis, presented: Token): (r: Option<SessionId>)
    ensures r.Some? ==> r.value in s.sessions
  {
    var current := SessionByHash(s.sessions, HashToken(presented));
    if current.Some? then current
    else
      match SessionRefAt(s.redis, now, Grace(HashToken(presented)))
      case Some(sid) => if sid in s.sessions then Some(sid) else None
      case None => None
  }

  // The user loaded together with the session: only the lookup by current token loads it.
  ghost function LoadedUser(s: State, presented: Token): Option<UserId> {
    match SessionByHash(s.sessions, HashToken(presented))
    case Some(sid) => if s.sessions[sid].userId in s.users then Some(s.sessions[sid].userId) else None
    case None => None
  }

  ghost function RefreshTokensStep(s: State, now: Millis, presented: Token, refresh: Token): Outcome {
    match Lookup(s, now, presented)
    case None => Outcome(s, Failed(SessionExpired))
    case Some(sid) =>
      if now > s.sessions[sid].expiresAt then
        Outcome(s.(sessions := s.sessions - {sid}), Failed(SessionExpired))
      else match LoadedUser(s, presented)
        case None => Outcome(s, Failed(UndefinedUser))
        case Some(id) =>
          var session := s.sessions[sid].(tokenHash := HashToken(refresh), lastActiveAt := now);
          Outcome(s.(sessions := s.sessions[sid := session],
                     redis := Put(s.redis, now, Grace(HashToken(presented)), SessionRef(sid), GRACE_TTL)),
                  Tokens(Payload(id, Some(sid), true), refresh))
  }

  ghost function LogoutStep(s: State, token: Option<Token>, ownSid: Option<SessionId>): Outcome {
    if ownSid.Some? then Outcome(s.(sessions := s.sessions - {ownSid.value}), Done)
    else if token.Some? then
      match SessionByHash(s.sessions, HashToken(token.value))
      case Some(sid) => Outcome(s.(sessions := s.sessions - {sid}), Done)
      case None => Outcome(s, Done)
    else Outcome(s, Done)
  }

  function RevokeSessionStep(s: State, userId: UserId, sid: SessionId): Outcome {
    Outcome(if sid in s.sessions && s.sessions[sid].userId == userId then s.(sessions := s.sessions - {sid}) else s, Done)
  }

  function RevokeAllSessionsStep(s: State, userId: UserId): Outcome {
    Outcome(s.(sessions := WithoutUser(s.sessions, userId)), Done)
  }

  // The acceptance test for the payload of a signed access token.
  function Validate(s: State, p: Payload): Reply {
    if p.sub !in s.users || s.users[p.sub].deleted || !s.users[p.sub].isActive then Failed(UserNotFound)
    else if p.sid.Some? && p.sid.value !in s.sessions then Failed(SessionRevoked)
    else Done
  }

  function AdminSetAccountStep(s: State, userId: UserId, isActive: bool, approval: Approval, deleted: bool): Outcome {
    if userId !in s.users then Outcome(s, Failed(UserNotFound))
    else
      var user := s.users[userId].(isActive := isActive, approval := approval, deleted := deleted);
      Outcome(s.(users := s.users[userId := user]), Done)
  }

  // ---- One step of the service ----

  ghost function Step(s: State, c: Call): Outcome {
    match c.req
    case Register(kind, userId, email, password, otp) => RegisterStep(s, c.at, kind, userId, email, password, otp)
    case Login(email, password, otp, mfaTemp, sid, refresh) => LoginStep(s, c.at, email, password, otp, mfaTemp, sid, refresh)
    case VerifyEmailOtp(email, otp, production, refresh) => VerifyEmailOtpStep(s, c.at, email, otp, production, refresh)
    case ResendOtp(email, otp) => ResendOtpStep(s, c.at, email, otp)
    case VerifyMfa(mfaTemp, totpValid, sid, refresh) => VerifyMfaStep(s, c.at, mfaTemp, totpValid, sid, refresh)
    case VerifyMfaBackupCode(mfaTemp, code, sid, refresh) => VerifyMfaBackupCodeStep(s, c.at, mfaTemp, code, sid, refresh)
    case ForgotPassword(email, otp) => ForgotPasswordStep(s, c.at, email, otp)
    case VerifyForgotPasswordOtp(email, otp, resetToken) => VerifyForgotPasswordOtpStep(s, c.at, email, otp, resetToken)
    case ResetPassword(resetToken, password) => ResetPasswordStep(s, c.at, resetToken, password)
    case RefreshTokens(presented, refresh) => RefreshTokensStep(s, c.at, presented, refresh)
    case Logout(token, ownSid) => LogoutStep(s, token, ownSid)
    case SetupMfa(userId, secret) => SetupMfaStep(s, c.at, userId, secret)
    case EnableMfa(userId, totpValid, codes) => EnableMfaStep(s, c.at, userId, totpValid, codes)
    case DisableMfa(userId, password) => DisableMfaStep(s, userId, password)
    case RegenerateBackupCodes(userId, codes) => RegenerateBackupCodesStep(s, userId, codes)
    case RevokeSession(userId, sid) => RevokeSessionStep(s, userId, sid)
    case RevokeAllSessions(userId) => RevokeAllSessionsStep(s, userId)
    case AdminSetAccount(userId, isActive, approval, deleted) => AdminSetAccountStep(s, userId, isActive, approval, deleted)
  }
}
