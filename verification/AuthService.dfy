// The services and repositories of the authentication code, updating the tables and the
// keyed store in place. Each endpoint is proved to do what its step function says, and
// the gateway shows that whatever requests it is given, what has happened is a run.
module AuthService {

  import opened Options
  import opened Redis
  import opened AuthModel
  import opened AuthRuns

  // ---- Repository ----

  datatype SecurityChange =
    | SetLock(until: Millis)
    | SetPassword(hash: PasswordHash, at: Millis)
    | SetMfa(enabled: bool, secret: Option<string>, codes: seq<TokenHash>)
    | SetBackupCodes(codes: seq<TokenHash>)

  function Changed(sec: Security, change: SecurityChange): Security {
    match change
    case SetLock(until) => sec.(lockedUntil := Some(until))
    case SetPassword(hash, at) => sec.(passwordHash := hash, passwordChangedAt := Some(at))
    case SetMfa(enabled, secret, codes) => sec.(mfaEnabled := enabled, mfaSecret := secret, backupCodes := codes)
    case SetBackupCodes(codes) => sec.(backupCodes := codes)
  }

  // The tables behind the authentication and the security repository.
  class AuthRepository {
    var users: map<UserId, User>
    var security: map<UserId, Security>
    var sessions: map<SessionId, Session>

    constructor (users: map<UserId, User>, security: map<UserId, Security>)
      ensures this.users == users && this.security == security && this.sessions == map[]
    {
      this.users := users;
      this.security := security;
      this.sessions := map[];
    }

    method FindUserByEmail(email: Email) returns (r: Option<UserId>)
      requires UniqueEmails(users)
      ensures r == UserByEmail(users, email)
    {
      if id :| id in users && users[id].email == email {
        r := Some(id);
      } else {
        r := None;
      }
    }

    method FindSessionByToken(h: TokenHash) returns (r: Option<SessionId>)
      requires UniqueHashes(sessions)
      ensures r == SessionByHash(sessions, h)
    {
      if sid :| sid in sessions && sessions[sid].tokenHash == h {
        r := Some(sid);
      } else {
        r := None;
      }
    }

    method CreateUser(userId: UserId, user: User, hash: PasswordHash)
      modifies this`users, this`security
      ensures users == old(users)[userId := user]
      ensures security == old(security)[userId := Security(hash, false, None, [], 0, None, None)]
    {
      users := users[userId := user];
      security := security[userId := Security(hash, false, None, [], 0, None, None)];
    }

    method UpdateSecurity(userId: UserId, change: SecurityChange) returns (found: bool)
      modifies this`security
      ensures found == (userId in old(security))
      ensures security == if found then old(security)[userId := Changed(old(security)[userId], change)] else old(security)
    {
      found := userId in security;
      if found {
        security := security[userId := Changed(security[userId], change)];
      }
    }

    method IncrementLoginAttempts(userId: UserId)
      requires userId in security
      modifies this`security
      ensures security == old(security)[userId := old(security)[userId].(loginAttempts := old(security)[userId].loginAttempts + 1)]
    {
      security := security[userId := security[userId].(loginAttempts := security[userId].loginAttempts + 1)];
    }

    method ResetLoginAttempts(userId: UserId)
      requires userId in security
      modifies this`security
      ensures security == old(security)[userId := AfterRightPassword(old(security)[userId])]
    {
      security := security[userId := security[userId].(loginAttempts := 0, lockedUntil := None)];
    }

    method UpdateLastLogin(now: Millis, userId: UserId)
      requires userId in users
      modifies this`users
      ensures users == old(users)[userId := old(users)[userId].(lastLoginAt := Some(now))]
    {
      users := users[userId := users[userId].(lastLoginAt := Some(now))];
    }

    method MarkEmailVerified(userId: UserId) returns (found: bool)
      requires userId in users
      modifies this`users
      ensures users == old(users)[userId := old(users)[userId].(isVerified := true)]
      ensures found == (userId in security)
    {
      users := users[userId := users[userId].(isVerified := true)];
      found := userId in security;
    }

    method CreateSession(sid: SessionId, session: Session)
      modifies this`sessions
      ensures sessions == old(sessions)[sid := session]
    {
      sessions := sessions[sid := session];
    }

    method UpdateSessionActivity(now: Millis, sid: SessionId, h: TokenHash)
      requires sid in sessions
      modifies this`sessions
      ensures sessions == old(sessions)[sid := old(sessions)[sid].(tokenHash := h, lastActiveAt := now)]
    {
      sessions := sessions[sid := sessions[sid].(lastActiveAt := now, tokenHash := h)];
    }

    method DeleteSessionById(sid: SessionId)
      modifies this`sessions
      ensures sessions == old(sessions) - {sid}
    {
      sessions := sessions - {sid};
    }

    method DeleteSession(sid: SessionId, userId: UserId)
      modifies this`sessions
      ensures sessions == if sid in old(sessions) && old(sessions)[sid].userId == userId then old(sessions) - {sid} else old(sessions)
    {
      if sid in sessions && sessions[sid].userId == userId {
        sessions := sessions - {sid};
      }
    }

    method DeleteAllSessions(userId: UserId)
      modifies this`sessions
      ensures sessions == WithoutUser(old(sessions), userId)
    {
      sessions := map sid | sid in sessions && sessions[sid].userId != userId :: sessions[sid];
    }
  }

  // ---- The authentication service ----

  class AuthService {
    const repo: AuthRepository
    const redis: RedisService

    constructor (repo: AuthRepository, redis: RedisService)
      ensures this.repo == repo && this.redis == redis
    {
      this.repo := repo;
      this.redis := redis;
    }

    ghost function Snapshot(): State
      reads this, repo, redis
    {
      State(repo.users, repo.security, repo.sessions, redis.store)
    }

    method SendVerificationOtp(now: Millis, email: Email, otp: Otp)
      requires UniqueEmails(repo.users)
      modifies redis
      ensures Snapshot() == AuthModel.SendVerificationOtp(old(Snapshot()), now, email, otp)
    {
      var user := repo.FindUserByEmail(email);
      if user == None {
        return;
      }
      redis.Set(now, OtpVerify(email), OtpValue(otp, user.value), OTP_TTL);
    }

    method Register(now: Millis, kind: Registration, userId: UserId, email: Email, password: string, otp: Otp)
      returns (reply: Reply)
      requires Inv(Snapshot()) && userId !in repo.users
      modifies repo, redis
      ensures Outcome(Snapshot(), reply) == RegisterStep(old(Snapshot()), now, kind, userId, email, password, otp)
    {
      var existing := repo.FindUserByEmail(email);
      if existing != None {
        return Failed(EmailTaken);
      }
      repo.CreateUser(userId, User(email, InitialApproval(kind), true, false, false, None), HashPassword(password));
      SendVerificationOtp(now, email, otp);
      return Done;
    }

    method Login(now: Millis, email: Email, password: string, otp: Otp, mfaTemp: Token, sid: SessionId, refresh: Token)
      returns (reply: Reply)
      requires Inv(Snapshot())
      modifies repo, redis
      ensures Outcome(Snapshot(), reply) == LoginStep(old(Snapshot()), now, email, password, otp, mfaTemp, sid, refresh)
    {
      var found := repo.FindUserByEmail(email);
      if found == None {
        return Failed(InvalidCredentials);
      }
      var id := found.value;
      var user := repo.users[id];
      if !user.isActive {
        return Failed(Deactivated);
      }
      if id !in repo.security {
        return Failed(SetupIncomplete);
      }
      var sec := repo.security[id];
      if sec.lockedUntil != None && now < sec.lockedUntil.value {
        return Failed(AccountLocked);
      }
      if !ComparePassword(password, sec.passwordHash) {
        repo.IncrementLoginAttempts(id);
        if sec.loginAttempts + 1 >= MAX_LOGIN_ATTEMPTS {
          var _ := repo.UpdateSecurity(id, SetLock(now + LOCK_DURATION));
          assert repo.security == old(repo.security)[id := AfterWrongPassword(sec, now)];
          return Failed(TooManyAttempts);
        }
        return Failed(InvalidCredentials);
      }
      repo.ResetLoginAttempts(id);
      if !user.isVerified {
        SendVerificationOtp(now, user.email, otp);
        return EmailVerificationRequired;
      }
      if user.approval == Pending {
        return ApprovalPending;
      }
      if user.approval == Rejected {
        return ApprovalRejected;
      }
      if user.approval == Suspended {
        return AccountSuspended;
      }
      if sec.mfaEnabled {
        redis.Set(now, MfaTemp(mfaTemp), UserRef(id), MFA_TEMP_TTL);
        return MfaRequired(mfaTemp);
      }
      reply := GenerateTokensWithSession(now, id, sid, refresh, false);
    }

    method GenerateTokensWithSession(now: Millis, id: UserId, sid: SessionId, refresh: Token, mfaVerified: bool)
      returns (reply: Reply)
      requires id in repo.users
      modifies repo
      ensures Outcome(Snapshot(), reply) == OpenSession(old(Snapshot()), now, id, sid, refresh, mfaVerified)
    {
      repo.UpdateLastLogin(now, id);
      reply := Tokens(Payload(id, Some(sid), mfaVerified), refresh);
      repo.CreateSession(sid, Session(id, HashToken(refresh), now, now + SESSION_LIFETIME, now));
    }

    method VerifyEmailOtp(now: Millis, email: Email, otp: Otp, production: bool, refresh: Token) returns (reply: Reply)
      requires Inv(Snapshot())
      modifies repo, redis
      ensures Outcome(Snapshot(), reply) == VerifyEmailOtpStep(old(Snapshot()), now, email, otp, production, refresh)
    {
      var fetched := redis.Fetch(now, OtpVerify(email));
      var stored := if fetched.Some? && fetched.value.OtpValue? then Some((fetched.value.otp, fetched.value.userId)) else None;
      var isMasterOtp := otp == MASTER_OTP && !production;
      if stored == None && !isMasterOtp {
        return Failed(OtpExpired);
      }
      if !isMasterOtp && stored.value.0 != otp {
        return Failed(OtpInvalid);
      }
      var who: Option<UserId>;
      if stored != None {
        who := if stored.value.1 in repo.users then Some(stored.value.1) else None;
      } else {
        who := repo.FindUserByEmail(email);
      }
      if who == None {
        return Failed(UserNotFound);
      }
      var updated := repo.MarkEmailVerified(who.value);
      if !updated {
        return Failed(RecordNotFound);
      }
      if stored != None {
        redis.Remove(OtpVerify(email));
      }
      return Tokens(Payload(who.value, None, false), refresh);
    }

    method ResendOtp(now: Millis, email: Email, otp: Otp) returns (reply: Reply)
      requires Inv(Snapshot())
      modifies redis
      ensures Outcome(Snapshot(), reply) == ResendOtpStep(old(Snapshot()), now, email, otp)
    {
      var found := repo.FindUserByEmail(email);
      if found == None {
        return Failed(UserNotFound);
      }
      if repo.users[found.value].isVerified {
        return Failed(AlreadyVerified);
      }
      var fetched := redis.Fetch(now, OtpResend(email));
      var resendCount := if fetched.Some? && fetched.value.CountValue? then fetched.value.count else 0;
      if resendCount >= OTP_MAX_RESENDS {
        return Failed(TooManyResends);
      }
      SendVerificationOtp(now, email, otp);
      redis.Set(now, OtpResend(email), CountValue(resendCount + 1), RESEND_WINDOW_TTL);
      return Done;
    }

    method FetchUserRef(now: Millis, key: Key) returns (r: Option<UserId>)
      ensures r == UserRefAt(redis.store, now, key)
    {
      var fetched := redis.Fetch(now, key);
      r := if fetched.Some? && fetched.value.UserRef? then Some(fetched.value.userId) else None;
    }

    method VerifyMfa(now: Millis, mfaTemp: Token, totpValid: bool, sid: SessionId, refresh: Token) returns (reply: Reply)
      modifies repo, redis
      ensures Outcome(Snapshot(), reply) == VerifyMfaStep(old(Snapshot()), now, mfaTemp, totpValid, sid, refresh)
    {
      var cached := FetchUserRef(now, MfaTemp(mfaTemp));
      if cached == None {
        return Failed(MfaSessionExpired);
      }
      var id := cached.value;
      if id !in repo.users || id !in repo.security || repo.security[id].mfaSecret == None {
        return Failed(MfaNotConfigured);
      }
      if !totpValid {
        return Failed(MfaCodeInvalid);
      }
      redis.Remove(MfaTemp(mfaTemp));
      reply := GenerateTokensWithSession(now, id, sid, refresh, true);
    }

    method VerifyMfaBackupCode(now: Millis, mfaTemp: Token, code: string, sid: SessionId, refresh: Token)
      returns (reply: Reply)
      modifies repo, redis
      ensures Outcome(Snapshot(), reply) == VerifyMfaBackupCodeStep(old(Snapshot()), now, mfaTemp, code, sid, refresh)
    {
      var cached := FetchUserRef(now, MfaTemp(mfaTemp));
      if cached == None {
        return Failed(MfaSessionExpired);
      }
      var id := cached.value;
      if id !in repo.users || id !in repo.security {
        return Failed(MfaSessionExpired);
      }
      var codes := repo.security[id].backupCodes;
      var codeIndex := IndexOf(codes, HashToken(code));
      if codeIndex == -1 {
        return Failed(BackupCodeInvalid);
      }
      var updatedCodes := RemoveAt(codes, codeIndex);
      var _ := repo.UpdateSecurity(id, SetBackupCodes(updatedCodes));
      redis.Remove(MfaTemp(mfaTemp));
      reply := GenerateTokensWithSession(now, id, sid, refresh, true);
    }

    method ForgotPassword(now: Millis, email: Email, otp: Otp) returns (reply: Reply)
      requires Inv(Snapshot())
      modifies redis
      ensures Outcome(Snapshot(), reply) == ForgotPasswordStep(old(Snapshot()), now, email, otp)
    {
      var user := repo.FindUserByEmail(email);
      if user == None {
        return Done;
      }
      redis.Set(now, OtpPwd(email), OtpValue(otp, user.value), FORGOT_OTP_TTL);
      return Done;
    }

    method VerifyForgotPasswordOtp(now: Millis, email: Email, otp: Otp, resetToken: Token) returns (reply: Reply)
      modifies redis
      ensures Outcome(Snapshot(), reply) == VerifyForgotPasswordOtpStep(old(Snapshot()), now, email, otp, resetToken)
    {
      var fetched := redis.Fetch(now, OtpPwd(email));
      if fetched == None || !fetched.value.OtpValue? || fetched.value.otp != otp {
        return Failed(OtpInvalid);
      }
      redis.Set(now, Key.ResetSession(resetToken), UserRef(fetched.value.userId), RESET_SESSION_TTL);
      redis.Remove(OtpPwd(email));
      return ResetTokenIssued(resetToken);
    }

    method ResetPassword(now: Millis, resetToken: Token, password: string) returns (reply: Reply)
      modifies repo, redis
      ensures Outcome(Snapshot(), reply) == ResetPasswordStep(old(Snapshot()), now, resetToken, password)
    {
      var session := FetchUserRef(now, Key.ResetSession(resetToken));
      if session == None {
        return Failed(ResetSessionExpired);
      }
      var id := session.value;
      if id !in repo.users {
        return Failed(UserNotFound);
      }
      var updated := repo.UpdateSecurity(id, SetPassword(HashPassword(password), now));
      if !updated {
        return Failed(RecordNotFound);
      }
      repo.DeleteAllSessions(id);
      redis.Remove(Key.ResetSession(resetToken));
      return Done;
    }

    method RefreshTokens(now: Millis, presented: Token, refresh: Token) returns (reply: Reply)
      requires Inv(Snapshot())
      modifies repo, redis
      ensures Outcome(Snapshot(), reply) == RefreshTokensStep(old(Snapshot()), now, presented, refresh)
    {
      var tokenHash := HashToken(presented);
      var session := repo.FindSessionByToken(tokenHash);
      var user: Option<UserId> := None;
      if session != None {
        user := if repo.sessions[session.value].userId in repo.users then Some(repo.sessions[session.value].userId) else None;
      } else {
        var fetched := redis.Fetch(now, Grace(tokenHash));
        if fetched.Some? && fetched.value.SessionRef? && fetched.value.sid in repo.sessions {
          session := Some(fetched.value.sid);
        }
      }
      if session == None {
        return Failed(SessionExpired);
      }
      if now > repo.sessions[session.value].expiresAt {
        repo.DeleteSessionById(session.value);
        return Failed(SessionExpired);
      }
      if user == None {
        return Failed(UndefinedUser);
      }
      reply := Tokens(Payload(user.value, session, true), refresh);
      repo.UpdateSessionActivity(now, session.value, HashToken(refresh));
      redis.Set(now, Grace(tokenHash), SessionRef(session.value), GRACE_TTL);
    }

    method Logout(token: Option<Token>, ownSid: Option<SessionId>) returns (reply: Reply)
      requires Inv(Snapshot())
      modifies repo
      ensures Outcome(Snapshot(), reply) == LogoutStep(old(Snapshot()), token, ownSid)
    {
      if ownSid != None {
        repo.DeleteSessionById(ownSid.value);
      } else if token != None {
        var session := repo.FindSessionByToken(HashToken(token.value));
        if session != None {
          repo.DeleteSessionById(session.value);
        }
      }
      return Done;
    }

    method SetupMfa(now: Millis, userId: UserId, secret: string) returns (reply: Reply)
      modifies redis
      ensures Outcome(Snapshot(), reply) == SetupMfaStep(old(Snapshot()), now, userId, secret)
    {
      if userId !in repo.users {
        return Failed(UserNotFound);
      }
      redis.Set(now, MfaSetup(userId), SecretValue(secret), MFA_SETUP_TTL);
      return MfaSecret(secret);
    }

    method EnableMfa(now: Millis, userId: UserId, totpValid: bool, codes: seq<string>) returns (reply: Reply)
      modifies repo, redis
      ensures Outcome(Snapshot(), reply) == EnableMfaStep(old(Snapshot()), now, userId, totpValid, codes)
    {
      var fetched := redis.Fetch(now, MfaSetup(userId));
      if fetched == None || !fetched.value.SecretValue? {
        return Failed(MfaSetupExpired);
      }
      if !totpValid {
        return Failed(MfaCodeInvalid);
      }
      var updated := repo.UpdateSecurity(userId, SetMfa(true, Some(fetched.value.secret), HashAll(codes)));
      if !updated {
        return Failed(RecordNotFound);
      }
      redis.Remove(MfaSetup(userId));
      return BackupCodes(codes);
    }

    // The acceptance test for an access token, which only reads.
    method ValidateToken(p: Payload) returns (reply: Reply)
      ensures reply == Validate(Snapshot(), p)
    {
      if p.sub !in repo.users || repo.users[p.sub].deleted || !repo.users[p.sub].isActive {
        return Failed(UserNotFound);
      }
      if p.sid != None && p.sid.value !in repo.sessions {
        return Failed(SessionRevoked);
      }
      return Done;
    }

    // An administrator's update of an account, as far as it matters here.
    method AdminSetAccount(userId: UserId, isActive: bool, approval: Approval, deleted: bool) returns (reply: Reply)
      modifies repo
      ensures Outcome(Snapshot(), reply) == AdminSetAccountStep(old(Snapshot()), userId, isActive, approval, deleted)
    {
      if userId !in repo.users {
        return Failed(UserNotFound);
      }
      repo.users := repo.users[userId := repo.users[userId].(isActive := isActive, approval := approval, deleted := deleted)];
      return Done;
    }
  }

  // ---- The security service ----

  class SecurityService {
    const repo: AuthRepository
    const redis: RedisService

    constructor (repo: AuthRepository, redis: RedisService)
      ensures this.repo == repo && this.redis == redis
    {
      this.repo := repo;
      this.redis := redis;
    }

    ghost function Snapshot(): State
      reads this, repo, redis
    {
      State(repo.users, repo.security, repo.sessions, redis.store)
    }

    method DisableMfa(userId: UserId, password: string) returns (reply: Reply)
      modifies repo
      ensures Outcome(Snapshot(), reply) == DisableMfaStep(old(Snapshot()), userId, password)
    {
      if userId !in repo.security {
        return Failed(RecordNotFound);
      }
      var sec := repo.security[userId];
      if !ComparePassword(password, sec.passwordHash) {
        return Failed(IncorrectPassword);
      }
      if !sec.mfaEnabled {
        return Failed(MfaNotEnabled);
      }
      var _ := repo.UpdateSecurity(userId, SetMfa(false, None, []));
      return Done;
    }

    method RegenerateBackupCodes(userId: UserId, codes: seq<string>) returns (reply: Reply)
      modifies repo
      ensures Outcome(Snapshot(), reply) == RegenerateBackupCodesStep(old(Snapshot()), userId, codes)
    {
      if userId !in repo.security || !repo.security[userId].mfaEnabled {
        return Failed(MfaNotEnabled);
      }
      var _ := repo.UpdateSecurity(userId, SetBackupCodes(HashAll(codes)));
      return BackupCodes(codes);
    }

    method RevokeSession(userId: UserId, sid: SessionId) returns (reply: Reply)
      modifies repo
      ensures Outcome(Snapshot(), reply) == RevokeSessionStep(old(Snapshot()), userId, sid)
    {
      repo.DeleteSession(sid, userId);
      return Done;
    }

    method RevokeAllSessions(userId: UserId) returns (reply: Reply)
      modifies repo
      ensures Outcome(Snapshot(), reply) == RevokeAllSessionsStep(old(Snapshot()), userId)
    {
      repo.DeleteAllSessions(userId);
      return Done;
    }
  }

  // ---- The gateway ----

  // Dispatches requests one at a time and keeps, for the proofs only, the run so far.
  class Gateway {
    const auth: AuthService
    const security: SecurityService
    ghost var run: Run

    ghost predicate Valid()
      reads this, auth, security, auth.repo, auth.redis
    {
      && security.repo == auth.repo && security.redis == auth.redis
      && IsRun(run)
      && run.states[|run.states| - 1] == auth.Snapshot()
    }

    constructor (users: map<UserId, User>, security: map<UserId, Security>)
      requires Initial(State(users, security, map[], map[]))
      ensures Valid() && run == Run([State(users, security, map[], map[])], [])
      ensures fresh(auth.repo) && fresh(auth.redis)
    {
      var repo := new AuthRepository(users, security);
      var redis := new RedisService();
      auth := new AuthService(repo, redis);
      this.security := new SecurityService(repo, redis);
      run := Run([State(users, security, map[], map[])], []);
    }

    method Dispatch(c: Call) returns (reply: Reply)
      requires security.repo == auth.repo && security.redis == auth.redis
      requires Inv(auth.Snapshot()) && WellDrawn(auth.Snapshot(), c.req)
      modifies auth.repo, auth.redis
      ensures Outcome(auth.Snapshot(), reply) == Step(old(auth.Snapshot()), c)
    {
      hide Inv;
      hide LoginStep, RegisterStep, VerifyEmailOtpStep, ResendOtpStep, VerifyMfaStep, VerifyMfaBackupCodeStep, RefreshTokensStep;
      hide ForgotPasswordStep, VerifyForgotPasswordOtpStep, ResetPasswordStep, LogoutStep, SetupMfaStep, EnableMfaStep;
      hide DisableMfaStep, RegenerateBackupCodesStep, RevokeSessionStep, RevokeAllSessionsStep, AdminSetAccountStep;
      match c.req {
        case Register(kind, userId, email, password, otp) => reply := auth.Register(c.at, kind, userId, email, password, otp);
        case Login(email, password, otp, mfaTemp, sid, refresh) =>
          reply := auth.Login(c.at, email, password, otp, mfaTemp, sid, refresh);
        case VerifyEmailOtp(email, otp, production, refresh) => reply := auth.VerifyEmailOtp(c.at, email, otp, production, refresh);
        case ResendOtp(email, otp) => reply := auth.ResendOtp(c.at, email, otp);
        case VerifyMfa(mfaTemp, totpValid, sid, refresh) => reply := auth.VerifyMfa(c.at, mfaTemp, totpValid, sid, refresh);
        case VerifyMfaBackupCode(mfaTemp, code, sid, refresh) =>
          reply := auth.VerifyMfaBackupCode(c.at, mfaTemp, code, sid, refresh);
        case ForgotPassword(email, otp) => reply := auth.ForgotPassword(c.at, email, otp);
        case VerifyForgotPasswordOtp(email, otp, resetToken) =>
          reply := auth.VerifyForgotPasswordOtp(c.at, email, otp, resetToken);
        case ResetPassword(resetToken, password) => reply := auth.ResetPassword(c.at, resetToken, password);
        case RefreshTokens(presented, refresh) => reply := auth.RefreshTokens(c.at, presented, refresh);
        case Logout(token, ownSid) => reply := auth.Logout(token, ownSid);
        case SetupMfa(userId, secret) => reply := auth.SetupMfa(c.at, userId, secret);
        case EnableMfa(userId, totpValid, codes) => reply := auth.EnableMfa(c.at, userId, totpValid, codes);
        case DisableMfa(userId, password) => reply := security.DisableMfa(userId, password);
        case RegenerateBackupCodes(userId, codes) => reply := security.RegenerateBackupCodes(userId, codes);
        case RevokeSession(userId, sid) => reply := security.RevokeSession(userId, sid);
        case RevokeAllSessions(userId) => reply := security.RevokeAllSessions(userId);
        case AdminSetAccount(userId, isActive, approval, deleted) =>
          reply := auth.AdminSetAccount(userId, isActive, approval, deleted);
      }
    }

    // Handles one request: the run grows by exactly this step.
    method Handle(c: Call) returns (reply: Reply)
      requires Valid() && Admissible(run, c)
      modifies this, auth.repo, auth.redis
      ensures Valid() && run == Extend(old(run), c)
      ensures reply == Step(old(auth.Snapshot()), c).reply
    {
      hide Step, Inv;
      ReachableInv(run, |run.states| - 1);
      ExtendRun(run, c);
      reply := Dispatch(c);
      run := Extend(run, c);
    }
  }
}
