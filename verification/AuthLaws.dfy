// What each endpoint answers, exactly when, and everything it changes. The laws speak of
// the state before a request and the state after it.
module AuthLaws {

  import opened Options
  import opened Redis
  import opened AuthModel
  import opened AuthRuns
  import opened AuthSessions

  // ---- Login ----

  // A login opens a session exactly for the right password of an unlocked, active,
  // verified and approved account without second factor. The reply carries the session
  // and the minted token; the table gains that one session.
  lemma LoginOpensIff(s: State, c: Call, id: UserId)
    requires Inv(s) && c.req.Login?
    ensures PassedLogin(s, c, id) && !s.security[id].mfaEnabled
            <==> Step(s, c).reply == Tokens(Payload(id, Some(c.req.sid), false), c.req.refresh)
    ensures Step(s, c).reply.Tokens? ==> exists owner :: PassedLogin(s, c, owner) && !s.security[owner].mfaEnabled
    ensures PassedLogin(s, c, id) && !s.security[id].mfaEnabled ==>
              var t := Step(s, c).state;
              && t.sessions == s.sessions[c.req.sid := Session(id, HashToken(c.req.refresh), c.at, c.at + 7 * DAY, c.at)]
              && t.users == s.users[id := s.users[id].(lastLoginAt := Some(c.at))]
              && t.security == s.security[id := s.security[id].(loginAttempts := 0, lockedUntil := None)]
              && t.redis == s.redis
  {
    hide Inv;
    if Step(s, c).reply.Tokens? {
      assert PassedLogin(s, c, Step(s, c).reply.payload.sub);
    }
  }

  // With a second factor the same login hands out a temporary token for 300 s instead.
  lemma LoginAsksIff(s: State, c: Call, id: UserId)
    requires Inv(s) && c.req.Login?
    ensures PassedLogin(s, c, id) && s.security[id].mfaEnabled ==>
              var t := Step(s, c).state;
              && Step(s, c).reply == MfaRequired(c.req.mfaTemp)
              && t.redis == s.redis[MfaTemp(c.req.mfaTemp) := Entry(UserRef(id), Some(c.at + 300000))]
              && t.security == s.security[id := s.security[id].(loginAttempts := 0, lockedUntil := None)]
              && t.users == s.users && t.sessions == s.sessions
    ensures Step(s, c).reply.MfaRequired? ==> exists owner :: PassedLogin(s, c, owner) && s.security[owner].mfaEnabled
  {
    hide Inv;
    var found := UserByEmail(s.users, c.req.email);
    if Step(s, c).reply.MfaRequired? {
      assert PassedLogin(s, c, found.value);
    }
  }

  // What a right password is answered when the account is not ready for a session.
  lemma LoginHeldUp(s: State, c: Call, id: UserId)
    requires Inv(s) && RightPassword(s, c, id) && !PassedLogin(s, c, id)
    ensures Step(s, c).reply == if !s.users[id].isVerified then EmailVerificationRequired
                                else match s.users[id].approval
                                     case Pending => ApprovalPending
                                     case Rejected => ApprovalRejected
                                     case _ => AccountSuspended
    ensures var t := Step(s, c).state;
      && t.users == s.users && t.sessions == s.sessions
      && t.security == s.security[id := s.security[id].(loginAttempts := 0, lockedUntil := None)]
      && t.redis == if s.users[id].isVerified then s.redis
                    else s.redis[OtpVerify(c.req.email) := Entry(OtpValue(c.req.otp, id), Some(c.at + 600000))]
  {
  }

  // A wrong password is counted, and from the fifth on it locks for thirty minutes.
  lemma LoginWrong(s: State, c: Call, id: UserId)
    requires Inv(s) && WrongPassword(s, c, id)
    ensures var n := s.security[id].loginAttempts + 1;
      && Step(s, c).reply == Failed(if n >= 5 then TooManyAttempts else InvalidCredentials)
      && Step(s, c).state == s.(security := s.security[id :=
           s.security[id].(loginAttempts := n,
                           lockedUntil := if n >= 5 then Some(c.at + 1800000) else s.security[id].lockedUntil)])
  {
  }

  // Where no password is compared, nothing changes and the reply says why.
  lemma LoginNotCompared(s: State, c: Call)
    requires Inv(s) && c.req.Login? && forall id :: !Compared(s, c, id)
    ensures Step(s, c).state == s
    ensures var found := UserByEmail(s.users, c.req.email);
      Step(s, c).reply == Failed(
        if found.None? then InvalidCredentials
        else if !s.users[found.value].isActive then Deactivated
        else if found.value !in s.security then SetupIncomplete
        else AccountLocked)
  {
    hide Inv;
    var found := UserByEmail(s.users, c.req.email);
    if found.Some? {
      assert !Compared(s, c, found.value);
    }
  }

  // ---- Registration and e-mail verification ----

  lemma RegisterIff(s: State, c: Call)
    requires Inv(s) && c.req.Register? && c.req.userId !in s.users
    ensures Step(s, c).reply == if (exists id :: id in s.users && s.users[id].email == c.req.email) then Failed(EmailTaken) else Done
    ensures Step(s, c).reply.Failed? ==> Step(s, c).state == s
    ensures Step(s, c).reply.Done? ==>
              var t, id := Step(s, c).state, c.req.userId;
              var approval := if c.req.kind.Generic? || c.req.kind.Client? then Approved else Pending;
              && t.users == s.users[id := User(c.req.email, approval, true, false, false, None)]
              && t.security == s.security[id := Security(HashPassword(c.req.password), false, None, [], 0, None, None)]
              && t.sessions == s.sessions
              && t.redis == s.redis[OtpVerify(c.req.email) := Entry(OtpValue(c.req.otp, id), Some(c.at + 600000))]
  {
    hide Inv;
    var t := Step(s, c).state;
    if Step(s, c).reply.Done? {
      assert t.users[c.req.userId].email == c.req.email;
      assert UserByEmail(t.users, c.req.email) == Some(c.req.userId);
    }
  }

  // The account an accepted code verifies: the one the stored code was made for; with the
  // master code and no stored code, the one with the address.
  ghost predicate AcceptsEmailCode(s: State, c: Call, id: UserId)
    requires c.req.VerifyEmailOtp?
  {
    var isMaster := c.req.otp == "555555" && !c.req.production;
    && id in s.users
    && match OtpAt(s.redis, c.at, OtpVerify(c.req.email))
       case Some(stored) => stored.1 == id && (isMaster || stored.0 == c.req.otp)
       case None => isMaster && s.users[id].email == c.req.email
  }

  // An accepted code is answered with tokens without a session, sets the flag of that
  // account and is used up; any other code changes nothing.
  lemma VerifyEmailIff(s: State, c: Call, id: UserId)
    requires Inv(s) && c.req.VerifyEmailOtp?
    ensures AcceptsEmailCode(s, c, id) && id in s.security
            <==> Step(s, c).reply == Tokens(Payload(id, None, false), c.req.refresh)
    ensures AcceptsEmailCode(s, c, id) && id in s.security ==>
              Step(s, c).state == s.(users := s.users[id := s.users[id].(isVerified := true)],
                                     redis := if OtpAt(s.redis, c.at, OtpVerify(c.req.email)).None? then s.redis
                                              else s.redis - {OtpVerify(c.req.email)})
    ensures (forall who :: !AcceptsEmailCode(s, c, who)) ==> Step(s, c).reply.Failed? && Step(s, c).state == s
  {
    hide SessionsOk, SecurityOk, UniqueHashes;
    var stored := OtpAt(s.redis, c.at, OtpVerify(c.req.email));
    var found := UserByEmail(s.users, c.req.email);
    if forall who :: !AcceptsEmailCode(s, c, who) {
      if stored.Some? { assert !AcceptsEmailCode(s, c, stored.value.1); }
      if found.Some? { assert !AcceptsEmailCode(s, c, found.value); }
    }
  }

  // A resend succeeds exactly for an unverified account with fewer than three resends on
  // the counter; it replaces the code and raises the counter, which lasts half an hour more.
  lemma ResendIff(s: State, c: Call, id: UserId)
    requires Inv(s) && c.req.ResendOtp? && id in s.users && s.users[id].email == c.req.email
    ensures var n := CountAt(s.redis, c.at, OtpResend(c.req.email));
      if s.users[id].isVerified || n >= 3 then
        Step(s, c) == Outcome(s, Failed(if s.users[id].isVerified then AlreadyVerified else TooManyResends))
      else
        Step(s, c) == Outcome(
          s.(redis := s.redis[OtpVerify(c.req.email) := Entry(OtpValue(c.req.otp, id), Some(c.at + 600000))]
                             [OtpResend(c.req.email) := Entry(CountValue(n + 1), Some(c.at + 1800000))]), Done)
  {
    hide SessionsOk, SecurityOk, UniqueHashes;
    assert UserByEmail(s.users, c.req.email) == Some(id);
  }

  // An address nobody has gets neither codes nor counters.
  lemma UnknownAddress(s: State, c: Call)
    requires c.req.ResendOtp? || c.req.ForgotPassword?
    requires forall id :: id in s.users ==> s.users[id].email != c.req.email
    ensures Step(s, c) == Outcome(s, if c.req.ResendOtp? then Failed(UserNotFound) else Done)
  {
  }

  // ---- Second factor ----

  // The state after a second factor has opened a session.
  ghost predicate OpensWithFactor(s: State, c: Call, temp: Token, sid: SessionId, refresh: Token, id: UserId)
    requires id in s.users
  {
    var t := Step(s, c).state;
    && Step(s, c).reply == Tokens(Payload(id, Some(sid), true), refresh)
    && t.sessions == s.sessions[sid := Session(id, HashToken(refresh), c.at, c.at + 7 * DAY, c.at)]
    && t.users == s.users[id := s.users[id].(lastLoginAt := Some(c.at))]
    && t.redis == s.redis - {MfaTemp(temp)}
  }

  // A TOTP login opens a session exactly when the temporary token leads to an account with
  // a secret and the code is valid; otherwise it changes nothing.
  lemma VerifyMfaIff(s: State, c: Call)
    requires c.req.VerifyMfa?
    ensures match UserRefAt(s.redis, c.at, MfaTemp(c.req.mfaTemp))
      case Some(id) =>
        if id in s.users && id in s.security && s.security[id].mfaSecret.Some? && c.req.totpValid then
          OpensWithFactor(s, c, c.req.mfaTemp, c.req.sid, c.req.refresh, id) && Step(s, c).state.security == s.security
        else Step(s, c).reply.Failed? && Step(s, c).state == s
      case None => Step(s, c) == Outcome(s, Failed(MfaSessionExpired))
  {
  }

  // A backup-code login opens a session exactly when it accepts a code of the account
  // behind the temporary token; the first occurrence of that code goes, the order of the
  // others stays. Otherwise it changes nothing.
  lemma BackupCodeIff(s: State, c: Call, id: UserId)
    requires c.req.VerifyMfaBackupCode?
    ensures AcceptsCode(s, c, id) ==>
              && OpensWithFactor(s, c, c.req.mfaTemp, c.req.sid, c.req.refresh, id)
              && exists i :: FirstAt(s.security[id].backupCodes, HashToken(c.req.code), i)
                   && Step(s, c).state.security == s.security[id := s.security[id].(backupCodes :=
                        s.security[id].backupCodes[..i] + s.security[id].backupCodes[i + 1..])]
    ensures (forall who :: !AcceptsCode(s, c, who)) ==> Step(s, c).reply.Failed? && Step(s, c).state == s
  {
    var owner := UserRefAt(s.redis, c.at, MfaTemp(c.req.mfaTemp));
    if AcceptsCode(s, c, id) {
      assert FirstAt(s.security[id].backupCodes, HashToken(c.req.code), IndexOf(s.security[id].backupCodes, HashToken(c.req.code)));
    } else if owner.Some? {
      assert (forall who :: !AcceptsCode(s, c, who)) ==> !AcceptsCode(s, c, owner.value);
    }
  }

  predicate FirstAt(codes: seq<TokenHash>, h: TokenHash, i: int) {
    0 <= i < |codes| && codes[i] == h && h !in codes[..i]
  }

  lemma SetupMfaIff(s: State, c: Call)
    requires c.req.SetupMfa?
    ensures Step(s, c) ==
              if c.req.userId !in s.users then Outcome(s, Failed(UserNotFound))
              else Outcome(s.(redis := s.redis[MfaSetup(c.req.userId) := Entry(SecretValue(c.req.secret), Some(c.at + 600000))]),
                           MfaSecret(c.req.secret))
  {
  }

  // The second factor is turned on exactly by a valid code for a secret that is set up;
  // the account gets that secret and the hashes of the codes handed out.
  lemma EnableMfaIff(s: State, c: Call, secret: string)
    requires c.req.EnableMfa?
    ensures SecretAt(s.redis, c.at, MfaSetup(c.req.userId)) == Some(secret) && c.req.totpValid && c.req.userId in s.security ==>
              var id, t := c.req.userId, Step(s, c).state;
              && Step(s, c).reply == BackupCodes(c.req.codes)
              && id in t.security && |t.security[id].backupCodes| == |c.req.codes|
              && (forall i :: 0 <= i < |c.req.codes| ==> t.security[id].backupCodes[i] == HashToken(c.req.codes[i]))
              && t == s.(security := s.security[id := s.security[id].(mfaEnabled := true, mfaSecret := Some(secret),
                                                                     backupCodes := t.security[id].backupCodes)],
                         redis := s.redis - {MfaSetup(id)})
    ensures SecretAt(s.redis, c.at, MfaSetup(c.req.userId)).None? || !c.req.totpValid || c.req.userId !in s.security ==>
              Step(s, c).reply.Failed? && Step(s, c).state == s
  {
  }

  // Turning the second factor off takes the right password.
  lemma DisableMfaIff(s: State, c: Call)
    requires c.req.DisableMfa?
    ensures TurnsMfaOff(s, c, c.req.userId) <==>
              && c.req.userId in s.security && s.security[c.req.userId].mfaEnabled
              && s.security[c.req.userId].passwordHash == HashPassword(c.req.password)
    ensures TurnsMfaOff(s, c, c.req.userId) ==>
              Step(s, c).state == s.(security := s.security[c.req.userId :=
                s.security[c.req.userId].(mfaEnabled := false, mfaSecret := None, backupCodes := [])])
    ensures !TurnsMfaOff(s, c, c.req.userId) ==> Step(s, c).reply.Failed? && Step(s, c).state == s
  {
  }

  lemma RegenerateIff(s: State, c: Call)
    requires c.req.RegenerateBackupCodes?
    ensures var id, t := c.req.userId, Step(s, c).state;
      if id in s.security && s.security[id].mfaEnabled then
        && Step(s, c).reply == BackupCodes(c.req.codes)
        && id in t.security && |t.security[id].backupCodes| == |c.req.codes|
        && (forall i :: 0 <= i < |c.req.codes| ==> t.security[id].backupCodes[i] == HashToken(c.req.codes[i]))
        && t == s.(security := s.security[id := s.security[id].(backupCodes := t.security[id].backupCodes)])
      else Step(s, c) == Outcome(s, Failed(MfaNotEnabled))
  {
  }

  // ---- Password reset ----

  // A request for a known address stores the code for that account for fifteen minutes.
  lemma ForgotStores(s: State, c: Call, id: UserId)
    requires Inv(s) && c.req.ForgotPassword? && id in s.users && s.users[id].email == c.req.email
    ensures Step(s, c) == Outcome(s.(redis := s.redis[OtpPwd(c.req.email) := Entry(OtpValue(c.req.otp, id), Some(c.at + 900000))]), Done)
  {
    hide SessionsOk, SecurityOk, UniqueHashes;
    assert UserByEmail(s.users, c.req.email) == Some(id);
  }

  // The right code stores the reset token for fifteen minutes and is used up; a wrong one
  // changes nothing.
  lemma ExchangeStores(s: State, c: Call)
    requires c.req.VerifyForgotPasswordOtp?
    ensures match OtpAt(s.redis, c.at, OtpPwd(c.req.email))
      case Some((otp, id)) =>
        if otp == c.req.otp then
          && Step(s, c).reply == ResetTokenIssued(c.req.resetToken)
          && ResetSession(c.req.resetToken) in Step(s, c).state.redis
          && Step(s, c).state.redis[ResetSession(c.req.resetToken)] == Entry(UserRef(id), Some(c.at + 900000))
          && Step(s, c).state
             == s.(redis := s.redis[ResetSession(c.req.resetToken) := Entry(UserRef(id), Some(c.at + 900000))] - {OtpPwd(c.req.email)})
        else Step(s, c) == Outcome(s, Failed(OtpInvalid))
      case None => Step(s, c) == Outcome(s, Failed(OtpInvalid))
  {
  }

  // A reset with a live token of a complete account sets the password, ends exactly the
  // account's sessions and spends the token; any other changes nothing.
  lemma ResetSets(s: State, c: Call, id: UserId)
    requires c.req.ResetPassword?
    ensures UserRefAt(s.redis, c.at, ResetSession(c.req.resetToken)) == Some(id) && id in s.users && id in s.security ==>
              && Step(s, c).reply == Done
              && Step(s, c).state
                 == s.(security := s.security[id := s.security[id].(passwordHash := HashPassword(c.req.password), passwordChangedAt := Some(c.at))],
                       sessions := map sid | sid in s.sessions && s.sessions[sid].userId != id :: s.sessions[sid],
                       redis := s.redis - {ResetSession(c.req.resetToken)})
    ensures Step(s, c).reply != Done ==> Step(s, c).reply.Failed? && Step(s, c).state == s
  {
  }

  // ---- Sessions ----

  // A successful refresh answers with the minted token for the session and the account
  // the presented token belonged to; the minted token is then that session's.
  lemma RefreshAnswers(s: State, c: Call)
    requires Inv(s) && c.req.RefreshTokens? && Step(s, c).reply.Tokens?
    ensures var reply, t := Step(s, c).reply, Step(s, c).state;
      exists sid :: sid in s.sessions && s.sessions[sid].tokenHash == HashToken(c.req.presented)
        && reply == Tokens(Payload(s.sessions[sid].userId, Some(sid), true), c.req.refresh)
        && sid in t.sessions && t.sessions[sid].tokenHash == HashToken(reply.refresh)
        && t == s.(sessions := s.sessions[sid := s.sessions[sid].(tokenHash := HashToken(c.req.refresh), lastActiveAt := c.at)],
                   redis := s.redis[Grace(HashToken(c.req.presented)) := Entry(SessionRef(sid), Some(c.at + 30000))])
  {
    hide UniqueEmails, SecurityOk;
    var sid := Step(s, c).reply.payload.sid.value;
    assert sid in s.sessions && s.sessions[sid].tokenHash == HashToken(c.req.presented);
  }

  // The calls that remove a session: logout with its sid, or without any sid and with its
  // current token; revocation by its owner; a reset of its owner's password; and a refresh
  // that finds it expired.
  ghost predicate Ends(s: State, c: Call, sid: SessionId)
    requires sid in s.sessions
  {
    match c.req
    case Logout(token, ownSid) =>
      ownSid == Some(sid) || (ownSid.None? && token.Some? && s.sessions[sid].tokenHash == HashToken(token.value))
    case RevokeSession(userId, target) => target == sid && userId == s.sessions[sid].userId
    case RevokeAllSessions(userId) => userId == s.sessions[sid].userId
    case ResetPassword(resetToken, _) =>
      var id := s.sessions[sid].userId;
      UserRefAt(s.redis, c.at, ResetSession(resetToken)) == Some(id) && id in s.users && id in s.security
    case RefreshTokens(presented, _) =>
      Lookup(s, c.at, presented) == Some(sid) && c.at > s.sessions[sid].expiresAt
    case _ => false
  }

  lemma RefreshEndsIff(s: State, c: Call, sid: SessionId)
    requires sid in s.sessions && c.req.RefreshTokens?
    ensures sid !in Step(s, c).state.sessions <==> Ends(s, c, sid)
  {
  }

  lemma LogoutEndsIff(s: State, c: Call, sid: SessionId)
    requires UniqueHashes(s.sessions) && sid in s.sessions && c.req.Logout?
    ensures sid !in Step(s, c).state.sessions <==> Ends(s, c, sid)
  {
  }

  lemma OtherEndsIff(s: State, c: Call, sid: SessionId)
    requires sid in s.sessions && !c.req.RefreshTokens? && !c.req.Logout?
    ensures sid !in Step(s, c).state.sessions <==> Ends(s, c, sid)
  {
    hide RefreshTokensStep, LogoutStep, Lookup;
  }

  // A session goes exactly through those calls; every other session survives.
  lemma SessionEndsIff(s: State, c: Call, sid: SessionId)
    requires Inv(s) && sid in s.sessions
    ensures sid !in Step(s, c).state.sessions <==> Ends(s, c, sid)
  {
    assert UniqueHashes(s.sessions);
    hide Inv, Step, Ends;
    if c.req.RefreshTokens? {
      RefreshEndsIff(s, c, sid);
    } else if c.req.Logout? {
      LogoutEndsIff(s, c, sid);
    } else {
      OtherEndsIff(s, c, sid);
    }
  }

  // Logout and revocation change nothing but the session table, and always report success.
  lemma EndingsFrame(s: State, c: Call)
    requires c.req.Logout? || c.req.RevokeSession? || c.req.RevokeAllSessions?
    ensures Step(s, c).reply == Done
    ensures Step(s, c).state == s.(sessions := Step(s, c).state.sessions)
    ensures forall sid :: sid in Step(s, c).state.sessions ==> sid in s.sessions && Step(s, c).state.sessions[sid] == s.sessions[sid]
  {
  }

  // An administrator's update sets three columns of one account.
  lemma AdminSets(s: State, c: Call)
    requires c.req.AdminSetAccount?
    ensures var id := c.req.userId;
      Step(s, c) ==
        if id in s.users then
          Outcome(s.(users := s.users[id := s.users[id].(isActive := c.req.isActive, approval := c.req.approval, deleted := c.req.deleted)]), Done)
        else Outcome(s, Failed(UserNotFound))
  {
  }

  // An access token is accepted exactly while its account is active and not deleted and
  // its session, if it names one, exists.
  lemma ValidateIff(s: State, p: Payload)
    ensures Validate(s, p) == Done <==>
              && p.sub in s.users && s.users[p.sub].isActive && !s.users[p.sub].deleted
              && (p.sid == None || p.sid.value in s.sessions)
    ensures Validate(s, p) == Done || Validate(s, p).Failed?
  {
  }
}
