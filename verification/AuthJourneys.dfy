// What users are owed over a run: a code, a token or a session that was handed out works
// until it expires, is spent or is ended, and a password stays until it is reset.
module AuthJourneys {

  import opened Options
  import opened Redis
  import opened AuthModel
  import opened AuthRuns
  import opened AuthSessions
  import opened AuthReset
  import opened AuthVerification
  import opened AuthLaws

  // ---- Entries that stay ----

  // A key the call does not name keeps its entry.
  lemma KeyKept(r: Run, n: nat, key: Key)
    requires IsRun(r) && n < |r.calls| && key !in TouchedKeys(r.calls[n].req)
    ensures SameEntry(r.states[n].redis, r.states[n + 1].redis, key)
  {
    hide IsRun, Step, Inv, AllMinted, NewHash, AccountsFramed, NewAccounts, SessionsFramed;
    StepOf(r, n);
  }

  lemma StateStep(r: Run, n: nat)
    requires IsRun(r) && n < |r.calls|
    ensures r.states[n + 1] == Step(r.states[n], r.calls[n]).state && Inv(r.states[n])
  {
    hide IsRun, Step, Inv, AllMinted, NewHash, Framed;
    StepOf(r, n);
  }

  lemma AccountStays(r: Run, a: nat, i: nat, id: UserId)
    requires IsRun(r) && a <= i < |r.states|
    ensures id in r.states[a].users ==> id in r.states[i].users && r.states[i].users[id].email == r.states[a].users[id].email
    ensures id in r.states[a].security ==> id in r.states[i].security
    decreases i - a
  {
    hide StepAt, Before, Inv, Step, NewHash, AllMinted, RedisFramed, NewAccounts, SessionsFramed, Initial;
    if a < i {
      AccountStays(r, a, i - 1, id);
      StepOf(r, i - 1);
    }
  }

  // ---- Password reset ----

  ghost predicate SpendsReset(s: State, c: Call, token: Token) {
    c.req.ResetPassword? && c.req.resetToken == token && Step(s, c).reply.Done?
  }

  lemma {:induction false} ResetTokenStays(r: Run, j: nat, i: nat, token: Token)
    requires IsRun(r) && j < i < |r.states| && r.calls[j].req.VerifyForgotPasswordOtp? && r.calls[j].req.resetToken == token
    requires ResetSession(token) in r.states[j + 1].redis
    requires forall n :: j < n < i ==> !SpendsReset(r.states[n], r.calls[n], token)
    ensures SameEntry(r.states[j + 1].redis, r.states[i].redis, ResetSession(token))
  {
    if i > j + 1 {
      ResetTokenStays(r, j, i - 1, token);
      var n := i - 1;
      assert Before(r.calls[j], r.calls[n]);
      assert !SpendsReset(r.states[n], r.calls[n], token);
      StateStep(r, n);
      hide IsRun, Step, Inv;
      if ResetSession(token) in TouchedKeys(r.calls[n].req) {
        ResetSets(r.states[n], r.calls[n], token);
      } else {
        KeyKept(r, n, ResetSession(token));
      }
    }
  }

  // A reset succeeds with any token exchanged less than fifteen minutes before and not
  // spent since, if the account has a security row.
  lemma ResetCompletes(r: Run, j: nat, i: nat, email: Email, token: Token, id: UserId)
    requires IsRun(r) && j < i < |r.calls| && Exchanges(r.states[j], r.calls[j], email, token, id)
    requires r.calls[i].req.ResetPassword? && r.calls[i].req.resetToken == token
    requires r.calls[i].at < r.calls[j].at + 15 * MINUTE
    requires forall n :: j < n < i ==> !SpendsReset(r.states[n], r.calls[n], token)
    requires id in r.states[i].security
    ensures Step(r.states[i], r.calls[i]).reply == Done && Resets(r.states[i], r.calls[i], token, id)
    ensures id in r.states[i + 1].security && r.states[i + 1].security[id].passwordHash == HashPassword(r.calls[i].req.password)
  {
    assert |r.states| == |r.calls| + 1;
    hide IsRun, Step;
    StateStep(r, j);
    StateStep(r, i);
    ExchangeStores(r.states[j], r.calls[j]);
    ResetTokenStays(r, j, i, token);
    ResetSets(r.states[i], r.calls[i], id);
  }

  ghost predicate SpendsCode(s: State, c: Call, email: Email) {
    c.req.VerifyForgotPasswordOtp? && c.req.email == email && Step(s, c).reply.ResetTokenIssued?
  }

  lemma {:induction false} ResetCodeStays(r: Run, k: nat, j: nat, email: Email)
    requires IsRun(r) && k < j < |r.states| && OtpPwd(email) in r.states[k + 1].redis
    requires forall n :: k < n < j ==> !IssuesTo(r.states[n], r.calls[n], email) && !SpendsCode(r.states[n], r.calls[n], email)
    ensures SameEntry(r.states[k + 1].redis, r.states[j].redis, OtpPwd(email))
  {
    if j > k + 1 {
      ResetCodeStays(r, k, j - 1, email);
      var n := j - 1;
      assert !IssuesTo(r.states[n], r.calls[n], email) && !SpendsCode(r.states[n], r.calls[n], email);
      StateStep(r, n);
      hide IsRun, Step, Inv, IssuesTo;
      if OtpPwd(email) in TouchedKeys(r.calls[n].req) {
        if r.calls[n].req.ForgotPassword? {
          NotIssued(r.states[n], r.calls[n], email);
        } else {
          ExchangeStores(r.states[n], r.calls[n]);
        }
      } else {
        KeyKept(r, n, OtpPwd(email));
      }
    }
  }

  lemma NotIssued(s: State, c: Call, email: Email)
    requires c.req.ForgotPassword? && c.req.email == email && !IssuesTo(s, c, email)
    ensures Step(s, c).state == s
  {
    var id := UserByEmail(s.users, email);
    if id.Some? {
      assert Issues(s, c, email, id.value);
    }
  }

  // An exchange succeeds with the latest code issued less than fifteen minutes before and
  // not exchanged since.
  lemma ExchangeCompletes(r: Run, k: nat, j: nat, email: Email, id: UserId)
    requires IsRun(r) && k < j < |r.calls| && Issues(r.states[k], r.calls[k], email, id)
    requires r.calls[j].req.VerifyForgotPasswordOtp? && r.calls[j].req.email == email && r.calls[j].req.otp == r.calls[k].req.otp
    requires r.calls[j].at < r.calls[k].at + 15 * MINUTE
    requires forall n :: k < n < j ==> !IssuesTo(r.states[n], r.calls[n], email) && !SpendsCode(r.states[n], r.calls[n], email)
    ensures Step(r.states[j], r.calls[j]).reply == ResetTokenIssued(r.calls[j].req.resetToken)
    ensures Exchanges(r.states[j], r.calls[j], email, r.calls[j].req.resetToken, id)
  {
    StateStep(r, k);
    ForgotStores(r.states[k], r.calls[k], id);
    hide IsRun, Step, Inv, IssuesTo;
    ResetCodeStays(r, k, j, email);
    ExchangeStores(r.states[j], r.calls[j]);
  }

  // ---- Passwords ----

  // The call sets the password of the account: it registers it, or it resets it.
  ghost predicate SetsPassword(s: State, c: Call, id: UserId) {
    || (c.req.Register? && c.req.userId == id && Step(s, c).reply.Done?)
    || (c.req.ResetPassword? && Resets(s, c, c.req.resetToken, id))
  }

  function NewPassword(c: Call): string
    requires c.req.Register? || c.req.ResetPassword?
  {
    c.req.password
  }

  lemma LoginKeepsPassword(s: State, c: Call, id: UserId)
    requires c.req.Login? && id in Step(s, c).state.security
    ensures id in s.security && Step(s, c).state.security[id].passwordHash == s.security[id].passwordHash
  {
  }

  lemma OtherKeepsPassword(s: State, c: Call, id: UserId)
    requires !c.req.Login? && !SetsPassword(s, c, id) && id in Step(s, c).state.security
    ensures id in s.security && Step(s, c).state.security[id].passwordHash == s.security[id].passwordHash
  {
    hide LoginStep;
  }

  // A password changes only through a reset of its account, to the one given there.
  lemma PasswordStep(s: State, c: Call, id: UserId)
    requires WellDrawn(s, c.req) && Inv(s) && id in Step(s, c).state.security
    ensures if SetsPassword(s, c, id) then Step(s, c).state.security[id].passwordHash == HashPassword(NewPassword(c))
            else id in s.security && Step(s, c).state.security[id].passwordHash == s.security[id].passwordHash
  {
    if SetsPassword(s, c, id) {
      hide Inv;
    } else if c.req.Login? {
      LoginKeepsPassword(s, c, id);
    } else {
      hide Inv;
      OtherKeepsPassword(s, c, id);
    }
  }

  // Call j set the password the account has in state i, and nothing has set it since; j is
  // -1 for a password from before the run.
  ghost predicate LastSet(r: Run, j: int, i: nat, id: UserId)
    requires |r.states| == |r.calls| + 1 && -1 <= j < i < |r.states| && id in r.states[i].security
  {
    && (forall n :: j < n < i ==> !SetsPassword(r.states[n], r.calls[n], id))
    && if j == -1 then id in r.states[0].security && r.states[i].security[id].passwordHash == r.states[0].security[id].passwordHash
       else SetsPassword(r.states[j], r.calls[j], id)
            && r.states[i].security[id].passwordHash == HashPassword(NewPassword(r.calls[j]))
  }

  // In every reachable state the password of an account is the one last set, by its
  // registration or by a reset, or the one it had before the run.
  lemma {:induction false} PasswordIsLastSet(r: Run, i: nat, id: UserId) returns (j: int)
    requires IsRun(r) && 0 < i < |r.states| && id in r.states[i].security
    ensures -1 <= j < i && LastSet(r, j, i, id)
  {
    var n := i - 1;
    assert StepAt(r, n);
    StateStep(r, n);
    hide Step, Inv, StepAt, Before, Initial, SetsPassword;
    PasswordStep(r.states[n], r.calls[n], id);
    if SetsPassword(r.states[n], r.calls[n], id) {
      j := n;
    } else if n == 0 {
      j := -1;
    } else {
      j := PasswordIsLastSet(r, n, id);
    }
  }

  // ---- The end of a lock ----

  lemma LockedBy(r: Run, n: nat, id: UserId)
    requires IsRun(r) && n < |r.calls| && id in r.states[n + 1].security && r.states[n + 1].security[id].lockedUntil.Some?
    ensures
      || (WrongPassword(r.states[n], r.calls[n], id) && r.states[n + 1].security[id].lockedUntil == Some(r.calls[n].at + LOCK_DURATION))
      || (id in r.states[n].security && r.states[n + 1].security[id].lockedUntil == r.states[n].security[id].lockedUntil
          && !Compared(r.states[n], r.calls[n], id))
  {
    assert StepAt(r, n);
    StateStep(r, n);
    hide IsRun, Step;
    if Compared(r.states[n], r.calls[n], id) && WrongPassword(r.states[n], r.calls[n], id) {
      LoginWrong(r.states[n], r.calls[n], id);
    } else {
      hide MfaFramed;
      StepSecurityFramed(r.states[n], r.calls[n]);
    }
  }

  // Every lock was set by a wrong password, thirty minutes before it ends, with no password
  // compared since; or it was there before the run.
  lemma {:induction false} LockOrigin(r: Run, i: nat, id: UserId) returns (k: int)
    requires IsRun(r) && i < |r.states| && id in r.states[i].security && r.states[i].security[id].lockedUntil.Some?
    ensures -1 <= k < i
    ensures forall n :: k < n < i ==> !Compared(r.states[n], r.calls[n], id)
    ensures if k == -1 then id in r.states[0].security && r.states[i].security[id].lockedUntil == r.states[0].security[id].lockedUntil
            else WrongPassword(r.states[k], r.calls[k], id)
                 && r.states[i].security[id].lockedUntil == Some(r.calls[k].at + LOCK_DURATION)
  {
    hide StepAt, Before, Initial, Compared, WrongPassword;
    if i == 0 {
      k := -1;
    } else {
      LockedBy(r, i - 1, id);
      if WrongPassword(r.states[i - 1], r.calls[i - 1], id)
         && r.states[i].security[id].lockedUntil == Some(r.calls[i - 1].at + LOCK_DURATION)
      {
        k := i - 1;
      } else {
        k := LockOrigin(r, i - 1, id);
      }
    }
  }

  // Thirty minutes after the last wrong password, and after any lock from before the run,
  // a login with the right password of an active account is let through to it.
  lemma LockEnds(r: Run, i: nat, id: UserId)
    requires IsRun(r) && i < |r.calls| && r.calls[i].req.Login?
    requires id in r.states[i].users && r.states[i].users[id].isActive && id in r.states[i].security
    requires r.states[i].users[id].email == r.calls[i].req.email
    requires r.states[i].security[id].passwordHash == HashPassword(r.calls[i].req.password)
    requires forall n :: 0 <= n < i && WrongPassword(r.states[n], r.calls[n], id) ==> r.calls[n].at + 30 * MINUTE <= r.calls[i].at
    requires id in r.states[0].security && r.states[0].security[id].lockedUntil.Some?
             ==> r.states[0].security[id].lockedUntil.value <= r.calls[i].at
    ensures RightPassword(r.states[i], r.calls[i], id)
    ensures !Step(r.states[i], r.calls[i]).reply.Failed?
    ensures id in r.states[i + 1].security
    ensures r.states[i + 1].security[id].loginAttempts == 0 && r.states[i + 1].security[id].lockedUntil == None
  {
    StateStep(r, i);
    var s, c := r.states[i], r.calls[i];
    if s.security[id].lockedUntil.Some? {
      hide Before, StepAt, Inv, Step, WrongPassword, Compared;
      var k := LockOrigin(r, i, id);
    }
    assert UserByEmail(s.users, c.req.email) == Some(id) by { hide IsRun, Step, WrongPassword, SecurityOk, SessionsOk; }
    hide IsRun, Step, WrongPassword;
    assert RightPassword(s, c, id);
    if PassedLogin(s, c, id) {
      LoginOpensIff(s, c, id);
      LoginAsksIff(s, c, id);
    } else {
      LoginHeldUp(s, c, id);
    }
  }

  // ---- Second factor ----

  ghost predicate SpendsTemp(s: State, c: Call, temp: Token) {
    (c.req.VerifyMfa? || c.req.VerifyMfaBackupCode?) && c.req.mfaTemp == temp && Step(s, c).reply.Tokens?
  }

  lemma UnspentTemp(s: State, c: Call, temp: Token)
    requires (c.req.VerifyMfa? || c.req.VerifyMfaBackupCode?) && c.req.mfaTemp == temp && !SpendsTemp(s, c, temp)
    ensures Step(s, c).state == s
  {
    if c.req.VerifyMfa? {
      VerifyMfaIff(s, c);
    }
  }

  lemma {:induction false} TempStays(r: Run, k: nat, j: nat, temp: Token)
    requires IsRun(r) && k < j < |r.states| && r.calls[k].req.Login? && r.calls[k].req.mfaTemp == temp
    requires MfaTemp(temp) in r.states[k + 1].redis
    requires forall n :: k < n < j ==> !SpendsTemp(r.states[n], r.calls[n], temp)
    ensures SameEntry(r.states[k + 1].redis, r.states[j].redis, MfaTemp(temp))
  {
    if j > k + 1 {
      TempStays(r, k, j - 1, temp);
      var n := j - 1;
      assert Before(r.calls[k], r.calls[n]);
      assert !SpendsTemp(r.states[n], r.calls[n], temp);
      StateStep(r, n);
      hide IsRun, Step, Inv, SpendsTemp;
      if MfaTemp(temp) in TouchedKeys(r.calls[n].req) {
        UnspentTemp(r.states[n], r.calls[n], temp);
      } else {
        KeyKept(r, n, MfaTemp(temp));
      }
    }
  }

  // Within 300 s of the first factor, a valid second factor opens a session for the
  // account, once: a TOTP while the account has a secret, or one of its backup codes.
  lemma SecondFactorCompletes(r: Run, k: nat, j: nat, temp: Token, id: UserId)
    requires IsRun(r) && k < j < |r.calls| && r.calls[k].req.Login? && FirstFactor(r.states[k], r.calls[k], temp, id)
    requires r.calls[j].at < r.calls[k].at + 300000
    requires forall n :: k < n < j ==> !SpendsTemp(r.states[n], r.calls[n], temp)
    ensures id in r.states[j].users && id in r.states[j].security
    ensures UserRefAt(r.states[j].redis, r.calls[j].at, MfaTemp(temp)) == Some(id)
    ensures var s, c := r.states[j], r.calls[j];
      c.req.VerifyMfa? && c.req.mfaTemp == temp && c.req.totpValid && s.security[id].mfaSecret.Some? ==>
        OpensWithFactor(s, c, temp, c.req.sid, c.req.refresh, id)
    ensures var s, c := r.states[j], r.calls[j];
      c.req.VerifyMfaBackupCode? && c.req.mfaTemp == temp && HashToken(c.req.code) in s.security[id].backupCodes ==>
        OpensWithFactor(s, c, temp, c.req.sid, c.req.refresh, id)
  {
    StateStep(r, k);
    LoginAsksIff(r.states[k], r.calls[k], id);
    AccountStays(r, k, j, id);
    hide IsRun, Step, Inv, SpendsTemp, OpensWithFactor;
    TempStays(r, k, j, temp);
    var s, c := r.states[j], r.calls[j];
    if c.req.VerifyMfa? { VerifyMfaIff(s, c); }
    if c.req.VerifyMfaBackupCode? { BackupCodeIff(s, c, id); }
  }

  // ---- E-mail verification ----

  ghost predicate SpendsEmailCode(s: State, c: Call, email: Email) {
    c.req.VerifyEmailOtp? && c.req.email == email && Step(s, c).state.redis != s.redis
  }

  lemma EmailCodeUnspent(s: State, c: Call, email: Email)
    requires !Sends(s, c, email) && !SpendsEmailCode(s, c, email) && RedisFramed(s, c, Step(s, c).state)
    ensures SameEntry(s.redis, Step(s, c).state.redis, OtpVerify(email))
  {
    if OtpVerify(email) !in TouchedKeys(c.req) {
      hide Step;
    }
  }

  lemma {:induction false} EmailCodeStays(r: Run, k: nat, j: nat, email: Email)
    requires IsRun(r) && k < j < |r.states|
    requires forall n :: k < n < j ==> !Sends(r.states[n], r.calls[n], email) && !SpendsEmailCode(r.states[n], r.calls[n], email)
    ensures SameEntry(r.states[k + 1].redis, r.states[j].redis, OtpVerify(email))
  {
    hide StepAt, Before, Initial, Step, Inv, AllMinted, NewHash, AccountsFramed, NewAccounts, SessionsFramed, Sends, SpendsEmailCode, RedisFramed;
    if j > k + 1 {
      EmailCodeStays(r, k, j - 1, email);
      StepOf(r, j - 1);
      EmailCodeUnspent(r.states[j - 1], r.calls[j - 1], email);
    }
  }

  // The latest code sent to an address verifies the account with that address for ten
  // minutes, once.
  lemma VerificationCompletes(r: Run, k: nat, j: nat, email: Email) returns (id: UserId)
    requires IsRun(r) && k < j < |r.calls| && Sends(r.states[k], r.calls[k], email)
    requires r.calls[k].req.Register? || r.calls[k].req.Login? || r.calls[k].req.ResendOtp?
    requires r.calls[j].req.VerifyEmailOtp? && r.calls[j].req.email == email && r.calls[j].req.otp == r.calls[k].req.otp
    requires r.calls[j].at < r.calls[k].at + 10 * MINUTE
    requires forall n :: k < n < j ==> !Sends(r.states[n], r.calls[n], email) && !SpendsEmailCode(r.states[n], r.calls[n], email)
    ensures id in r.states[j].users && r.states[j].users[id].email == email
    ensures id in r.states[j].security ==>
              && Step(r.states[j], r.calls[j]).reply == Tokens(Payload(id, None, false), r.calls[j].req.refresh)
              && Verified(r.states[j + 1], id)
  {
    assert |r.states| == |r.calls| + 1;
    hide IsRun, Step, Sends, SpendsEmailCode, Inv, Verified;
    id := SentCode(r, k, email);
    StateStep(r, j);
    AccountStays(r, k + 1, j, id);
    EmailCodeStays(r, k, j, email);
    if id in r.states[j].security { CodeAccepted(r.states[j], r.calls[j], id); }
  }

  lemma CodeAccepted(s: State, c: Call, id: UserId)
    requires Inv(s) && c.req.VerifyEmailOtp? && id in s.users && id in s.security
    requires OtpAt(s.redis, c.at, OtpVerify(c.req.email)) == Some((c.req.otp, id))
    ensures Step(s, c).reply == Tokens(Payload(id, None, false), c.req.refresh) && Verified(Step(s, c).state, id)
  {
    hide Step, Inv;
    VerifyEmailIff(s, c, id);
  }

  lemma SentCode(r: Run, k: nat, email: Email) returns (id: UserId)
    requires IsRun(r) && k < |r.calls| && Sends(r.states[k], r.calls[k], email)
    requires r.calls[k].req.Register? || r.calls[k].req.Login? || r.calls[k].req.ResendOtp?
    ensures id in r.states[k + 1].users && r.states[k + 1].users[id].email == email
    ensures OtpVerify(email) in r.states[k + 1].redis
    ensures r.states[k + 1].redis[OtpVerify(email)] == Entry(OtpValue(r.calls[k].req.otp, id), Some(r.calls[k].at + 600000))
  {
    StateStep(r, k);
    CodeSent(r.states[k], r.calls[k], email);
    hide IsRun, Step, Sends, Inv;
    var owner :| UserByEmail(r.states[k + 1].users, email) == Some(owner)
                 && r.states[k + 1].redis[OtpVerify(email)] == Entry(OtpValue(r.calls[k].req.otp, owner), Some(r.calls[k].at + 600000));
    id := owner;
  }

  // ---- Sessions ----

  // Nothing from call i up to call m ends the session or refreshes its token.
  ghost predicate Undisturbed(r: Run, i: nat, m: nat, sid: SessionId, h: TokenHash)
    requires |r.states| == |r.calls| + 1 && i <= m < |r.states|
  {
    forall n :: i <= n < m ==>
      && (sid in r.states[n].sessions ==> !Ends(r.states[n], r.calls[n], sid))
      && !Rotates(r.states[n], r.calls[n], sid, h)
  }

  lemma SessionUndisturbed(r: Run, n: nat, sid: SessionId, h: TokenHash)
    requires IsRun(r) && n < |r.calls| && sid in r.states[n].sessions && r.states[n].sessions[sid].tokenHash == h
    requires !Ends(r.states[n], r.calls[n], sid) && !Rotates(r.states[n], r.calls[n], sid, h)
    ensures sid in r.states[n + 1].sessions && r.states[n + 1].sessions[sid].tokenHash == h
    ensures SameOrigin(r.states[n].sessions[sid], r.states[n + 1].sessions[sid])
  {
    StateStep(r, n);
    SessionEndsIff(r.states[n], r.calls[n], sid);
    SessionStep(r, n, sid);
    hide IsRun, Step, Ends, UniqueEmails, SecurityOk;
    var s, c := r.states[n], r.calls[n];
    if c.req.RefreshTokens? && HashToken(c.req.presented) == h {
      if Step(s, c).reply.Tokens? {
        RefreshAnswers(s, c);
        assert false;
      } else {
        RefreshFails(s, c);
      }
    }
  }

  lemma RefreshFails(s: State, c: Call)
    requires c.req.RefreshTokens? && !Step(s, c).reply.Tokens?
    ensures forall sid :: sid in Step(s, c).state.sessions ==>
              sid in s.sessions && Step(s, c).state.sessions[sid] == s.sessions[sid]
  {
  }

  lemma {:induction false} SessionStays(r: Run, i: nat, m: nat, sid: SessionId, h: TokenHash)
    requires IsRun(r) && i <= m < |r.states| && sid in r.states[i].sessions && r.states[i].sessions[sid].tokenHash == h
    requires Undisturbed(r, i, m, sid, h)
    ensures sid in r.states[m].sessions && r.states[m].sessions[sid].tokenHash == h
    ensures SameOrigin(r.states[i].sessions[sid], r.states[m].sessions[sid])
  {
    hide StepAt, Before, Initial, Ends, Rotates;
    if i < m {
      SessionStays(r, i, m - 1, sid, h);
      SessionUndisturbed(r, m - 1, sid, h);
    }
  }

  // While nothing has ended a session or used its token, the token refreshes it until it
  // expires.
  lemma SessionWorks(r: Run, i: nat, m: nat, sid: SessionId, token: Token)
    requires IsRun(r) && i <= m < |r.calls| && sid in r.states[i].sessions && r.states[i].sessions[sid].tokenHash == HashToken(token)
    requires Undisturbed(r, i, m, sid, HashToken(token))
    ensures sid in r.states[m].sessions && SameOrigin(r.states[i].sessions[sid], r.states[m].sessions[sid])
    ensures r.calls[m].req.RefreshTokens? && r.calls[m].req.presented == token && r.calls[m].at <= r.states[i].sessions[sid].expiresAt
            ==> Step(r.states[m], r.calls[m]).reply
                == Tokens(Payload(r.states[i].sessions[sid].userId, Some(sid), true), r.calls[m].req.refresh)
  {
    assert |r.states| == |r.calls| + 1;
    hide IsRun, Step, Undisturbed, Inv;
    StateStep(r, m);
    SessionStays(r, i, m, sid, HashToken(token));
    var s, c := r.states[m], r.calls[m];
    if c.req.RefreshTokens? && c.req.presented == token && c.at <= s.sessions[sid].expiresAt {
      RefreshWorks(s, c, sid);
    }
  }

  // Tokens handed out with a session, by a login or by a refresh, work for as long as the
  // seven days last and nothing has ended the session or used the refresh token: the
  // refresh token is accepted, and the access token while the account is active.
  lemma TokensWork(r: Run, j: nat, m: nat, p: Payload, sid: SessionId, refresh: Token)
    requires IsRun(r) && j < m < |r.calls| && p.sid == Some(sid)
    requires Step(r.states[j], r.calls[j]).reply == Tokens(p, refresh) && Undisturbed(r, j + 1, m, sid, HashToken(refresh))
    ensures sid in r.states[m].sessions
    ensures r.calls[m].req.RefreshTokens? && r.calls[m].req.presented == refresh
            && r.calls[m].at <= r.states[m].sessions[sid].expiresAt
            ==> Step(r.states[m], r.calls[m]).reply == Tokens(Payload(p.sub, p.sid, true), r.calls[m].req.refresh)
    ensures p.sub in r.states[m].users && r.states[m].users[p.sub].isActive && !r.states[m].users[p.sub].deleted
            ==> Validate(r.states[m], p) == Done
    ensures !r.calls[j].req.RefreshTokens? ==> r.states[m].sessions[sid].expiresAt == r.calls[j].at + 7 * DAY
  {
    assert |r.states| == |r.calls| + 1;
    hide IsRun, Step, Undisturbed, Inv, Validate;
    TokensOpen(r, j, p, sid, refresh);
    SessionWorks(r, j + 1, m, sid, refresh);
    ValidateIff(r.states[m], p);
  }

  lemma TokensOpen(r: Run, j: nat, p: Payload, sid: SessionId, refresh: Token)
    requires IsRun(r) && j < |r.calls| && p.sid == Some(sid) && Step(r.states[j], r.calls[j]).reply == Tokens(p, refresh)
    ensures sid in r.states[j + 1].sessions
    ensures r.states[j + 1].sessions[sid].tokenHash == HashToken(refresh) && r.states[j + 1].sessions[sid].userId == p.sub
    ensures !r.calls[j].req.RefreshTokens? ==> r.states[j + 1].sessions[sid].expiresAt == r.calls[j].at + 7 * DAY
  {
    assert |r.states| == |r.calls| + 1;
    hide IsRun, Step, Inv;
    StateStep(r, j);
    TokensNameSession(r.states[j], r.calls[j]);
  }

  lemma RefreshWorks(s: State, c: Call, sid: SessionId)
    requires Inv(s) && c.req.RefreshTokens? && sid in s.sessions
    requires s.sessions[sid].tokenHash == HashToken(c.req.presented) && c.at <= s.sessions[sid].expiresAt
    ensures Step(s, c).reply == Tokens(Payload(s.sessions[sid].userId, Some(sid), true), c.req.refresh)
  {
    RefreshSucceedsIff(s, c);
    hide Step, SessionsOk, UniqueEmails, SecurityOk;
    RefreshAnswers(s, c);
  }

  lemma OnlyTheseAnswerTokens(s: State, c: Call)
    requires Step(s, c).reply.Tokens? && Step(s, c).reply.payload.sid.Some?
    ensures c.req.Login? || c.req.VerifyMfa? || c.req.VerifyMfaBackupCode? || c.req.RefreshTokens?
  {
    hide LoginStep, RefreshTokensStep, VerifyMfaStep, VerifyMfaBackupCodeStep;
  }

  // A reply with a session names a session of the new table, its owner and its token.
  lemma TokensNameSession(s: State, c: Call)
    requires Inv(s) && Step(s, c).reply.Tokens? && Step(s, c).reply.payload.sid.Some?
    ensures var reply, t := Step(s, c).reply, Step(s, c).state;
      && reply.payload.sid.value in t.sessions
      && t.sessions[reply.payload.sid.value].tokenHash == HashToken(reply.refresh)
      && t.sessions[reply.payload.sid.value].userId == reply.payload.sub
      && (!c.req.RefreshTokens? ==> t.sessions[reply.payload.sid.value].expiresAt == c.at + 7 * DAY)
  {
    OnlyTheseAnswerTokens(s, c);
    hide Step, Inv, PassedLogin, AcceptsCode;
    if c.req.Login? {
      LoginOpensIff(s, c, Step(s, c).reply.payload.sub);
      var owner :| PassedLogin(s, c, owner) && !s.security[owner].mfaEnabled;
      LoginOpensIff(s, c, owner);
    } else if c.req.VerifyMfa? {
      VerifyMfaIff(s, c);
    } else if c.req.VerifyMfaBackupCode? {
      BackupCodeIff(s, c, "");
      var owner :| AcceptsCode(s, c, owner);
      BackupCodeIff(s, c, owner);
    } else {
      RefreshAnswers(s, c);
    }
  }
}
