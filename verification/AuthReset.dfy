// Password reset over whole runs: every reset is traced back to one verified code and
// one request for a code.
module AuthReset {

  import opened Options
  import opened Redis
  import opened AuthModel
  import opened AuthRuns
  import opened AuthSessions

  // The call issues a reset code for the address, to this account.
  ghost predicate Issues(s: State, c: Call, email: Email, id: UserId) {
    c.req.ForgotPassword? && c.req.email == email && UserByEmail(s.users, email) == Some(id)
  }

  // The call exchanges the code for the reset token.
  ghost predicate Exchanges(s: State, c: Call, email: Email, token: Token, id: UserId) {
    && c.req.VerifyForgotPasswordOtp?
    && c.req.email == email && c.req.resetToken == token
    && OtpAt(s.redis, c.at, OtpPwd(email)) == Some((c.req.otp, id))
  }

  // The call sets a new password for the account with the reset token.
  ghost predicate Resets(s: State, c: Call, token: Token, id: UserId) {
    && c.req.ResetPassword?
    && c.req.resetToken == token
    && UserRefAt(s.redis, c.at, ResetSession(token)) == Some(id)
    && Step(s, c).reply.Done?
  }

  // What a successful exchange and a successful reset do: both consume what they used.
  lemma ExchangesEffect(s: State, c: Call, email: Email, token: Token, id: UserId)
    requires Exchanges(s, c, email, token, id)
    ensures Step(s, c).reply == ResetTokenIssued(token)
    ensures OtpPwd(email) in s.redis && OtpPwd(email) !in Step(s, c).state.redis
  {
  }

  lemma ResetsEffect(s: State, c: Call, token: Token, id: UserId)
    requires Resets(s, c, token, id)
    ensures ResetSession(token) in s.redis && ResetSession(token) !in Step(s, c).state.redis
    ensures id in s.security && Step(s, c).state.security[id].passwordHash == HashPassword(c.req.password)
    ensures forall sid :: sid in Step(s, c).state.sessions <==> sid in s.sessions && s.sessions[sid].userId != id
  {
  }

  // Exactly the exchanges answer with a reset token; exactly the resets answer `Done`,
  // and that is when the token leads to an account with a security row.
  lemma ExchangesIff(s: State, c: Call)
    requires c.req.VerifyForgotPasswordOtp?
    ensures Step(s, c).reply.ResetTokenIssued? <==> exists id :: Exchanges(s, c, c.req.email, c.req.resetToken, id)
  {
    var stored := OtpAt(s.redis, c.at, OtpPwd(c.req.email));
    if stored.Some? && stored.value.0 == c.req.otp {
      assert Exchanges(s, c, c.req.email, c.req.resetToken, stored.value.1);
    }
  }

  lemma ResetsIff(s: State, c: Call)
    requires c.req.ResetPassword?
    ensures Step(s, c).reply.Done? <==>
              exists id :: UserRefAt(s.redis, c.at, ResetSession(c.req.resetToken)) == Some(id) && id in s.users && id in s.security
    ensures Step(s, c).reply.Done? <==> exists id :: Resets(s, c, c.req.resetToken, id)
  {
    var owner := UserRefAt(s.redis, c.at, ResetSession(c.req.resetToken));
    if Step(s, c).reply.Done? {
      assert Resets(s, c, c.req.resetToken, owner.value);
    }
  }

  // ---- Where reset tokens come from ----

  ghost predicate TokenWritten(s: State, c: Call, token: Token, e: Entry) {
    exists email, id :: Exchanges(s, c, email, token, id) && e == Entry(UserRef(id), Some(c.at + 900000))
  }

  lemma ResetTokenStep(s: State, c: Call, token: Token)
    requires ResetSession(token) in Step(s, c).state.redis && RedisFramed(s, c, Step(s, c).state)
    ensures
      || (ResetSession(token) in s.redis && Step(s, c).state.redis[ResetSession(token)] == s.redis[ResetSession(token)])
      || TokenWritten(s, c, token, Step(s, c).state.redis[ResetSession(token)])
  {
    if ResetSession(token) !in TouchedKeys(c.req) {
      hide Step;
      assert SameEntry(s.redis, Step(s, c).state.redis, ResetSession(token));
    } else if c.req.VerifyForgotPasswordOtp? {
      var stored := OtpAt(s.redis, c.at, OtpPwd(c.req.email));
      if stored.Some? && stored.value.0 == c.req.otp {
        assert Exchanges(s, c, c.req.email, token, stored.value.1);
      }
    }
  }

  lemma {:induction false} ResetTokenOrigin(r: Run, a: nat, i: nat, token: Token) returns (j: nat)
    requires IsRun(r) && a <= i < |r.states|
    requires ResetSession(token) !in r.states[a].redis && ResetSession(token) in r.states[i].redis
    ensures a <= j < i && TokenWritten(r.states[j], r.calls[j], token, r.states[i].redis[ResetSession(token)])
  {
    hide StepAt, Before, Inv, Step, TokenWritten, NewHash, AllMinted, AccountsFramed, NewAccounts, SessionsFramed;
    StepOf(r, i - 1);
    ResetTokenStep(r.states[i - 1], r.calls[i - 1], token);
    if TokenWritten(r.states[i - 1], r.calls[i - 1], token, r.states[i].redis[ResetSession(token)]) {
      j := i - 1;
    } else {
      j := ResetTokenOrigin(r, a, i - 1, token);
    }
  }

  // ---- Where reset codes come from ----

  ghost predicate CodeWritten(s: State, c: Call, email: Email, e: Entry) {
    exists id :: Issues(s, c, email, id) && e == Entry(OtpValue(c.req.otp, id), Some(c.at + 900000))
  }

  ghost predicate IssuesTo(s: State, c: Call, email: Email) {
    exists id :: Issues(s, c, email, id)
  }

  lemma ResetCodeStep(s: State, c: Call, email: Email)
    requires OtpPwd(email) in Step(s, c).state.redis && RedisFramed(s, c, Step(s, c).state)
    ensures if IssuesTo(s, c, email) then CodeWritten(s, c, email, Step(s, c).state.redis[OtpPwd(email)])
            else OtpPwd(email) in s.redis && Step(s, c).state.redis[OtpPwd(email)] == s.redis[OtpPwd(email)]
  {
    if OtpPwd(email) !in TouchedKeys(c.req) {
      hide Step;
      assert SameEntry(s.redis, Step(s, c).state.redis, OtpPwd(email));
    } else if c.req.ForgotPassword? {
      var id := UserByEmail(s.users, email);
      if id.Some? {
        assert Issues(s, c, email, id.value);
      }
    }
  }

  // The stored code is the one issued last for that address.
  lemma {:induction false} ResetCodeOrigin(r: Run, a: nat, i: nat, email: Email) returns (k: nat)
    requires IsRun(r) && a <= i < |r.states|
    requires OtpPwd(email) !in r.states[a].redis && OtpPwd(email) in r.states[i].redis
    ensures a <= k < i && CodeWritten(r.states[k], r.calls[k], email, r.states[i].redis[OtpPwd(email)])
    ensures forall n :: k < n < i ==> !IssuesTo(r.states[n], r.calls[n], email)
  {
    hide StepAt, Before, Inv, Step, CodeWritten, IssuesTo, NewHash, AllMinted, AccountsFramed, NewAccounts, SessionsFramed;
    StepOf(r, i - 1);
    ResetCodeStep(r.states[i - 1], r.calls[i - 1], email);
    if IssuesTo(r.states[i - 1], r.calls[i - 1], email) {
      k := i - 1;
    } else {
      k := ResetCodeOrigin(r, a, i - 1, email);
    }
  }

  // ---- The correspondence ----

  // Call i resets the account's password with the token that call j handed out less than
  // 15 minutes before.
  ghost predicate Grants(r: Run, j: nat, i: nat, email: Email, id: UserId)
    requires |r.states| == |r.calls| + 1
  {
    && j < i < |r.calls|
    && r.calls[i].req.ResetPassword?
    && Resets(r.states[i], r.calls[i], r.calls[i].req.resetToken, id)
    && Exchanges(r.states[j], r.calls[j], email, r.calls[i].req.resetToken, id)
    && r.calls[i].at < r.calls[j].at + 15 * MINUTE
  }

  // Call j exchanges the code that call k issued for the account less than 15 minutes
  // before, the latest one issued for that address.
  ghost predicate Backs(r: Run, k: nat, j: nat, email: Email, id: UserId)
    requires |r.states| == |r.calls| + 1
  {
    && k < j < |r.calls|
    && r.calls[j].req.VerifyForgotPasswordOtp?
    && Exchanges(r.states[j], r.calls[j], email, r.calls[j].req.resetToken, id)
    && Issues(r.states[k], r.calls[k], email, id)
    && r.calls[k].req.otp == r.calls[j].req.otp
    && r.calls[j].at < r.calls[k].at + 15 * MINUTE
    && (forall n :: k < n < j ==> !IssuesTo(r.states[n], r.calls[n], email))
  }

  // Every successful reset rests on an exchange and on a request for a code, both for the
  // same account, each less than 15 minutes before the next stage.
  lemma ResetCorrespondence(r: Run, i: nat, id: UserId) returns (k: nat, j: nat, email: Email)
    requires IsRun(r) && i < |r.calls| && r.calls[i].req.ResetPassword?
    requires Resets(r.states[i], r.calls[i], r.calls[i].req.resetToken, id)
    ensures Grants(r, j, i, email, id) && Backs(r, k, j, email, id)
  {
    var token := r.calls[i].req.resetToken;
    ResetsEffect(r.states[i], r.calls[i], token, id);
    hide StepAt, Before, Step, Inv;
    j := ResetTokenOrigin(r, 0, i, token);
    var address, owner :| Exchanges(r.states[j], r.calls[j], address, token, owner)
                          && r.states[i].redis[ResetSession(token)] == Entry(UserRef(owner), Some(r.calls[j].at + 900000));
    email := address;
    k := ResetCodeOrigin(r, 0, j, email);
  }

  // No two resets use the same exchange.
  lemma OneResetPerExchange(r: Run, j: nat, i: nat, i': nat, email: Email, id: UserId, email': Email, id': UserId)
    requires IsRun(r) && Grants(r, j, i, email, id) && Grants(r, j, i', email', id')
    ensures i == i'
  {
    hide StepAt, Inv, Step, NewHash, AllMinted, Framed;
    if i > i' {
      OneResetPerExchange(r, j, i', i, email', id', email, id);
    } else if i < i' {
      var token := r.calls[i].req.resetToken;
      StepOf(r, i);
      ResetsEffect(r.states[i], r.calls[i], token, id);
      ResetsEffect(r.states[i'], r.calls[i'], token, id');
      var j' := ResetTokenOrigin(r, i + 1, i', token);
      assert false;  // the token would have been handed out twice
    }
  }

  // No two exchanges use the same request for a code.
  lemma OneExchangePerRequest(r: Run, k: nat, j: nat, j': nat, email: Email, id: UserId, email': Email, id': UserId)
    requires IsRun(r) && Backs(r, k, j, email, id) && Backs(r, k, j', email', id')
    ensures j == j'
  {
    hide StepAt, Before, Inv, Step, NewHash, AllMinted, Framed;
    if j > j' {
      OneExchangePerRequest(r, k, j', j, email', id', email, id);
    } else if j < j' {
      StepOf(r, j);
      ExchangesEffect(r.states[j], r.calls[j], email, r.calls[j].req.resetToken, id);
      ExchangesEffect(r.states[j'], r.calls[j'], email, r.calls[j'].req.resetToken, id');
      var k' := ResetCodeOrigin(r, j + 1, j', email);
      assert false;  // a later request would have issued the code
    }
  }
}
