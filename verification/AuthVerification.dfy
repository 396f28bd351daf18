// E-mail verification over whole runs: a verified address is traced back to the code last
// sent to it, or to the master code outside production.
module AuthVerification {

  import opened Options
  import opened Redis
  import opened AuthModel
  import opened AuthRuns
  import opened AuthSessions

  predicate Verified(s: State, id: UserId) {
    id in s.users && s.users[id].isVerified
  }

  predicate Master(c: Call) {
    c.req.VerifyEmailOtp? && !c.req.production && c.req.otp == MASTER_OTP
  }

  // The call makes a code for the address and sends it.
  ghost predicate Sends(s: State, c: Call, email: Email) {
    || (c.req.Register? && c.req.email == email && Step(s, c).reply.Done?)
    || (c.req.ResendOtp? && c.req.email == email && Step(s, c).reply.Done?)
    || (c.req.Login? && c.req.email == email && Step(s, c).reply.EmailVerificationRequired?)
  }

  ghost predicate SentTo(s: State, c: Call, email: Email, e: Entry) {
    && (c.req.Register? || c.req.ResendOtp? || c.req.Login?)
    && exists id ::
         && UserByEmail(Step(s, c).state.users, email) == Some(id)
         && e == Entry(OtpValue(c.req.otp, id), Some(c.at + 600000))
  }

  // ---- What one call does to the flag ----

  lemma VerifyFlag(s: State, c: Call, id: UserId)
    requires c.req.VerifyEmailOtp? && Verified(Step(s, c).state, id) && !Verified(s, id)
    ensures id in s.users
    ensures var stored := OtpAt(s.redis, c.at, OtpVerify(c.req.email));
      if stored.Some? then stored.value.1 == id && (Master(c) || stored.value.0 == c.req.otp)
      else Master(c) && UserByEmail(s.users, c.req.email) == Some(id)
  {
  }

  lemma LoginFlag(s: State, c: Call, id: UserId)
    requires c.req.Login? && Verified(Step(s, c).state, id)
    ensures Verified(s, id)
  {
  }

  lemma OtherFlag(s: State, c: Call, id: UserId)
    requires !c.req.Login? && !c.req.VerifyEmailOtp? && Verified(Step(s, c).state, id)
    ensures Verified(s, id)
  {
    hide LoginStep, VerifyEmailOtpStep;
  }

  lemma OnlyVerifyingSets(s: State, c: Call, id: UserId)
    requires Verified(Step(s, c).state, id) && !Verified(s, id)
    ensures c.req.VerifyEmailOtp?
  {
    hide Step, Verified;
    if c.req.Login? {
      LoginFlag(s, c, id);
    } else if !c.req.VerifyEmailOtp? {
      OtherFlag(s, c, id);
    }
  }

  // The call that verified an account which was not verified at first.
  lemma {:induction false} VerifyingCall(r: Run, i: nat, id: UserId) returns (j: nat)
    requires IsRun(r) && i < |r.states| && Verified(r.states[i], id) && !Verified(r.states[0], id)
    ensures j < i && r.calls[j].req.VerifyEmailOtp?
    ensures Verified(r.states[j + 1], id) && !Verified(r.states[j], id) && r.states[j + 1] == Step(r.states[j], r.calls[j]).state
  {
    assert |r.states| == |r.calls| + 1 && i > 0;
    hide IsRun, Step, Verified, Inv, Framed, NewHash, AllMinted;
    if Verified(r.states[i - 1], id) {
      j := VerifyingCall(r, i - 1, id);
    } else {
      j := i - 1;
      StepOf(r, j);
      OnlyVerifyingSets(r.states[j], r.calls[j], id);
    }
  }

  // ---- Where codes come from ----

  lemma CodeSent(s: State, c: Call, email: Email)
    requires Sends(s, c, email)
    ensures OtpVerify(email) in Step(s, c).state.redis
    ensures SentTo(s, c, email, Step(s, c).state.redis[OtpVerify(email)])
  {
    hide UniqueEmails;
    var t := Step(s, c).state;
    if c.req.Register? {
      assert c.req.userId in t.users && t.users[c.req.userId].email == email;
    }
    assert UserByEmail(t.users, email).Some?;
    SentEntry(s, c, email);
  }

  lemma SentEntry(s: State, c: Call, email: Email)
    requires Sends(s, c, email) && UserByEmail(Step(s, c).state.users, email).Some?
    ensures OtpVerify(email) in Step(s, c).state.redis
    ensures Step(s, c).state.redis[OtpVerify(email)]
            == Entry(OtpValue(c.req.otp, UserByEmail(Step(s, c).state.users, email).value), Some(c.at + 600000))
  {
  }

  lemma CodeKept(s: State, c: Call, email: Email)
    requires !Sends(s, c, email) && OtpVerify(email) in Step(s, c).state.redis && RedisFramed(s, c, Step(s, c).state)
    ensures OtpVerify(email) in s.redis && Step(s, c).state.redis[OtpVerify(email)] == s.redis[OtpVerify(email)]
  {
    if OtpVerify(email) !in TouchedKeys(c.req) {
      hide Step;
      assert SameEntry(s.redis, Step(s, c).state.redis, OtpVerify(email));
    }
  }

  // A stored code is the one sent last to that address.
  lemma {:induction false} CodeOrigin(r: Run, i: nat, email: Email) returns (k: nat)
    requires IsRun(r) && i < |r.states| && OtpVerify(email) in r.states[i].redis
    ensures k < i && Sends(r.states[k], r.calls[k], email)
    ensures SentTo(r.states[k], r.calls[k], email, r.states[i].redis[OtpVerify(email)])
    ensures forall n :: k < n < i ==> !Sends(r.states[n], r.calls[n], email)
  {
    hide StepAt, Before, Inv, Step, Sends, SentTo, NewHash, AllMinted, AccountsFramed, NewAccounts, SessionsFramed;
    StepOf(r, i - 1);
    if Sends(r.states[i - 1], r.calls[i - 1], email) {
      CodeSent(r.states[i - 1], r.calls[i - 1], email);
      k := i - 1;
    } else {
      CodeKept(r.states[i - 1], r.calls[i - 1], email);
      k := CodeOrigin(r, i - 1, email);
    }
  }

  lemma {:induction false} AddressStays(r: Run, a: nat, i: nat, id: UserId)
    requires IsRun(r) && a <= i < |r.states| && id in r.states[a].users
    ensures id in r.states[i].users && r.states[i].users[id].email == r.states[a].users[id].email
  {
    hide StepAt, Before, Inv, Step, NewHash, AllMinted, RedisFramed, NewAccounts, SessionsFramed, Initial;
    if a < i {
      AddressStays(r, a, i - 1, id);
      StepOf(r, i - 1);
    }
  }

  // ---- The correspondence ----

  // Call j presents the code that call k sent to the address less than ten minutes
  // before, the latest one sent to it.
  ghost predicate Presents(r: Run, k: nat, j: nat, email: Email)
    requires |r.states| == |r.calls| + 1
  {
    && k < j < |r.calls|
    && r.calls[j].req.VerifyEmailOtp?
    && (r.calls[k].req.Register? || r.calls[k].req.ResendOtp? || r.calls[k].req.Login?)
    && Sends(r.states[k], r.calls[k], email)
    && r.calls[k].req.otp == r.calls[j].req.otp
    && r.calls[j].at < r.calls[k].at + 10 * MINUTE
    && (forall n :: k < n < j ==> !Sends(r.states[n], r.calls[n], email))
  }

  lemma OtpHolder(r: Run, j: nat, email: Email, otp: Otp, id: UserId) returns (k: nat)
    requires IsRun(r) && j < |r.calls| && OtpAt(r.states[j].redis, r.calls[j].at, OtpVerify(email)) == Some((otp, id))
    ensures id in r.states[j].users && r.states[j].users[id].email == email
    ensures r.calls[j].req.VerifyEmailOtp? && r.calls[j].req.otp == otp ==> Presents(r, k, j, email)
  {
    hide StepAt, Before, Initial, Step, Sends;
    k := CodeOrigin(r, j, email);
    var e := r.states[j].redis[OtpVerify(email)];
    assert UserByEmail(Step(r.states[k], r.calls[k]).state.users, email) == Some(id);
    assert r.states[k + 1] == Step(r.states[k], r.calls[k]).state by { StepOf(r, k); }
    AddressStays(r, k + 1, j, id);
  }

  // An account that was not verified at first and is now was verified by a call naming its
  // own address, which presented the code last sent there within ten minutes, or the
  // master code outside production.
  lemma VerificationProvenance(r: Run, i: nat, id: UserId) returns (k: nat, j: nat)
    requires IsRun(r) && i < |r.states| && Verified(r.states[i], id) && !Verified(r.states[0], id)
    ensures j < i && r.calls[j].req.VerifyEmailOtp?
    ensures id in r.states[j].users && r.states[j].users[id].email == r.calls[j].req.email
    ensures Master(r.calls[j]) || Presents(r, k, j, r.calls[j].req.email)
  {
    j := VerifyingCall(r, i, id);
    k := 0;
    var s, c := r.states[j], r.calls[j];
    VerifyFlag(s, c, id);
    hide Step, IsRun, Presents, Verified;
    var stored := OtpAt(s.redis, c.at, OtpVerify(c.req.email));
    if stored.Some? {
      k := OtpHolder(r, j, c.req.email, stored.value.0, id);
    }
  }
}
