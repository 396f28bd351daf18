// Rate limits over whole runs: how many wrong passwords are compared, and how often a
// verification code is resent.
module AuthLimits {

  import opened Options
  import opened Redis
  import opened AuthModel
  import opened AuthRuns
  import opened AuthSessions

  // ---- Login lockout ----

  // In every reachable state an account is locked, or was, exactly when it has five
  // failed attempts on record.
  lemma LockMatchesCounter(r: Run, i: nat, id: UserId)
    requires IsRun(r) && i < |r.states| && id in r.states[i].security
    ensures r.states[i].security[id].lockedUntil.Some? <==> r.states[i].security[id].loginAttempts >= 5
  {
    hide StepAt, UniqueEmails, UniqueHashes, SessionsOk, AllMinted;
    ReachableInv(r, i);
    assert SecurityOk(r.states[i].security[id]);
  }

  // Wrong passwords compared for the account in calls a, a+1, ..., b-1.
  ghost function WrongCount(r: Run, id: UserId, a: nat, b: nat): nat
    requires |r.states| == |r.calls| + 1 && a <= b <= |r.calls|
    decreases b
  {
    if a == b then 0
    else WrongCount(r, id, a, b - 1) + if WrongPassword(r.states[b - 1], r.calls[b - 1], id) then 1 else 0
  }

  ghost predicate NoRightPassword(r: Run, id: UserId, a: nat, b: nat)
    requires |r.states| == |r.calls| + 1 && a <= b <= |r.calls|
  {
    forall i :: a <= i < b ==> !RightPassword(r.states[i], r.calls[i], id)
  }

  lemma LockStep(r: Run, i: nat, id: UserId)
    requires IsRun(r) && i < |r.calls| && id in r.states[i].security
    requires !RightPassword(r.states[i], r.calls[i], id)
    ensures id in r.states[i + 1].security
    ensures SameLock(r.states[i + 1].security[id],
                     if WrongPassword(r.states[i], r.calls[i], id)
                     then AfterWrongPassword(r.states[i].security[id], r.calls[i].at) else r.states[i].security[id])
  {
    assert StepAt(r, i);
    hide StepAt, Step, MfaFramed, RedisFramed, NewAccounts, SessionsFramed, AllMinted, NewHash, UniqueEmails, UniqueHashes, SessionsOk;
    hide WrongPassword, RightPassword;
    StepOf(r, i);
    StepSecurityFramed(r.states[i], r.calls[i]);
  }

  // From an account's row at state b one can read off how long the wrong passwords since
  // call a must have taken.
  lemma {:induction false} LockPotential(r: Run, id: UserId, a: nat, b: nat)
    requires IsRun(r) && a < b <= |r.calls| && NoRightPassword(r, id, a, b)
    ensures var w := WrongCount(r, id, a, b);
      && (id !in r.states[b].security ==> w == 0)
      && (id in r.states[b].security ==>
            var sec := r.states[b].security[id];
            && sec.loginAttempts >= w
            && (w >= 5 ==> sec.lockedUntil.Some? && sec.lockedUntil.value >= r.calls[a].at + LOCK_DURATION * (w - 4)))
      && (w >= 6 ==> r.calls[b - 1].at >= r.calls[a].at + LOCK_DURATION * (w - 5))
  {
    hide StepAt, Step, Inv, RightPassword, WrongPassword, Framed, AllMinted, NewHash, Initial;
    var i := b - 1;
    if a < i {
      LockPotential(r, id, a, i);
      Ordered(r, a, i);
      Ordered(r, i - 1, i);
    }
    if id in r.states[i].security {
      LockStep(r, i, id);
      if WrongPassword(r.states[i], r.calls[i], id) {
        WrongMeansUnlocked(r.states[i], r.calls[i], id);
      }
    } else {
      NotYetCompared(r.states[i], r.calls[i], id);
    }
  }

  lemma WrongMeansUnlocked(s: State, c: Call, id: UserId)
    requires WrongPassword(s, c, id)
    ensures id in s.security && !Locked(s.security[id], c.at)
  {
  }

  lemma NotYetCompared(s: State, c: Call, id: UserId)
    requires id !in s.security
    ensures !WrongPassword(s, c, id)
  {
  }

  // In any window of T minutes without a right password, at most 5 + T/30 wrong
  // passwords reach the comparison.
  lemma LockoutThroughput(r: Run, id: UserId, a: nat, b: nat, T: nat)
    requires IsRun(r) && a < b <= |r.calls| && NoRightPassword(r, id, a, b)
    requires r.calls[b - 1].at <= r.calls[a].at + T * MINUTE
    ensures WrongCount(r, id, a, b) <= 5 + T / 30
  {
    hide StepAt, Before, Initial, NoRightPassword, WrongCount;
    LockPotential(r, id, a, b);
    var w := WrongCount(r, id, a, b);
    if w >= 6 {
      assert T * MINUTE >= 30 * MINUTE * (w - 5);
      assert T >= 30 * (w - 5);
    }
  }

  // ---- Resending the verification code ----

  ghost predicate Resends(s: State, c: Call, email: Email) {
    c.req.ResendOtp? && c.req.email == email && Step(s, c).reply.Done?
  }

  // Successful resends for the address in calls a, a+1, ..., b-1.
  ghost function ResendCount(r: Run, email: Email, a: nat, b: nat): nat
    requires |r.states| == |r.calls| + 1 && a <= b <= |r.calls|
    decreases b
  {
    if a == b then 0
    else ResendCount(r, email, a, b - 1) + if Resends(r.states[b - 1], r.calls[b - 1], email) then 1 else 0
  }

  // The counter stored for the address is at least n and lasts until `until` at least.
  predicate Counted(store: Store, email: Email, n: nat, until: Millis) {
    && OtpResend(email) in store
    && store[OtpResend(email)].value.CountValue?
    && store[OtpResend(email)].value.count >= n
    && store[OtpResend(email)].expiresAt.Some?
    && store[OtpResend(email)].expiresAt.value >= until
  }

  lemma ResendStep(s: State, c: Call, email: Email, n: nat, until: Millis)
    requires Resends(s, c, email) && (n > 0 ==> Counted(s.redis, email, n, until))
    requires c.at < until <= c.at + 30 * MINUTE
    ensures n < 3 && Counted(Step(s, c).state.redis, email, n + 1, until)
  {
  }

  lemma NoResendStep(s: State, c: Call, email: Email)
    requires RedisFramed(s, c, Step(s, c).state) && !Resends(s, c, email)
    ensures SameEntry(s.redis, Step(s, c).state.redis, OtpResend(email))
  {
    if OtpResend(email) !in TouchedKeys(c.req) {
      hide Step;
    }
  }

  lemma {:induction false} ResendPotential(r: Run, email: Email, a: nat, b: nat)
    requires IsRun(r) && a < b <= |r.calls| && r.calls[b - 1].at < r.calls[a].at + 30 * MINUTE
    ensures var n := ResendCount(r, email, a, b);
      n <= 3 && (n > 0 ==> Counted(r.states[b].redis, email, n, r.calls[a].at + 30 * MINUTE))
  {
    hide StepAt, Step, Inv, Resends, AccountsFramed, NewAccounts, SessionsFramed, AllMinted, NewHash, Initial;
    var i := b - 1;
    var until := r.calls[a].at + 30 * MINUTE;
    if a < i {
      Ordered(r, i - 1, i);
      Ordered(r, a, i);
      ResendPotential(r, email, a, i);
    }
    StepOf(r, i);
    if Resends(r.states[i], r.calls[i], email) {
      ResendStep(r.states[i], r.calls[i], email, ResendCount(r, email, a, i), until);
    } else {
      NoResendStep(r.states[i], r.calls[i], email);
    }
  }

  // Every window of less than 30 minutes holds at most 3 successful resends.
  lemma ResendWindow(r: Run, email: Email, a: nat, b: nat)
    requires IsRun(r) && a < b <= |r.calls| && r.calls[b - 1].at < r.calls[a].at + 30 * MINUTE
    ensures ResendCount(r, email, a, b) <= 3
  {
    hide StepAt, Before, Initial;
    ResendPotential(r, email, a, b);
  }

  lemma {:induction false} CountTo(r: Run, email: Email, a: nat, i: nat, b: nat)
    requires |r.states| == |r.calls| + 1 && a <= i < b <= |r.calls|
    requires Resends(r.states[i], r.calls[i], email)
    ensures ResendCount(r, email, a, b) >= ResendCount(r, email, a, i) + 1
    decreases b
  {
    hide Resends;
    if i < b - 1 {
      CountTo(r, email, a, i, b - 1);
    }
  }

  // Any four successful resends for one address span at least 30 minutes.
  lemma FourResendsSpan(r: Run, email: Email, i1: nat, i2: nat, i3: nat, i4: nat)
    requires IsRun(r) && i1 < i2 < i3 < i4 < |r.calls|
    requires Resends(r.states[i1], r.calls[i1], email) && Resends(r.states[i2], r.calls[i2], email)
    requires Resends(r.states[i3], r.calls[i3], email) && Resends(r.states[i4], r.calls[i4], email)
    ensures r.calls[i4].at >= r.calls[i1].at + 30 * MINUTE
  {
    hide Resends, StepAt, Before;
    CountTo(r, email, i1, i1, i2);
    CountTo(r, email, i1, i2, i3);
    CountTo(r, email, i1, i3, i4);
    CountTo(r, email, i1, i4, i4 + 1);
    if r.calls[i4].at < r.calls[i1].at + 30 * MINUTE {
      ResendWindow(r, email, i1, i4 + 1);
    }
  }
}
