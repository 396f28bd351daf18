// Sessions over whole runs: where they come from, how their refresh tokens rotate, how
// long they live, and that a removed session stays removed.
module AuthSessions {

  import opened Options
  import opened Redis
  import opened AuthModel
  import opened AuthRuns

  // ---- Time and freshness along a run ----

  lemma Ordered(r: Run, i: nat, j: nat)
    requires IsRun(r) && i < j < |r.calls|
    ensures Before(r.calls[i], r.calls[j])
  {
  }

  // The facts about one call of a run, without the bodies of the steps.
  lemma StepOf(r: Run, i: nat)
    requires IsRun(r) && i < |r.calls|
    ensures var s, c, t := r.states[i], r.calls[i], r.states[i + 1];
      && t == Step(s, c).state
      && Inv(s) && Inv(t) && NewHash(s, c)
      && AllMinted(s, r.calls[..i])
      && (MintedSession(c.req).Some? ==> MintedSession(c.req).value !in s.sessions)
      && Framed(s, c, t)
  {
    hide Step, Inv, Framed, AllMinted, NewHash, Initial;
    ReachableInv(r, i);
    ReachableInv(r, i + 1);
    MintedFresh(r, i);
    assert StepAt(r, i);
    StepFramed(r.states[i], r.calls[i]);
  }

  // ---- Birth of a session ----

  predicate SameOrigin(a: Session, b: Session) {
    a.userId == b.userId && a.createdAt == b.createdAt && a.expiresAt == b.expiresAt
  }

  lemma SessionStep(r: Run, i: nat, sid: SessionId)
    requires IsRun(r) && i < |r.calls| && sid in r.states[i + 1].sessions
    ensures sid !in r.states[i].sessions ==> SessionOpened(r.calls[i], r.states[i + 1], sid)
    ensures sid in r.states[i].sessions ==>
              && SessionKept(r.states[i], r.calls[i], r.states[i + 1], sid)
              && SameOrigin(r.states[i].sessions[sid], r.states[i + 1].sessions[sid])
  {
    hide IsRun, Step, Inv, AllMinted, NewHash, RedisFramed, AccountsFramed, NewAccounts;
    StepOf(r, i);
  }

  // Call `j` opened the session, which has been there ever since, up to state `i`.
  ghost predicate BornAt(r: Run, j: nat, i: nat, sid: SessionId)
    requires |r.states| == |r.calls| + 1
  {
    && j < i < |r.states|
    && sid !in r.states[j].sessions
    && sid in r.states[j + 1].sessions
    && SessionOpened(r.calls[j], r.states[j + 1], sid)
    && forall n :: j < n <= i ==>
         sid in r.states[n].sessions && SameOrigin(r.states[j + 1].sessions[sid], r.states[n].sessions[sid])
  }

  lemma {:induction false} SessionBirth(r: Run, i: nat, sid: SessionId) returns (j: nat)
    requires IsRun(r) && i < |r.states| && sid in r.states[i].sessions
    ensures BornAt(r, j, i, sid)
  {
    hide StepAt, Before, SessionOpened, SessionKept, Inv;
    assert i > 0;
    SessionStep(r, i - 1, sid);
    if sid !in r.states[i - 1].sessions {
      j := i - 1;
    } else {
      j := SessionBirth(r, i - 1, sid);
    }
  }

  // ---- Provenance ----

  // The right password while unlocked, for an active, verified and approved account.
  ghost predicate PassedLogin(s: State, c: Call, id: UserId) {
    RightPassword(s, c, id) && s.users[id].isVerified && s.users[id].approval.Approved?
  }

  ghost predicate DirectLogin(s: State, c: Call, sid: SessionId, id: UserId) {
    PassedLogin(s, c, id) && !s.security[id].mfaEnabled && c.req.sid == sid
  }

  // The first stage of a login with two factors, handing out `temp`.
  ghost predicate FirstFactor(s: State, c: Call, temp: Token, id: UserId) {
    PassedLogin(s, c, id) && s.security[id].mfaEnabled && c.req.mfaTemp == temp
  }

  // The second stage, spending `temp`.
  ghost predicate SecondFactor(s: State, c: Call, temp: Token, sid: SessionId, id: UserId) {
    && id in s.users && id in s.security && s.security[id].mfaEnabled
    && UserRefAt(s.redis, c.at, MfaTemp(temp)) == Some(id)
    && ( || (c.req.VerifyMfa? && s.security[id].mfaSecret.Some? && c.req.totpValid && c.req.mfaTemp == temp && c.req.sid == sid)
         || (c.req.VerifyMfaBackupCode? && AcceptsCode(s, c, id) && c.req.mfaTemp == temp && c.req.sid == sid))
  }

  lemma OpenedByLogin(s: State, c: Call, sid: SessionId)
    requires Inv(s) && c.req.Login? && sid !in s.sessions && sid in Step(s, c).state.sessions
    ensures DirectLogin(s, c, sid, Step(s, c).state.sessions[sid].userId)
  {
    hide UniqueHashes, SessionsOk, SecurityOk, UniqueEmails;
  }

  lemma OpenedByMfa(s: State, c: Call, sid: SessionId)
    requires Inv(s) && (c.req.VerifyMfa? || c.req.VerifyMfaBackupCode?)
    requires sid !in s.sessions && sid in Step(s, c).state.sessions
    ensures SecondFactor(s, c, c.req.mfaTemp, sid, Step(s, c).state.sessions[sid].userId)
    ensures MfaTemp(c.req.mfaTemp) !in Step(s, c).state.redis
  {
    hide UniqueHashes, SessionsOk, UniqueEmails;
  }

  ghost predicate HandsOut(s: State, c: Call, temp: Token, e: Entry) {
    exists id :: FirstFactor(s, c, temp, id) && e == Entry(UserRef(id), Some(c.at + 1000 * MFA_TEMP_TTL))
  }

  // A temporary token appears only through a first factor that handed it out.
  lemma MfaTempStep(s: State, c: Call, temp: Token)
    requires MfaTemp(temp) in Step(s, c).state.redis && RedisFramed(s, c, Step(s, c).state)
    ensures
      || (MfaTemp(temp) in s.redis && Step(s, c).state.redis[MfaTemp(temp)] == s.redis[MfaTemp(temp)])
      || HandsOut(s, c, temp, Step(s, c).state.redis[MfaTemp(temp)])
  {
    if MfaTemp(temp) !in TouchedKeys(c.req) {
      hide Step;
      assert SameEntry(s.redis, Step(s, c).state.redis, MfaTemp(temp));
    } else if c.req.Login? {
      hide UniqueEmails;
    }
  }

  // The first factor behind a stored temporary token, after state `a` where it was absent.
  lemma {:induction false} MfaTempOrigin(r: Run, a: nat, i: nat, temp: Token) returns (k: nat)
    requires IsRun(r) && a <= i < |r.states|
    requires MfaTemp(temp) !in r.states[a].redis && MfaTemp(temp) in r.states[i].redis
    ensures a <= k < i && HandsOut(r.states[k], r.calls[k], temp, r.states[i].redis[MfaTemp(temp)])
  {
    hide StepAt, Before, Inv, Step, HandsOut, NewHash, AllMinted, AccountsFramed, NewAccounts, SessionsFramed;
    StepOf(r, i - 1);
    MfaTempStep(r.states[i - 1], r.calls[i - 1], temp);
    if HandsOut(r.states[i - 1], r.calls[i - 1], temp, r.states[i].redis[MfaTemp(temp)]) {
      k := i - 1;
    } else {
      k := MfaTempOrigin(r, a, i - 1, temp);
    }
  }

  // How a session came about: call `j` opened it, after call `k` passed the password
  // stage; with one factor the two are the same call.
  ghost predicate ComesFrom(r: Run, k: nat, j: nat, sid: SessionId, id: UserId)
    requires |r.states| == |r.calls| + 1
  {
    && k <= j < |r.calls|
    && if k == j then DirectLogin(r.states[j], r.calls[j], sid, id)
       else exists temp ::
         && FirstFactor(r.states[k], r.calls[k], temp, id)
         && SecondFactor(r.states[j], r.calls[j], temp, sid, id)
         && r.calls[j].at < r.calls[k].at + 300000
  }

  // Every session of every reachable state comes from a login with the right password,
  // while unlocked, of an active, verified and approved account: directly if the account
  // has no second factor, else through one temporary token handed out less than 300 s
  // before the second factor.
  lemma SessionProvenance(r: Run, i: nat, sid: SessionId) returns (k: nat, j: nat)
    requires IsRun(r) && i < |r.states| && sid in r.states[i].sessions
    ensures j < i && ComesFrom(r, k, j, sid, r.states[i].sessions[sid].userId)
  {
    hide StepAt, Before, Inv, Step, NewHash, AllMinted, Framed;
    j := SessionBirth(r, i, sid);
    StepOf(r, j);
    var s, c := r.states[j], r.calls[j];
    var id := r.states[i].sessions[sid].userId;
    if c.req.Login? {
      OpenedByLogin(s, c, sid);
      k := j;
    } else {
      OpenedByMfa(s, c, sid);
      var temp := c.req.mfaTemp;
      k := MfaTempOrigin(r, 0, j, temp);
      var owner :| FirstFactor(r.states[k], r.calls[k], temp, owner)
                   && s.redis[MfaTemp(temp)] == Entry(UserRef(owner), Some(r.calls[k].at + 1000 * MFA_TEMP_TTL));
      assert owner == id;
    }
  }

  lemma SecondFactorSpends(s: State, c: Call, temp: Token, sid: SessionId, id: UserId)
    requires SecondFactor(s, c, temp, sid, id)
    ensures MfaTemp(temp) in s.redis && MfaTemp(temp) !in Step(s, c).state.redis
    ensures sid in Step(s, c).state.sessions && Step(s, c).state.sessions[sid].userId == id
  {
  }

  // A temporary token yields at most one session, over the whole run.
  lemma OneSessionPerTemp(r: Run, j: nat, j': nat, temp: Token, sid: SessionId, sid': SessionId, id: UserId, id': UserId)
    requires IsRun(r) && j < |r.calls| && j' < |r.calls|
    requires SecondFactor(r.states[j], r.calls[j], temp, sid, id)
    requires SecondFactor(r.states[j'], r.calls[j'], temp, sid', id')
    ensures j == j' && sid == sid' && id == id'
  {
    hide StepAt, Inv, Step, NewHash, AllMinted, Framed;
    if j > j' {
      OneSessionPerTemp(r, j', j, temp, sid', sid, id', id);
    } else if j < j' {
      StepOf(r, j);
      SecondFactorSpends(r.states[j], r.calls[j], temp, sid, id);
      SecondFactorSpends(r.states[j'], r.calls[j'], temp, sid', id');
      hide SecondFactor;
      var k := MfaTempOrigin(r, 0, j, temp);
      var k' := MfaTempOrigin(r, j + 1, j', temp);
      assert false;  // both calls would have minted the token
    }
  }

  // ---- Rotation ----

  ghost predicate Current(s: State, h: TokenHash) {
    exists sid :: sid in s.sessions && s.sessions[sid].tokenHash == h
  }

  // The call rotates the token `h` of session `sid` out.
  ghost predicate Rotates(s: State, c: Call, sid: SessionId, h: TokenHash) {
    && c.req.RefreshTokens?
    && HashToken(c.req.presented) == h
    && Step(s, c).reply.Tokens?
    && Step(s, c).reply.payload.sid == Some(sid)
  }

  // A refresh succeeds exactly on the current token of a session that has not expired;
  // it then rotates that session's token and reports that session.
  lemma RefreshSucceedsIff(s: State, c: Call)
    requires Inv(s) && c.req.RefreshTokens?
    ensures Step(s, c).reply.Tokens? <==>
              exists sid :: sid in s.sessions && s.sessions[sid].tokenHash == HashToken(c.req.presented)
                            && c.at <= s.sessions[sid].expiresAt
  {
    hide UniqueEmails, SecurityOk;
    if sid :| sid in s.sessions && s.sessions[sid].tokenHash == HashToken(c.req.presented) {
      assert SessionByHash(s.sessions, HashToken(c.req.presented)) == Some(sid);
    }
  }

  lemma RotationEffect(s: State, c: Call, sid: SessionId, h: TokenHash)
    requires Inv(s) && NewHash(s, c) && Rotates(s, c, sid, h)
    ensures var t := Step(s, c).state;
      && sid in s.sessions && s.sessions[sid].tokenHash == h && c.at <= s.sessions[sid].expiresAt
      && t.sessions == s.sessions[sid := t.sessions[sid]]
      && t.sessions[sid].tokenHash == HashToken(c.req.refresh)
      && !Current(t, h)
      && Grace(h) in t.redis
      && t.redis[Grace(h)] == Entry(SessionRef(sid), Some(c.at + 1000 * GRACE_TTL))
  {
    hide UniqueEmails, SecurityOk, SessionsOk;
  }

  // A refresh through a grace entry always fails: it leaves every row and the keyed store
  // as they were, except that it removes the session found if that has expired.
  lemma GraceBranch(s: State, c: Call)
    requires c.req.RefreshTokens? && !Current(s, HashToken(c.req.presented))
    ensures var o := Step(s, c);
      && o.reply.Failed?
      && o.state.users == s.users && o.state.security == s.security && o.state.redis == s.redis
      && (o.state.sessions == s.sessions
          || exists sid :: && Lookup(s, c.at, c.req.presented) == Some(sid)
                           && c.at > s.sessions[sid].expiresAt
                           && o.state.sessions == s.sessions - {sid})
  {
    var found := Lookup(s, c.at, c.req.presented);
    if found.Some? && c.at > s.sessions[found.value].expiresAt {
      assert Step(s, c).state.sessions == s.sessions - {found.value};
    }
  }

  // An attempt on an expired session, by its current token or by a grace entry, removes it.
  lemma ExpiredIsRemoved(s: State, c: Call, sid: SessionId)
    requires c.req.RefreshTokens? && Lookup(s, c.at, c.req.presented) == Some(sid) && c.at > s.sessions[sid].expiresAt
    ensures Step(s, c).reply.Failed? && Step(s, c).state.sessions == s.sessions - {sid}
  {
  }

  lemma CurrentStep(s: State, c: Call, t: State, h: TokenHash)
    requires SessionsFramed(s, c, t) && Current(t, h) && !Current(s, h)
    ensures MintedRefresh(c.req) == Some(h.of)
  {
    var sid :| sid in t.sessions && t.sessions[sid].tokenHash == h;
    if sid in s.sessions {
      assert s.sessions[sid].tokenHash != h;
    }
  }

  // A token that was minted and is no longer current never becomes current again.
  lemma {:induction false} NeverCurrentAgain(r: Run, i: nat, m: nat, h: TokenHash)
    requires IsRun(r) && i <= m < |r.states|
    requires HashMinted(r.calls[..i], h) && !Current(r.states[i], h)
    ensures !Current(r.states[m], h)
  {
    hide StepAt, Inv, Step, NewHash, AllMinted, Initial, RedisFramed, AccountsFramed, NewAccounts;
    if i < m {
      NeverCurrentAgain(r, i, m - 1, h);
      StepOf(r, m - 1);
      if Current(r.states[m], h) {
        hide SessionsFramed, Current;
        CurrentStep(r.states[m - 1], r.calls[m - 1], r.states[m], h);
        assert false;  // the token would have been minted twice
      }
    }
  }

  lemma RotatedHashMinted(r: Run, i: nat, sid: SessionId)
    requires IsRun(r) && i < |r.states| && sid in r.states[i].sessions
    ensures HashMinted(r.calls[..i], r.states[i].sessions[sid].tokenHash)
  {
    hide StepAt, Inv, HashMinted, SessionMinted, Initial;
    ReachableInv(r, i);
  }

  // The grace entry of a rotated-out token stays as the rotation wrote it.
  lemma {:induction false} GraceEntryStays(r: Run, i: nat, m: nat, sid: SessionId, h: TokenHash)
    requires IsRun(r) && i < m < |r.states| && Rotates(r.states[i], r.calls[i], sid, h)
    ensures !Current(r.states[m], h)
    ensures Grace(h) in r.states[m].redis
    ensures r.states[m].redis[Grace(h)] == Entry(SessionRef(sid), Some(r.calls[i].at + 1000 * GRACE_TTL))
  {
    hide StepAt, Inv, Step, NewHash, AllMinted, Initial, Current, AccountsFramed, NewAccounts, SessionsFramed, HashMinted, Before;
    if m == i + 1 {
      StepOf(r, i);
      RotationEffect(r.states[i], r.calls[i], sid, h);
    } else {
      GraceEntryStays(r, i, m - 1, sid, h);
      StepOf(r, m - 1);
      var s, c, t := r.states[m - 1], r.calls[m - 1], r.states[m];
      if Grace(h) in TouchedKeys(c.req) {
        GraceBranch(s, c);
      } else {
        assert SameEntry(s.redis, t.redis, Grace(h));
      }
      StepOf(r, i);
      RotationEffect(r.states[i], r.calls[i], sid, h);
      RotatedHashMinted(r, i, sid);
      HashMintedLonger(r.calls, i, i + 1, h);
      NeverCurrentAgain(r, i + 1, m, h);
    }
  }

  lemma HashMintedLonger(calls: seq<Call>, i: nat, m: nat, h: TokenHash)
    requires i <= m <= |calls| && HashMinted(calls[..i], h)
    ensures HashMinted(calls[..m], h)
  {
    var j :| 0 <= j < i && MintedRefresh(calls[..i][j].req) == Some(h.of);
    assert calls[..m][j] == calls[..i][j];
  }

  // Until 30 s after its rotation a rotated-out token looks up to its own session, if that
  // still exists; from then on, and whenever the session is gone, to nothing.
  lemma RotatedLookup(r: Run, i: nat, m: nat, sid: SessionId, token: Token, now: Millis)
    requires IsRun(r) && i < m < |r.states| && Rotates(r.states[i], r.calls[i], sid, HashToken(token))
    ensures Lookup(r.states[m], now, token)
            == if now < r.calls[i].at + 30000 && sid in r.states[m].sessions then Some(sid) else None
  {
    hide IsRun, Rotates;
    GraceEntryStays(r, i, m, sid, HashToken(token));
  }

  // ---- Revocation ----

  lemma GoneForGood(r: Run, i: nat, m: nat, sid: SessionId)
    requires IsRun(r) && i < m < |r.states|
    requires sid in r.states[i].sessions && sid !in r.states[i + 1].sessions
    ensures sid !in r.states[m].sessions
  {
    hide StepAt, Inv, Step, NewHash, AllMinted, Initial;
    if sid in r.states[m].sessions {
      var first := SessionBirth(r, i, sid);
      var again := SessionBirth(r, m, sid);
      assert false;  // the session id would have been minted twice
    }
  }

  // A token belongs to one session for as long as it is current anywhere.
  lemma {:induction false} TokenOwner(r: Run, n: nat, m: nat, sid: SessionId, sid': SessionId, h: TokenHash)
    requires IsRun(r) && n <= m < |r.states|
    requires sid in r.states[n].sessions && r.states[n].sessions[sid].tokenHash == h
    requires sid' in r.states[m].sessions && r.states[m].sessions[sid'].tokenHash == h
    ensures sid == sid'
  {
    hide StepAt, Step, NewHash, AllMinted, Initial, SecurityOk, UniqueEmails, SessionsOk;
    if n == m {
      ReachableInv(r, n);
    } else {
      if !Current(r.states[m - 1], h) {
        RotatedHashMinted(r, n, sid);
        HashMintedLonger(r.calls, n, m - 1, h);
        NeverCurrentAgain(r, m - 1, m, h);
        assert false;
      }
      var other :| other in r.states[m - 1].sessions && r.states[m - 1].sessions[other].tokenHash == h;
      TokenOwner(r, n, m - 1, sid, other, h);
      OwnerStays(r, m - 1, other, sid', h);
    }
  }

  lemma OwnerStays(r: Run, i: nat, sid: SessionId, sid': SessionId, h: TokenHash)
    requires IsRun(r) && i < |r.calls|
    requires sid in r.states[i].sessions && r.states[i].sessions[sid].tokenHash == h
    requires sid' in r.states[i + 1].sessions && r.states[i + 1].sessions[sid'].tokenHash == h
    ensures sid == sid'
  {
    hide IsRun, Step, AllMinted, SecurityOk, UniqueEmails, SessionsOk, RedisFramed;
    StepOf(r, i);
    SessionStep(r, i, sid');
  }

  // A grace entry for a token names the session that token was current for.
  lemma {:induction false} GraceOrigin(r: Run, i: nat, h: TokenHash) returns (k: nat, sid: SessionId)
    requires IsRun(r) && i < |r.states| && Grace(h) in r.states[i].redis
    ensures k < i && Rotates(r.states[k], r.calls[k], sid, h)
    ensures r.states[i].redis[Grace(h)] == Entry(SessionRef(sid), Some(r.calls[k].at + 1000 * GRACE_TTL))
  {
    hide StepAt, Before, Step, Inv, NewHash, AllMinted, AccountsFramed, NewAccounts, SessionsFramed;
    StepOf(r, i - 1);
    var s, c, t := r.states[i - 1], r.calls[i - 1], r.states[i];
    if SameEntry(s.redis, t.redis, Grace(h)) {
      k, sid := GraceOrigin(r, i - 1, h);
    } else {
      GraceWritten(s, c, h);
      k := i - 1;
      sid := Step(s, c).reply.payload.sid.value;
    }
  }

  lemma GraceWritten(s: State, c: Call, h: TokenHash)
    requires RedisFramed(s, c, Step(s, c).state) && Inv(s)
    requires Grace(h) in Step(s, c).state.redis && !SameEntry(s.redis, Step(s, c).state.redis, Grace(h))
    ensures Step(s, c).reply.Tokens? && Step(s, c).reply.payload.sid.Some?
    ensures Rotates(s, c, Step(s, c).reply.payload.sid.value, h)
    ensures Step(s, c).state.redis[Grace(h)]
            == Entry(SessionRef(Step(s, c).reply.payload.sid.value), Some(c.at + 1000 * GRACE_TTL))
  {
    assert Grace(h) in TouchedKeys(c.req);
  }

  // Once a session is gone, no refresh token it ever had leads anywhere, by any route.
  lemma DeadTokens(r: Run, i: nat, m: nat, n: nat, sid: SessionId, token: Token, now: Millis)
    requires IsRun(r) && i < m < |r.states| && n <= i
    requires sid in r.states[i].sessions && sid !in r.states[i + 1].sessions
    requires sid in r.states[n].sessions && r.states[n].sessions[sid].tokenHash == HashToken(token)
    ensures Lookup(r.states[m], now, token) == None
  {
    assert |r.states| == |r.calls| + 1;
    hide StepAt, Before, Step, Inv, NewHash, AllMinted, Framed, Initial, IsRun;
    var h := HashToken(token);
    GoneForGood(r, i, m, sid);
    var found := Lookup(r.states[m], now, token);
    if found.Some? {
      if r.states[m].sessions[found.value].tokenHash == h {
        TokenOwner(r, n, m, sid, found.value, h);
      } else {
        var k, owner := GraceOrigin(r, m, h);
        StepOf(r, k);
        RotationEffect(r.states[k], r.calls[k], owner, h);
        if k < n { TokenOwner(r, k, n, owner, sid, h); } else { TokenOwner(r, n, k, sid, owner, h); }
      }
    }
  }

  // The calls meant to end a session.
  ghost predicate EndsSession(s: State, c: Call, sid: SessionId)
    requires sid in s.sessions
  {
    match c.req
    case Logout(_, ownSid) => ownSid == Some(sid)
    case RevokeSession(userId, target) => target == sid && userId == s.sessions[sid].userId
    case RevokeAllSessions(userId) => userId == s.sessions[sid].userId
    case ResetPassword(resetToken, _) =>
      Step(s, c).reply.Done? && UserRefAt(s.redis, c.at, ResetSession(resetToken)) == Some(s.sessions[sid].userId)
    case _ => false
  }

  lemma EndsSessionRemoves(s: State, c: Call, sid: SessionId)
    requires sid in s.sessions && EndsSession(s, c, sid)
    ensures sid !in Step(s, c).state.sessions
  {
  }

  // After logout with its sid, revocation or a password reset, a session is never back,
  // no access token carrying its sid is accepted, no refresh answers with its sid, and
  // none of its refresh tokens, current or rotated out, leads to any session.
  lemma RevocationIsFinal(r: Run, i: nat, m: nat, sid: SessionId)
    requires IsRun(r) && i < m < |r.states|
    requires sid in r.states[i].sessions && EndsSession(r.states[i], r.calls[i], sid)
    ensures sid !in r.states[m].sessions
    ensures forall p: Payload :: p.sid == Some(sid) ==> Validate(r.states[m], p).Failed?
    ensures forall n, token, now ::
              0 <= n <= i && sid in r.states[n].sessions && r.states[n].sessions[sid].tokenHash == HashToken(token)
              ==> Lookup(r.states[m], now, token) == None
    ensures m < |r.calls| && r.calls[m].req.RefreshTokens? && Step(r.states[m], r.calls[m]).reply.Tokens?
            ==> Step(r.states[m], r.calls[m]).reply.payload.sid != Some(sid)
  {
    assert sid !in r.states[i + 1].sessions by {
      EndsSessionRemoves(r.states[i], r.calls[i], sid);
      assert StepAt(r, i);
    }
    hide IsRun, EndsSession, Step;
    GoneForGood(r, i, m, sid);
    forall n, token, now |
      0 <= n <= i && sid in r.states[n].sessions && r.states[n].sessions[sid].tokenHash == HashToken(token)
      ensures Lookup(r.states[m], now, token) == None
    {
      DeadTokens(r, i, m, n, sid, token, now);
    }
    if m < |r.calls| && r.calls[m].req.RefreshTokens? && Step(r.states[m], r.calls[m]).reply.Tokens? {
      RefreshAnswersLiveSession(r.states[m], r.calls[m]);
    }
  }

  lemma RefreshAnswersLiveSession(s: State, c: Call)
    requires c.req.RefreshTokens? && Step(s, c).reply.Tokens?
    ensures Step(s, c).reply.payload.sid.Some? && Step(s, c).reply.payload.sid.value in s.sessions
    ensures c.at <= s.sessions[Step(s, c).reply.payload.sid.value].expiresAt
  {
  }

  // ---- Absolute lifetime ----

  // No refresh of a session succeeds later than seven days after the session was opened,
  // however often it was refreshed in between.
  lemma AbsoluteLifetime(r: Run, m: nat) returns (j: nat)
    requires IsRun(r) && m < |r.calls| && r.calls[m].req.RefreshTokens?
    requires Step(r.states[m], r.calls[m]).reply.Tokens?
    ensures var sid := Step(r.states[m], r.calls[m]).reply.payload.sid;
      sid.Some? && BornAt(r, j, m, sid.value) && r.calls[m].at <= r.calls[j].at + SESSION_LIFETIME
  {
    RefreshAnswersLiveSession(r.states[m], r.calls[m]);
    var sid := Step(r.states[m], r.calls[m]).reply.payload.sid.value;
    hide Step, StepAt;
    j := SessionBirth(r, m, sid);
    assert SameOrigin(r.states[j + 1].sessions[sid], r.states[m].sessions[sid]);
  }
}
