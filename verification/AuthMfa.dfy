// Backup codes over whole runs.
module AuthMfa {

  import opened Options
  import opened Redis
  import opened AuthModel
  import opened AuthRuns
  import opened AuthSessions

  // In every reachable state an account without second factor has no secret and no codes.
  lemma NoFactorNoCodes(r: Run, i: nat, id: UserId)
    requires IsRun(r) && i < |r.states| && id in r.states[i].security
    ensures var sec := r.states[i].security[id];
      !sec.mfaEnabled ==> sec.mfaSecret == None && sec.backupCodes == []
  {
    hide StepAt, UniqueEmails, UniqueHashes, SessionsOk, AllMinted;
    ReachableInv(r, i);
    assert SecurityOk(r.states[i].security[id]);
  }

  // A backup-code login answers with tokens exactly when it accepts a code of the account
  // behind the temporary token.
  lemma AcceptsCodeIff(s: State, c: Call)
    requires c.req.VerifyMfaBackupCode?
    ensures Step(s, c).reply.Tokens? <==> exists id :: AcceptsCode(s, c, id)
  {
    var owner := UserRefAt(s.redis, c.at, MfaTemp(c.req.mfaTemp));
    if Step(s, c).reply.Tokens? {
      assert AcceptsCode(s, c, owner.value);
    }
  }

  lemma RemoveAtMultiset(codes: seq<TokenHash>, i: nat)
    requires i < |codes|
    ensures multiset(codes) == multiset(RemoveAt(codes, i)) + multiset{codes[i]}
  {
    assert codes == codes[..i] + [codes[i]] + codes[i + 1..];
  }

  // The codes accepted for the account in calls a, a+1, ..., b-1.
  ghost function Accepted(r: Run, id: UserId, a: nat, b: nat): multiset<TokenHash>
    requires |r.states| == |r.calls| + 1 && a <= b <= |r.calls|
    decreases b
  {
    if a == b then multiset{}
    else
      Accepted(r, id, a, b - 1)
      + if AcceptsCode(r.states[b - 1], r.calls[b - 1], id) then multiset{HashToken(r.calls[b - 1].req.code)} else multiset{}
  }

  // No call from a up to b enables, regenerates or disables for the account.
  ghost predicate Untouched(r: Run, id: UserId, a: nat, b: nat)
    requires |r.states| == |r.calls| + 1 && a <= b <= |r.calls|
  {
    forall n :: a <= n < b ==>
      !SetsCodes(r.states[n], r.calls[n], id) && !TurnsMfaOff(r.states[n], r.calls[n], id)
  }

  lemma MfaStep(r: Run, i: nat, id: UserId)
    requires IsRun(r) && i < |r.calls| && id in r.states[i].security
    ensures id in r.states[i + 1].security && MfaMoved(r.states[i], r.calls[i], r.states[i + 1], id)
    ensures AcceptsCode(r.states[i], r.calls[i], id) ==> r.states[i].security[id].mfaEnabled
  {
    assert StepAt(r, i);
    hide StepAt, Step, LockFramed, MfaMoved, RedisFramed, NewAccounts, SessionsFramed, AllMinted, NewHash;
    hide UniqueEmails, UniqueHashes, SessionsOk, SetsCodes;
    StepOf(r, i);
    StepSecurityFramed(r.states[i], r.calls[i]);
    assert SecurityOk(r.states[i].security[id]);
  }

  lemma CodesSet(s: State, c: Call, id: UserId)
    requires SetsCodes(s, c, id)
    ensures id in s.security && !AcceptsCode(s, c, id)
  {
  }

  lemma CodesSetStep(r: Run, a: nat, id: UserId)
    requires IsRun(r) && a < |r.calls| && SetsCodes(r.states[a], r.calls[a], id)
    ensures (r.calls[a].req.EnableMfa? || r.calls[a].req.RegenerateBackupCodes?) && |r.calls[a].req.codes| == 10
    ensures id in r.states[a + 1].security && r.states[a + 1].security[id].mfaEnabled
    ensures r.states[a + 1].security[id].backupCodes == HashAll(r.calls[a].req.codes)
  {
    assert StepAt(r, a);
    CodesSet(r.states[a], r.calls[a], id);
    hide IsRun, Step;
    MfaStep(r, a, id);
  }

  lemma ConservationStep(r: Run, id: UserId, i: nat, all: multiset<TokenHash>, spent: multiset<TokenHash>)
    requires IsRun(r) && i < |r.calls| && id in r.states[i].security && r.states[i].security[id].mfaEnabled
    requires !SetsCodes(r.states[i], r.calls[i], id) && !TurnsMfaOff(r.states[i], r.calls[i], id)
    requires multiset(r.states[i].security[id].backupCodes) + spent == all
    ensures id in r.states[i + 1].security && r.states[i + 1].security[id].mfaEnabled
    ensures multiset(r.states[i + 1].security[id].backupCodes)
            + (spent + if AcceptsCode(r.states[i], r.calls[i], id) then multiset{HashToken(r.calls[i].req.code)} else multiset{})
            == all
  {
    assert |r.states| == |r.calls| + 1;
    hide IsRun, Step, SetsCodes, TurnsMfaOff;
    MfaStep(r, i, id);
    if AcceptsCode(r.states[i], r.calls[i], id) {
      var before := r.states[i].security[id].backupCodes;
      RemoveAtMultiset(before, IndexOf(before, HashToken(r.calls[i].req.code)));
    }
  }

  lemma {:induction false} CodesAddUp(r: Run, id: UserId, a: nat, b: nat, all: multiset<TokenHash>)
    requires IsRun(r) && a < b <= |r.calls| && Untouched(r, id, a + 1, b)
    requires id in r.states[a + 1].security && r.states[a + 1].security[id].mfaEnabled
    requires multiset(r.states[a + 1].security[id].backupCodes) == all
    ensures id in r.states[b].security && r.states[b].security[id].mfaEnabled
    ensures multiset(r.states[b].security[id].backupCodes) + Accepted(r, id, a + 1, b) == all
  {
    hide StepAt, Step, Inv, SetsCodes, TurnsMfaOff, AcceptsCode, Before, Initial;
    if a + 1 < b {
      CodesAddUp(r, id, a, b - 1, all);
      ConservationStep(r, id, b - 1, all, Accepted(r, id, a + 1, b - 1));
    }
  }

  // Since the codes were last set, the codes accepted and the codes remaining make up the
  // ten codes handed out, none more and none less; and the second factor stays on.
  lemma BackupCodeConservation(r: Run, id: UserId, a: nat, b: nat)
    requires IsRun(r) && a < b <= |r.calls|
    requires SetsCodes(r.states[a], r.calls[a], id) && Untouched(r, id, a + 1, b)
    ensures id in r.states[b].security && r.states[b].security[id].mfaEnabled
    ensures multiset(r.states[b].security[id].backupCodes) + Accepted(r, id, a + 1, b)
            == multiset(HashAll(r.calls[a].req.codes))
    ensures |r.states[b].security[id].backupCodes| + |Accepted(r, id, a + 1, b)| == 10
  {
    CodesSetStep(r, a, id);
    var all := multiset(HashAll(r.calls[a].req.codes));
    hide StepAt, Step, SetsCodes, Untouched, Accepted, Before, Initial;
    CodesAddUp(r, id, a, b, all);
    assert |multiset(r.states[b].security[id].backupCodes) + Accepted(r, id, a + 1, b)| == |all| == 10;
  }

  // An accepted code was one of the account's codes, the second factor was on, and
  // exactly one occurrence of the code is gone afterwards.
  lemma AcceptanceUsesOneCode(r: Run, i: nat, id: UserId)
    requires IsRun(r) && i < |r.calls| && AcceptsCode(r.states[i], r.calls[i], id)
    ensures r.states[i].security[id].mfaEnabled && id in r.states[i + 1].security
    ensures multiset(r.states[i].security[id].backupCodes)
            == multiset(r.states[i + 1].security[id].backupCodes) + multiset{HashToken(r.calls[i].req.code)}
  {
    assert |r.states| == |r.calls| + 1;
    hide IsRun, Step;
    MfaStep(r, i, id);
    var before := r.states[i].security[id].backupCodes;
    RemoveAtMultiset(before, IndexOf(before, HashToken(r.calls[i].req.code)));
  }
}
