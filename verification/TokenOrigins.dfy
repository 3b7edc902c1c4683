/** Where accepted tokens come from: over every run, whatever a token opens goes back to one call that
    issued it, on a signature by the device's key, and not too long ago. */
module TokenOrigins {
  import opened Results
  import opened Bytes
  import opened Api
  import opened Sessions

  datatype Issue = Issue(tokens: SessionTokens, device: Id, at: Time)

  /** The tokens that a call hands out. */
  function IssuedBy(t: Tables, c: Timed, check: SignatureCheck): Option<Issue> {
    match c.call
    case Begin(_, _, _) => None
    case Complete(id, signature, drawn) =>
      var r := CompleteChallenge(t, c.devices, id, signature, check, drawn, c.now).1;
      if r.Ok? && id in t.challenges then Some(Issue(r.value, t.challenges[id].device, c.now)) else None
    case Rotate(device, token, signature, drawn) =>
      var r := RotateRefresh(t, c.devices, device, token, signature, check, drawn, c.now).1;
      if r.Ok? then Some(Issue(r.value, device, c.now)) else None
  }

  /** The device signed for this call: the challenge, or the refresh token that it hands in. */
  ghost predicate SignedBy(t: Tables, c: Timed, device: Id, check: SignatureCheck) {
    && device in c.devices
    && match c.call
       case Begin(_, _, _) => false
       case Complete(id, signature, _) =>
         id in t.challenges && check(c.devices[device].publicKey, ChallengePayload(id, t.challenges[id].challenge),
           signature)
       case Rotate(_, token, signature, _) => check(c.devices[device].publicKey, ProofPayload(token), signature)
  }

  /** Call number `k` issued these tokens. */
  ghost predicate Origin(calls: seq<Timed>, k: nat, issue: Issue, check: SignatureCheck) {
    k < |calls| && IssuedBy(Run(EMPTY, calls[..k], check), calls[k], check) == Some(issue)
  }

  ghost predicate AccessOrigin(calls: seq<Timed>, h: Hash, row: AccessRow, check: SignatureCheck) {
    exists k: nat, issue: Issue :: Origin(calls, k, issue, check)
      && h == AccessHash(issue.tokens.access) && row == AccessRow(issue.device, issue.at + 900)
  }

  ghost predicate RefreshOrigin(calls: seq<Timed>, h: Hash, row: RefreshRow, check: SignatureCheck) {
    exists k: nat, issue: Issue :: Origin(calls, k, issue, check)
      && h == RefreshHash(issue.tokens.refresh) && row.device == issue.device && row.expiresAt == issue.at + 2592000
  }

  /** The call began this challenge, for a device that was active then. */
  predicate Begun(c: Timed, id: Id, row: ChallengeRow) {
    && c.call == Begin(row.device, id, row.challenge) && row.expiresAt == c.now + 120
    && row.device in c.devices && !c.devices[row.device].revoked
  }

  ghost predicate ChallengeOrigin(calls: seq<Timed>, id: Id, row: ChallengeRow) {
    exists k: nat :: k < |calls| && Begun(calls[k], id, row)
  }

  ghost predicate AllFrom(t: Tables, calls: seq<Timed>, check: SignatureCheck) {
    && (forall h :: h in t.access ==> AccessOrigin(calls, h, t.access[h], check))
    && (forall h :: h in t.refresh ==> RefreshOrigin(calls, h, t.refresh[h], check))
    && (forall id :: id in t.challenges ==> ChallengeOrigin(calls, id, t.challenges[id]))
  }

  /* ---------- One call ---------- */

  /** What a call can put into the tables is what it issues, or the challenge it begins. */
  ghost predicate Adds(t: Tables, u: Tables, c: Timed, issue: Option<Issue>) {
    && (forall h :: h in u.access ==> (h in t.access && u.access[h] == t.access[h]) || NewAccess(issue, h, u.access[h]))
    && (forall h :: h in u.refresh ==>
      (h in t.refresh && SameTerms(u.refresh[h], t.refresh[h])) || NewRefresh(issue, h, u.refresh[h]))
    && (forall id :: id in u.challenges ==>
      (id in t.challenges && SameChallenge(u.challenges[id], t.challenges[id])) || Begun(c, id, u.challenges[id]))
  }

  lemma CompletionAdds(t: Tables, c: Timed, check: SignatureCheck)
    requires c.call.Complete?
    ensures Adds(t, Step(t, c, check), c, IssuedBy(t, c, check))
  {
    hide ChallengePayload, RotateRefresh, BeginChallenge;
  }

  lemma RotationAdds(t: Tables, c: Timed, check: SignatureCheck)
    requires c.call.Rotate?
    ensures Adds(t, Step(t, c, check), c, IssuedBy(t, c, check))
  {
    hide ProofPayload, CompleteChallenge, BeginChallenge;
  }

  lemma StepAdds(t: Tables, c: Timed, check: SignatureCheck)
    ensures Adds(t, Step(t, c, check), c, IssuedBy(t, c, check))
  {
    hide RotateRefresh, CompleteChallenge;
    if c.call.Complete? {
      CompletionAdds(t, c, check);
    } else if c.call.Rotate? {
      RotationAdds(t, c, check);
    }
  }

  predicate NewAccess(issue: Option<Issue>, h: Hash, row: AccessRow) {
    issue.Some? && h == AccessHash(issue.value.tokens.access)
      && row == AccessRow(issue.value.device, issue.value.at + 900)
  }

  predicate NewRefresh(issue: Option<Issue>, h: Hash, row: RefreshRow) {
    && issue.Some? && h == RefreshHash(issue.value.tokens.refresh)
    && row.device == issue.value.device && row.expiresAt == issue.value.at + 2592000
  }

  predicate SameTerms(a: RefreshRow, b: RefreshRow) {
    a.device == b.device && a.expiresAt == b.expiresAt
  }

  predicate SameChallenge(a: ChallengeRow, b: ChallengeRow) {
    a.device == b.device && a.challenge == b.challenge && a.expiresAt == b.expiresAt
  }

  lemma IssueIsSigned(t: Tables, c: Timed, check: SignatureCheck)
    ensures IssuedBy(t, c, check).Some? ==>
      SignedBy(t, c, IssuedBy(t, c, check).value.device, check) && IssuedBy(t, c, check).value.at == c.now
  {
    hide ChallengePayload, ProofPayload, RevokeFamily;
  }

  /* ---------- Runs ---------- */

  lemma OriginLater(calls: seq<Timed>, n: nat, k: nat, issue: Issue, check: SignatureCheck)
    requires n <= |calls| && Origin(calls[..n], k, issue, check)
    ensures Origin(calls, k, issue, check)
  {
    assert calls[..n][..k] == calls[..k];
  }

  lemma OriginsLater(t: Tables, calls: seq<Timed>, n: nat, check: SignatureCheck)
    requires n <= |calls| && AllFrom(t, calls[..n], check)
    ensures AllFrom(t, calls, check)
  {
    hide Origin;
    forall k: nat, issue: Issue | Origin(calls[..n], k, issue, check)
      ensures Origin(calls, k, issue, check)
    {
      OriginLater(calls, n, k, issue, check);
    }
    forall id | id in t.challenges
      ensures ChallengeOrigin(calls, id, t.challenges[id])
    {
      assert ChallengeOrigin(calls[..n], id, t.challenges[id]);
      var k: nat :| k < n && Begun(calls[..n][k], id, t.challenges[id]);
      assert calls[k] == calls[..n][k];
    }
  }

  lemma StepFrom(t: Tables, calls: seq<Timed>, check: SignatureCheck)
    requires calls != [] && t == Run(EMPTY, calls[..|calls| - 1], check) && AllFrom(t, calls, check)
    ensures AllFrom(Step(t, calls[|calls| - 1], check), calls, check)
  {
    hide Step, IssuedBy;
    var n := |calls| - 1;
    var c := calls[n];
    StepAdds(t, c, check);
    if IssuedBy(t, c, check).Some? {
      assert Origin(calls, n, IssuedBy(t, c, check).value, check);
    }
  }

  /** Over every run every row has its origin. */
  lemma {:induction false} RunFrom(calls: seq<Timed>, check: SignatureCheck)
    ensures AllFrom(Run(EMPTY, calls, check), calls, check)
    decreases |calls|
  {
    hide AllFrom, Step;
    if calls == [] {
      NothingFrom(check);
    } else {
      var n := |calls| - 1;
      RunFrom(calls[..n], check);
      OriginsLater(Run(EMPTY, calls[..n], check), calls, n, check);
      StepFrom(Run(EMPTY, calls[..n], check), calls, check);
    }
  }

  lemma NothingFrom(check: SignatureCheck)
    ensures AllFrom(EMPTY, [], check)
  {
  }

  /** Call `k` issued the tokens to this device on its signature. */
  ghost predicate Granted(calls: seq<Timed>, k: nat, issue: Issue, device: Id, check: SignatureCheck) {
    && Origin(calls, k, issue, check) && issue.device == device && issue.at == calls[k].now
    && SignedBy(Run(EMPTY, calls[..k], check), calls[k], device, check)
  }

  lemma OriginGranted(calls: seq<Timed>, k: nat, issue: Issue, check: SignatureCheck)
    requires Origin(calls, k, issue, check)
    ensures Granted(calls, k, issue, issue.device, check)
  {
    hide SignedBy, IssuedBy;
    IssueIsSigned(Run(EMPTY, calls[..k], check), calls[k], check);
  }

  /** An access token opens a device's account only if some call issued it to that device, on that
      device's signature, less than 900 seconds before. */
  lemma AccessComesFromSignature(calls: seq<Timed>, devices: map<Id, Device>, token: Token, now: Time,
      check: SignatureCheck)
    ensures var r := AuthenticateAccess(Run(EMPTY, calls, check), devices, token, now);
      r.Ok? ==> r.value in devices && !devices[r.value].revoked && exists k: nat, issue: Issue ::
        Granted(calls, k, issue, r.value, check) && issue.tokens.access == token && now < issue.at + 900
  {
    var t := Run(EMPTY, calls, check);
    RunFrom(calls, check);
    hide Run, Origin, Granted;
    if AuthenticateAccess(t, devices, token, now).Ok? {
      assert AccessOrigin(calls, AccessHash(token), t.access[AccessHash(token)], check);
      var k: nat, issue: Issue :| Origin(calls, k, issue, check)
        && AccessHash(token) == AccessHash(issue.tokens.access)
          && t.access[AccessHash(token)] == AccessRow(issue.device, issue.at + 900);
      OriginGranted(calls, k, issue, check);
    }
  }

  /** A refresh token rotates only if some call issued it to that device, on that device's signature,
      less than 30 days before. */
  lemma RefreshComesFromSignature(calls: seq<Timed>, c: Timed, check: SignatureCheck)
    requires c.call.Rotate?
    ensures IssuedBy(Run(EMPTY, calls, check), c, check).Some? ==> exists k: nat, issue: Issue ::
        Granted(calls, k, issue, c.call.device, check) && issue.tokens.refresh == c.call.token
          && c.now < issue.at + 2592000
  {
    var t := Run(EMPTY, calls, check);
    RunFrom(calls, check);
    hide Run, Origin, Granted, ProofPayload, RevokeFamily;
    if IssuedBy(t, c, check).Some? {
      var h := RefreshHash(c.call.token);
      assert RefreshOrigin(calls, h, t.refresh[h], check);
      var k: nat, issue: Issue :| Origin(calls, k, issue, check)
        && h == RefreshHash(issue.tokens.refresh) && t.refresh[h].device == issue.device
          && t.refresh[h].expiresAt == issue.at + 2592000;
      OriginGranted(calls, k, issue, check);
    }
  }

  /** A challenge is completed only if some call began it for that device, then active, less than 120
      seconds before. */
  lemma CompletionFollowsChallenge(calls: seq<Timed>, c: Timed, check: SignatureCheck)
    requires c.call.Complete?
    ensures var issue := IssuedBy(Run(EMPTY, calls, check), c, check);
      issue.Some? ==> exists k: nat, row: ChallengeRow ::
        k < |calls| && Begun(calls[k], c.call.id, row) && row.device == issue.value.device
          && c.now < calls[k].now + 120
  {
    var t := Run(EMPTY, calls, check);
    RunFrom(calls, check);
    hide Run, ChallengePayload, AccessOrigin, RefreshOrigin;
    if IssuedBy(t, c, check).Some? {
      var row := t.challenges[c.call.id];
      assert ChallengeOrigin(calls, c.call.id, row);
      var k: nat :| k < |calls| && Begun(calls[k], c.call.id, row);
    }
  }
}
