/** What a token is good for, from the call that issued it on: over every continuation, exactly when an
    access token opens its account, a challenge can be completed and a refresh token can be rotated. */
module TokenUse {
  import opened Results
  import opened Bytes
  import opened Api
  import opened Sessions

  function Completion(t: Tables, c: Timed, check: SignatureCheck): Result<SessionTokens, ApiError>
    requires c.call.Complete?
  {
    CompleteChallenge(t, c.devices, c.call.id, c.call.signature, check, c.call.drawn, c.now).1
  }

  function Rotation(t: Tables, c: Timed, check: SignatureCheck): Result<SessionTokens, ApiError>
    requires c.call.Rotate?
  {
    RotateRefresh(t, c.devices, c.call.device, c.call.token, c.call.signature, check, c.call.drawn, c.now).1
  }

  /* ---------- Challenges ---------- */

  /** A challenge is begun for an active device, under an id and a value that are not in use. */
  lemma BeginAnswers(t: Tables, devices: map<Id, Device>, device: Id, id: Id, challenge: Bytes32, now: Time)
    ensures BeginChallenge(t, devices, device, id, challenge, now).1 ==
      if device !in devices || devices[device].revoked then Err(InvalidCredentials)
      else if id in t.challenges then Err(Database)
      else if exists c :: c in t.challenges && t.challenges[c].challenge == challenge then Err(Database)
      else Ok(())
  {
  }

  /** A challenge was completed during these calls. */
  predicate Completed(t: Tables, calls: seq<Timed>, id: Id, check: SignatureCheck)
    decreases |calls|
  {
    if calls == [] then false else
    var before, c := calls[..|calls| - 1], calls[|calls| - 1];
    || Completed(t, before, id, check)
    || (c.call.Complete? && c.call.id == id && Completion(Run(t, before, check), c, check).Ok?)
  }

  lemma StepChallenge(t: Tables, c: Timed, id: Id, check: SignatureCheck)
    requires id in t.challenges
    ensures var u := Step(t, c, check);
      id in u.challenges && u.challenges[id] == t.challenges[id].(consumed := t.challenges[id].consumed ||
        (c.call.Complete? && c.call.id == id && Completion(t, c, check).Ok?))
  {
    hide ChallengePayload, ProofPayload, RevokeFamily;
  }

  lemma {:induction false} RunChallenge(t: Tables, calls: seq<Timed>, id: Id, check: SignatureCheck)
    requires id in t.challenges
    ensures var u := Run(t, calls, check);
      && id in u.challenges
      && u.challenges[id] == t.challenges[id].(consumed := t.challenges[id].consumed || Completed(t, calls, id, check))
    decreases |calls|
  {
    hide Step, Completion;
    if calls != [] {
      var n := |calls| - 1;
      RunChallenge(t, calls[..n], id, check);
      StepChallenge(Run(t, calls[..n], check), calls[n], id, check);
    }
  }

  /** From its beginning on, a challenge can be completed until it is, for 120 seconds, on a signature by the
      device's key over a domain, the id and the value, if the tokens drawn are not in use. */
  lemma CompletionAnswers(t: Tables, c: Timed, calls: seq<Timed>, later: Timed, check: SignatureCheck)
    requires c.call.Begin? && BeginChallenge(t, c.devices, c.call.device, c.call.id, c.call.challenge, c.now).1.Ok?
    requires later.call.Complete? && later.call.id == c.call.id
    ensures var started := Step(t, c, check); var u := Run(started, calls, check);
      var drawn, device := later.call.drawn, c.call.device;
      Completion(u, later, check) ==
      if device !in later.devices then Err(InvalidCredentials)
      else if Completed(started, calls, c.call.id, check) then Err(Replay)
      else if c.now + 120 <= later.now then Err(Expired)
      else if !check(later.devices[device].publicKey,
        Ascii("resilient/auth-challenge/v1") + c.call.id + c.call.challenge, later.call.signature)
      then Err(InvalidCredentials)
      else if AccessHash(drawn.access) in u.access || RefreshHash(drawn.refresh) in u.refresh then Err(Database)
      else Ok(SessionTokens(drawn.access, drawn.refresh))
  {
    var started := Step(t, c, check);
    assert started.challenges[c.call.id] == ChallengeRow(c.call.device, c.call.challenge, c.now + 120, false);
    RunChallenge(started, calls, c.call.id, check);
    hide Run, Step, Completed, Ascii, BeginChallenge;
  }

  /* ---------- Access tokens ---------- */

  lemma StepAccess(t: Tables, c: Timed, h: Hash, check: SignatureCheck)
    requires h in t.access
    ensures var u := Step(t, c, check); h in u.access && u.access[h] == t.access[h]
  {
    hide ChallengePayload, ProofPayload, RevokeFamily;
  }

  lemma {:induction false} RunAccess(t: Tables, calls: seq<Timed>, h: Hash, check: SignatureCheck)
    requires h in t.access
    ensures var u := Run(t, calls, check); h in u.access && u.access[h] == t.access[h]
    decreases |calls|
  {
    hide Step;
    if calls != [] {
      RunAccess(t, calls[..|calls| - 1], h, check);
      StepAccess(Run(t, calls[..|calls| - 1], check), calls[|calls| - 1], h, check);
    }
  }

  /** What is stored for tokens handed out: for 900 seconds and for 30 days, to the device that signed. */
  predicate Stored(t: Tables, tokens: SessionTokens, device: Id, family: Id, now: Time) {
    var a, r := AccessHash(tokens.access), RefreshHash(tokens.refresh);
    && a in t.access && t.access[a] == AccessRow(device, now + 900)
    && r in t.refresh && t.refresh[r] == RefreshRow(family, device, None, now + 2592000, false, false)
  }

  /** A completed challenge hands out the tokens drawn, to its device and in the new family. */
  lemma CompletionStores(t: Tables, c: Timed, check: SignatureCheck)
    requires c.call.Complete? && Completion(t, c, check).Ok?
    ensures var tokens := Completion(t, c, check).value;
      && tokens == SessionTokens(c.call.drawn.access, c.call.drawn.refresh) && c.call.id in t.challenges
      && Stored(Step(t, c, check), tokens, t.challenges[c.call.id].device, c.call.drawn.family, c.now)
  {
    hide ChallengePayload;
  }

  /** A rotation hands them out to its device and in the family of the token that it replaces. */
  lemma RotationStores(t: Tables, c: Timed, check: SignatureCheck)
    requires c.call.Rotate? && Rotation(t, c, check).Ok?
    ensures var tokens, h := Rotation(t, c, check).value, RefreshHash(c.call.token);
      && tokens == SessionTokens(c.call.drawn.access, c.call.drawn.refresh) && h in t.refresh
      && Stored(Step(t, c, check), tokens, c.call.device, t.refresh[h].family, c.now)
  {
    hide ProofPayload, RevokeFamily;
  }

  /** In every continuation of a completed challenge its access token opens the challenged device's account
      for 900 seconds, unless the device is revoked or gone. */
  lemma CompletionGivesAccess(t: Tables, c: Timed, calls: seq<Timed>, devices: map<Id, Device>, now: Time,
      check: SignatureCheck)
    requires c.call.Complete? && Completion(t, c, check).Ok?
    ensures c.call.id in t.challenges
    ensures var device := t.challenges[c.call.id].device;
      AuthenticateAccess(Run(Step(t, c, check), calls, check), devices, Completion(t, c, check).value.access, now) ==
        if now < c.now + 900 && device in devices && !devices[device].revoked then Ok(device)
        else Err(InvalidCredentials)
  {
    CompletionStores(t, c, check);
    hide Completion, Run, Step;
    RunAccess(Step(t, c, check), calls, AccessHash(Completion(t, c, check).value.access), check);
  }

  /** The same for a rotation and the device that made it. */
  lemma RotationGivesAccess(t: Tables, c: Timed, calls: seq<Timed>, devices: map<Id, Device>, now: Time,
      check: SignatureCheck)
    requires c.call.Rotate? && Rotation(t, c, check).Ok?
    ensures var device := c.call.device;
      AuthenticateAccess(Run(Step(t, c, check), calls, check), devices, Rotation(t, c, check).value.access, now) ==
        if now < c.now + 900 && device in devices && !devices[device].revoked then Ok(device)
        else Err(InvalidCredentials)
  {
    RotationStores(t, c, check);
    hide Rotation, Run, Step;
    RunAccess(Step(t, c, check), calls, AccessHash(Rotation(t, c, check).value.access), check);
  }

  /* ---------- Refresh tokens ---------- */

  /** A token was rotated during these calls. */
  predicate Rotated(t: Tables, calls: seq<Timed>, token: Token, check: SignatureCheck)
    decreases |calls|
  {
    if calls == [] then false else
    var before, c := calls[..|calls| - 1], calls[|calls| - 1];
    || Rotated(t, before, token, check)
    || (c.call.Rotate? && c.call.token == token && Rotation(Run(t, before, check), c, check).Ok?)
  }

  /** The call finds reuse in this family. */
  predicate Betrays(t: Tables, c: Timed, family: Id, check: SignatureCheck) {
    c.call.Rotate? && Rotation(t, c, check) == Err(TokenReuse) && RefreshHash(c.call.token) in t.refresh
      && t.refresh[RefreshHash(c.call.token)].family == family
  }

  /** Reuse was found in a family during these calls. */
  predicate Betrayed(t: Tables, calls: seq<Timed>, family: Id, check: SignatureCheck)
    decreases |calls|
  {
    if calls == [] then false else
    var before := calls[..|calls| - 1];
    Betrayed(t, before, family, check) || Betrays(Run(t, before, check), calls[|calls| - 1], family, check)
  }

  ghost predicate RowAfter(row: RefreshRow, next: RefreshRow, rotated: bool, betrayed: bool) {
    && next.family == row.family && next.device == row.device && next.expiresAt == row.expiresAt
    && next.used == (row.used || rotated) && next.revoked == (row.revoked || betrayed)
  }

  lemma StepRow(t: Tables, c: Timed, token: Token, check: SignatureCheck)
    requires RefreshHash(token) in t.refresh
    ensures var u, h := Step(t, c, check), RefreshHash(token);
      h in u.refresh && RowAfter(t.refresh[h], u.refresh[h],
        c.call.Rotate? && c.call.token == token && Rotation(t, c, check).Ok?, Betrays(t, c, t.refresh[h].family, check))
  {
    hide ChallengePayload, ProofPayload;
  }

  lemma {:induction false} RunRow(t: Tables, calls: seq<Timed>, token: Token, check: SignatureCheck)
    requires RefreshHash(token) in t.refresh
    ensures var u, h := Run(t, calls, check), RefreshHash(token);
      h in u.refresh && RowAfter(t.refresh[h], u.refresh[h], Rotated(t, calls, token, check),
        Betrayed(t, calls, t.refresh[h].family, check))
    decreases |calls|
  {
    hide Step, Rotation, Betrays;
    if calls != [] {
      RunRow(t, calls[..|calls| - 1], token, check);
      StepRow(Run(t, calls[..|calls| - 1], check), calls[|calls| - 1], token, check);
    }
  }

  /** From its issue on, a refresh token can be rotated until it is or reuse is found in its family, for 30
      days, by the device it was issued to, on a signature by the device's key over a domain and the token,
      if the tokens drawn are not in use. */
  lemma RotationAnswers(t: Tables, tokens: SessionTokens, device: Id, family: Id, issued: Time, calls: seq<Timed>,
      later: Timed, check: SignatureCheck)
    requires Stored(t, tokens, device, family, issued)
    requires later.call.Rotate? && later.call.token == tokens.refresh
    ensures var u := Run(t, calls, check); var drawn := later.call.drawn;
      Rotation(u, later, check) ==
      if later.call.device != device || device !in later.devices then Err(InvalidCredentials)
      else if Rotated(t, calls, tokens.refresh, check) || Betrayed(t, calls, family, check) then Err(TokenReuse)
      else if issued + 2592000 <= later.now then Err(Expired)
      else if !check(later.devices[device].publicKey,
        Ascii("resilient/refresh-proof/v1") + tokens.refresh, later.call.signature)
      then Err(InvalidCredentials)
      else if AccessHash(drawn.access) in u.access || RefreshHash(drawn.refresh) in u.refresh then Err(Database)
      else Ok(SessionTokens(drawn.access, drawn.refresh))
  {
    RunRow(t, calls, tokens.refresh, check);
    hide Run, Rotated, Betrayed, Ascii, RevokeFamily;
  }

  /** A refused call changes nothing, except that reuse revokes its family. */
  lemma RefusalsChangeNothing(t: Tables, c: Timed, check: SignatureCheck)
    requires c.call.Complete? ==> Completion(t, c, check).Err?
    requires c.call.Rotate? ==> Rotation(t, c, check).Err? && Rotation(t, c, check).error != TokenReuse
    requires c.call.Begin? ==>
      BeginChallenge(t, c.devices, c.call.device, c.call.id, c.call.challenge, c.now).1.Err?
    ensures Step(t, c, check) == t
  {
    hide ChallengePayload, ProofPayload;
  }
}
