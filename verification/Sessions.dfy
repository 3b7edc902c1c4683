/** Device-bound sessions: single-use challenges, access tokens, and refresh tokens that rotate
    within a family and betray reuse. */
module Sessions {
  import opened Results
  import opened Bytes
  import opened Api

  const ACCESS_TTL := 900
  const REFRESH_TTL := 2592000
  const CHALLENGE_TTL := 120

  type Token = Bytes32

  /** The stored hash of a token. Hashing is domain-separated and taken to be collision-free. */
  datatype Hash = AccessHash(token: Token) | RefreshHash(token: Token)

  datatype ChallengeRow = ChallengeRow(device: Id, challenge: Bytes32, expiresAt: Time, consumed: bool)
  datatype AccessRow = AccessRow(device: Id, expiresAt: Time)
  datatype RefreshRow = RefreshRow(
    family: Id, device: Id, replacedBy: Option<Hash>, expiresAt: Time, used: bool, revoked: bool)

  datatype Tables = Tables(challenges: map<Id, ChallengeRow>, access: map<Hash, AccessRow>, refresh: map<Hash,
    RefreshRow>)

  const EMPTY := Tables(map[], map[], map[])

  /** The random values that a call draws. */
  datatype Drawn = Drawn(access: Token, refresh: Token, family: Id)

  datatype SessionTokens = SessionTokens(access: Token, refresh: Token)

  function ChallengePayload(id: Id, challenge: Bytes32): Blob {
    Ascii("resilient/auth-challenge/v1") + id + challenge
  }

  function ProofPayload(token: Token): Blob {
    Ascii("resilient/refresh-proof/v1") + token
  }

  /** The device of a live access token. */
  function AuthenticateAccess(t: Tables, devices: map<Id, Device>, token: Token, now: Time): Result<Id, ApiError> {
    var h := AccessHash(token);
    if h in t.access && t.access[h].device in devices && t.access[h].expiresAt > now
      && !devices[t.access[h].device].revoked
    then Ok(t.access[h].device) else Err(InvalidCredentials)
  }

  function BeginChallenge(t: Tables, devices: map<Id, Device>, device: Id, id: Id, challenge: Bytes32,
      now: Time): (Tables, Result<(), ApiError>) {
    if !(device in devices && !devices[device].revoked) then (t, Err(InvalidCredentials))
    else if id in t.challenges || exists c :: c in t.challenges && t.challenges[c].challenge == challenge
      then (t, Err(Database))
    else (t.(challenges := t.challenges[id := ChallengeRow(device, challenge, now + CHALLENGE_TTL, false)]), Ok(()))
  }

  /** A new access token, and a new refresh token in the given family or in a new one. */
  function IssueTokens(t: Tables, device: Id, family: Option<Id>, drawn: Drawn,
      now: Time): Result<(Tables, SessionTokens), ApiError> {
    var a, r := AccessHash(drawn.access), RefreshHash(drawn.refresh);
    if a in t.access || r in t.refresh then Err(Database) else
    var row := RefreshRow(if family.Some? then family.value
      else drawn.family, device, None, now + REFRESH_TTL, false, false);
    Ok((t.(access := t.access[a := AccessRow(device, now + ACCESS_TTL)], refresh := t.refresh[r := row]),
        SessionTokens(drawn.access, drawn.refresh)))
  }

  function CompleteChallenge(t: Tables, devices: map<Id, Device>, id: Id, signature: Signature, check: SignatureCheck,
      drawn: Drawn, now: Time): (Tables, Result<SessionTokens, ApiError>) {
    if !(id in t.challenges && t.challenges[id].device in devices) then (t, Err(InvalidCredentials)) else
    var row := t.challenges[id];
    if row.consumed then (t, Err(Replay)) else
    if row.expiresAt <= now then (t, Err(Expired)) else
    if !check(devices[row.device].publicKey, ChallengePayload(id, row.challenge), signature)
      then (t, Err(InvalidCredentials)) else
    match IssueTokens(t.(challenges := t.challenges[id := row.(consumed := true)]), row.device, None, drawn, now)
    case Ok((u, tokens)) => (u, Ok(tokens))
    case Err(e) => (t, Err(e))
  }

  function RevokeFamily(refresh: map<Hash, RefreshRow>, family: Id): map<Hash, RefreshRow> {
    map h | h in refresh :: if refresh[h].family == family then refresh[h].(revoked := true) else refresh[h]
  }

  /** Reuse is judged before the proof of possession, and its revocation is kept although the call fails. */
  function RotateRefresh(t: Tables, devices: map<Id, Device>, device: Id, token: Token, signature: Signature,
      check: SignatureCheck, drawn: Drawn, now: Time): (Tables, Result<SessionTokens, ApiError>) {
    var h := RefreshHash(token);
    if !(h in t.refresh && t.refresh[h].device == device && device in devices) then (t, Err(InvalidCredentials)) else
    var row := t.refresh[h];
    if row.used || row.revoked then (t.(refresh := RevokeFamily(t.refresh, row.family)), Err(TokenReuse)) else
    if row.expiresAt <= now then (t, Err(Expired)) else
    if !check(devices[device].publicKey, ProofPayload(token), signature) then (t, Err(InvalidCredentials)) else
    match IssueTokens(t, device, Some(row.family), drawn, now)
    case Err(e) => (t, Err(e))
    case Ok((u, tokens)) =>
      (u.(refresh := u.refresh[h := row.(used := true, replacedBy := Some(RefreshHash(tokens.refresh)))]), Ok(tokens))
  }

  /* ---------- Runs ---------- */

  /** Each call sees the device table as it is then. */
  datatype Call =
    | Begin(device: Id, id: Id, challenge: Bytes32)
    | Complete(id: Id, signature: Signature, drawn: Drawn)
    | Rotate(device: Id, token: Token, signature: Signature, drawn: Drawn)

  datatype Timed = Timed(call: Call, devices: map<Id, Device>, now: Time)

  function Step(t: Tables, c: Timed, check: SignatureCheck): Tables {
    match c.call
    case Begin(device, id, challenge) => BeginChallenge(t, c.devices, device, id, challenge, c.now).0
    case Complete(id, signature, drawn) => CompleteChallenge(t, c.devices, id, signature, check, drawn, c.now).0
    case Rotate(device, token, signature, drawn) =>
      RotateRefresh(t, c.devices, device, token, signature, check, drawn, c.now).0
  }

  function Run(t: Tables, calls: seq<Timed>, check: SignatureCheck): Tables
    decreases |calls|
  {
    if calls == [] then t else Step(Run(t, calls[..|calls| - 1], check), calls[|calls| - 1], check)
  }

  /** A family id drawn for a new session is not one in use: fresh random values are distinct. */
  predicate FamilyFresh(t: Tables, c: Timed) {
    c.call.Complete? ==> forall h :: h in t.refresh ==> t.refresh[h].family != c.call.drawn.family
  }

  ghost predicate FamiliesFresh(t: Tables, calls: seq<Timed>, check: SignatureCheck) {
    forall i :: 0 <= i < |calls| ==> FamilyFresh(Run(t, calls[..i], check), calls[i])
  }

  /* ---------- Families are chains ---------- */

  predicate LinkedTo(row: RefreshRow, next: Hash) {
    row.used && row.replacedBy == Some(next)
  }

  /** The tokens of a family in order of issue: each but the last is used and names its successor, the
      last is unused, and all share one device and one fate. */
  ghost predicate ChainOf(refresh: map<Hash, RefreshRow>, family: Id, chain: seq<Hash>) {
    && chain != []
    && (forall h :: h in chain <==> h in refresh && refresh[h].family == family)
    && (forall i, j :: 0 <= i < j < |chain| ==> chain[i] != chain[j])
    && (forall i :: 0 <= i < |chain| - 1 ==> LinkedTo(refresh[chain[i]], chain[i + 1]))
    && (var tip := refresh[chain[|chain| - 1]]; !tip.used && tip.replacedBy == None)
    && (forall h :: h in chain ==>
      refresh[h].device == refresh[chain[0]].device && refresh[h].revoked == refresh[chain[0]].revoked)
  }

  ghost predicate HasChain(refresh: map<Hash, RefreshRow>, family: Id) {
    exists chain :: ChainOf(refresh, family, chain)
  }

  ghost predicate FamiliesAreChains(refresh: map<Hash, RefreshRow>) {
    forall h :: h in refresh ==> HasChain(refresh, refresh[h].family)
  }

  ghost predicate SameFamily(a: map<Hash, RefreshRow>, b: map<Hash, RefreshRow>, family: Id) {
    && (forall h :: h in a && a[h].family == family ==> h in b && b[h] == a[h])
    && (forall h :: h in b && b[h].family == family ==> h in a && b[h] == a[h])
  }

  lemma ChainElsewhere(a: map<Hash, RefreshRow>, b: map<Hash, RefreshRow>, family: Id)
    requires HasChain(a, family) && SameFamily(a, b, family)
    ensures HasChain(b, family)
  {
    var chain :| ChainOf(a, family, chain);
    assert forall i :: 0 <= i < |chain| ==> chain[i] in chain;
    assert ChainOf(b, family, chain);
  }

  lemma TipOfChain(refresh: map<Hash, RefreshRow>, family: Id, chain: seq<Hash>, h: Hash)
    requires ChainOf(refresh, family, chain) && h in refresh && refresh[h].family == family && !refresh[h].used
    ensures h == chain[|chain| - 1]
  {
    var i :| 0 <= i < |chain| && chain[i] == h;
    assert i < |chain| - 1 ==> LinkedTo(refresh[chain[i]], chain[i + 1]);
  }

  /** A chain grows by one: its tip is used up and names `next`, which becomes the tip. */
  lemma ChainGrows(a: map<Hash, RefreshRow>, b: map<Hash, RefreshRow>, family: Id, chain: seq<Hash>, next: Hash)
    requires ChainOf(a, family, chain) && next !in a && next in b
    requires var tip := chain[|chain| - 1];
      && (forall x :: x in b <==> x in a || x == next)
      && (forall x :: x in a && x != tip ==> b[x] == a[x])
      && b[tip] == a[tip].(used := true, replacedBy := Some(next))
      && b[next].family == family && b[next].device == a[tip].device && b[next].revoked == a[tip].revoked
      && !b[next].used && b[next].replacedBy == None
    ensures ChainOf(b, family, chain + [next])
  {
    var longer := chain + [next];
    var n := |chain| - 1;
    assert forall i :: 0 <= i < |chain| ==> longer[i] == chain[i] && chain[i] in chain;
    assert chain[n] in chain;
    forall i | 0 <= i < n
      ensures LinkedTo(b[longer[i]], longer[i + 1])
    {
      assert LinkedTo(a[chain[i]], chain[i + 1]) && chain[i] != chain[n];
    }
  }

  lemma RotationExtends(refresh: map<Hash, RefreshRow>, h: Hash, next: Hash, expiresAt: Time)
    requires h in refresh && !refresh[h].used && !refresh[h].revoked && next !in refresh
    requires HasChain(refresh, refresh[h].family)
    ensures var row := refresh[h];
      HasChain(refresh[next := RefreshRow(row.family, row.device, None, expiresAt, false, false)]
                      [h := row.(used := true, replacedBy := Some(next))], row.family)
  {
    var row := refresh[h];
    var chain :| ChainOf(refresh, row.family, chain);
    TipOfChain(refresh, row.family, chain, h);
    var b := refresh[next := RefreshRow(row.family, row.device, None, expiresAt, false, false)]
                    [h := row.(used := true, replacedBy := Some(next))];
    hide ChainOf;
    ChainGrows(refresh, b, row.family, chain, next);
  }

  lemma NewFamily(refresh: map<Hash, RefreshRow>, h: Hash, row: RefreshRow)
    requires h !in refresh && !row.used && row.replacedBy == None
    requires forall x :: x in refresh ==> refresh[x].family != row.family
    ensures HasChain(refresh[h := row], row.family)
  {
    assert ChainOf(refresh[h := row], row.family, [h]);
  }

  lemma RevocationKeepsChains(refresh: map<Hash, RefreshRow>, family: Id)
    requires FamiliesAreChains(refresh)
    ensures FamiliesAreChains(RevokeFamily(refresh, family))
  {
    var b := RevokeFamily(refresh, family);
    forall h | h in b
      ensures HasChain(b, b[h].family)
    {
      assert HasChain(refresh, refresh[h].family);
      if b[h].family == family {
        var chain :| ChainOf(refresh, family, chain);
        assert forall i :: 0 <= i < |chain| ==> chain[i] in chain;
        assert forall i :: 0 <= i < |chain| - 1 ==> LinkedTo(refresh[chain[i]], chain[i + 1]) ==>
          LinkedTo(b[chain[i]], chain[i + 1]);
        assert ChainOf(b, family, chain);
      } else {
        ChainElsewhere(refresh, b, b[h].family);
      }
    }
  }

  /** What a call does to the refresh table. */
  lemma RefreshEffect(t: Tables, c: Timed, check: SignatureCheck)
    ensures var u := Step(t, c, check);
      || u.refresh == t.refresh
      || (c.call.Complete? && RefreshHash(c.call.drawn.refresh) !in t.refresh
          && exists device, expiresAt ::
            u.refresh == t.refresh[RefreshHash(c.call.drawn.refresh) :=
            RefreshRow(c.call.drawn.family, device, None, expiresAt, false, false)])
      || (c.call.Rotate? && RefreshHash(c.call.token) in t.refresh
        && u.refresh == RevokeFamily(t.refresh, t.refresh[RefreshHash(c.call.token)].family))
      || (c.call.Rotate? && var h, next := RefreshHash(c.call.token), RefreshHash(c.call.drawn.refresh);
          && h in t.refresh && next !in t.refresh && !t.refresh[h].used && !t.refresh[h].revoked
          && var row := t.refresh[h];
          u.refresh == t.refresh[next :=
            RefreshRow(row.family, row.device, None, c.now + REFRESH_TTL, false, false)][h :=
            row.(used := true, replacedBy := Some(next))])
  {
    hide ChallengePayload, ProofPayload, RevokeFamily;
    var u := Step(t, c, check);
    if c.call.Complete? && u.refresh != t.refresh {
      var row := t.challenges[c.call.id];
      assert u.refresh == t.refresh[RefreshHash(c.call.drawn.refresh) :=
        RefreshRow(c.call.drawn.family, row.device, None, c.now + REFRESH_TTL, false, false)];
    }
  }

  lemma StepKeepsChains(t: Tables, c: Timed, check: SignatureCheck)
    requires FamiliesAreChains(t.refresh) && FamilyFresh(t, c)
    ensures FamiliesAreChains(Step(t, c, check).refresh)
  {
    RefreshEffect(t, c, check);
    hide Step, ChainOf, HasChain;
    var u := Step(t, c, check);
    if u.refresh != t.refresh {
      if c.call.Complete? {
        var h := RefreshHash(c.call.drawn.refresh);
        var row := u.refresh[h];
        NewFamily(t.refresh, h, row);
        forall x | x in u.refresh
          ensures HasChain(u.refresh, u.refresh[x].family)
        {
          if x != h { ChainElsewhere(t.refresh, u.refresh, t.refresh[x].family); }
        }
      } else {
        var h, next := RefreshHash(c.call.token), RefreshHash(c.call.drawn.refresh);
        RevocationKeepsChains(t.refresh, t.refresh[h].family);
        if u.refresh != RevokeFamily(t.refresh, t.refresh[h].family) {
          RotationExtends(t.refresh, h, next, c.now + REFRESH_TTL);
          forall x | x in u.refresh
            ensures HasChain(u.refresh, u.refresh[x].family)
          {
            if u.refresh[x].family != t.refresh[h].family { ChainElsewhere(t.refresh, u.refresh, u.refresh[x].family); }
          }
        }
      }
    }
  }

  /** In every reachable state every family is a single chain of tokens on one device with exactly one
      unused token, its tip, and is revoked as a whole or not at all. */
  lemma {:induction false} FamiliesStayChains(calls: seq<Timed>, check: SignatureCheck)
    requires FamiliesFresh(EMPTY, calls, check)
    ensures FamiliesAreChains(Run(EMPTY, calls, check).refresh)
    decreases |calls|
  {
    hide FamiliesAreChains, Step, FamilyFresh;
    if calls == [] {
      assert FamiliesAreChains(map[]) by { NoFamilies(); }
    } else {
      var n := |calls| - 1;
      assert forall i :: 0 <= i < n ==> calls[..n][..i] == calls[..i];
      FamiliesStayChains(calls[..n], check);
      StepKeepsChains(Run(EMPTY, calls[..n], check), calls[n], check);
    }
  }

  lemma NoFamilies()
    ensures FamiliesAreChains(map[])
  {
  }

  /** So two unused tokens of one family are the same token. */
  lemma OneLiveToken(refresh: map<Hash, RefreshRow>, g: Hash, h: Hash)
    requires FamiliesAreChains(refresh) && g in refresh && h in refresh && refresh[g].family == refresh[h].family
    ensures refresh[g].device == refresh[h].device && refresh[g].revoked == refresh[h].revoked
    ensures !refresh[g].used && !refresh[h].used ==> g == h
  {
    assert HasChain(refresh, refresh[g].family);
    var chain :| ChainOf(refresh, refresh[g].family, chain);
    if !refresh[g].used && !refresh[h].used {
      TipOfChain(refresh, refresh[g].family, chain, g);
      TipOfChain(refresh, refresh[g].family, chain, h);
    }
  }

  /** A rotation succeeds exactly for the tip of an unrevoked family, presented and signed for by the
      family's device before it expires. */
  lemma RotationSucceedsIff(t: Tables, devices: map<Id, Device>, device: Id, token: Token, signature: Signature,
      check: SignatureCheck, drawn: Drawn, now: Time, chain: seq<Hash>)
    requires RefreshHash(token) in chain && chain[0] in t.refresh
      && ChainOf(t.refresh, t.refresh[chain[0]].family, chain)
    requires AccessHash(drawn.access) !in t.access && RefreshHash(drawn.refresh) !in t.refresh
    ensures RotateRefresh(t, devices, device, token, signature, check, drawn, now).1.Ok? <==>
      && RefreshHash(token) == chain[|chain| - 1] && !t.refresh[chain[0]].revoked
      && device == t.refresh[chain[0]].device && device in devices
      && check(devices[device].publicKey, ProofPayload(token), signature)
      && now < t.refresh[chain[|chain| - 1]].expiresAt
  {
    hide ProofPayload, RevokeFamily;
    var h := RefreshHash(token);
    if !t.refresh[h].used {
      TipOfChain(t.refresh, t.refresh[chain[0]].family, chain, h);
    }
    assert chain[|chain| - 1] in chain;
  }

  /* ---------- Reuse is fatal ---------- */

  ghost predicate FamilyDead(refresh: map<Hash, RefreshRow>, family: Id) {
    && (exists h :: h in refresh && refresh[h].family == family)
    && (forall h :: h in refresh && refresh[h].family == family ==> refresh[h].revoked)
  }

  lemma StepKeepsDead(t: Tables, c: Timed, family: Id, check: SignatureCheck)
    requires FamilyDead(t.refresh, family) && FamilyFresh(t, c)
    ensures FamilyDead(Step(t, c, check).refresh, family)
  {
    RefreshEffect(t, c, check);
    hide Step;
    var u := Step(t, c, check);
    var h :| h in t.refresh && t.refresh[h].family == family;
    assert h in u.refresh && u.refresh[h].family == family;
  }

  lemma {:induction false} DeadForGood(t: Tables, calls: seq<Timed>, family: Id, check: SignatureCheck)
    requires FamilyDead(t.refresh, family) && FamiliesFresh(t, calls, check)
    ensures FamilyDead(Run(t, calls, check).refresh, family)
    decreases |calls|
  {
    hide FamilyDead, Step, FamilyFresh;
    if calls != [] {
      var n := |calls| - 1;
      assert forall i :: 0 <= i < n ==> calls[..n][..i] == calls[..i];
      DeadForGood(t, calls[..n], family, check);
      StepKeepsDead(Run(t, calls[..n], check), calls[n], family, check);
    }
  }

  /** After a rotation that answers TokenReuse, no rotation of any token of that family ever succeeds,
      in any continuation. */
  lemma ReuseEndsTheFamily(t: Tables, c: Timed, calls: seq<Timed>, later: Timed, check: SignatureCheck)
    requires c.call.Rotate? && later.call.Rotate?
    requires RotateRefresh(t, c.devices, c.call.device, c.call.token, c.call.signature, check, c.call.drawn,
      c.now).1 == Err(TokenReuse)
    requires FamiliesFresh(Step(t, c, check), calls, check)
    ensures var u := Run(Step(t, c, check), calls, check); var h := RefreshHash(later.call.token);
      h in u.refresh && RefreshHash(c.call.token) in t.refresh
        && u.refresh[h].family == t.refresh[RefreshHash(c.call.token)].family ==>
        RotateRefresh(u, later.devices, later.call.device, later.call.token, later.call.signature, check,
          later.call.drawn, later.now).1.Err?
  {
    var family := t.refresh[RefreshHash(c.call.token)].family;
    assert Step(t, c, check).refresh == RevokeFamily(t.refresh, family);
    assert FamilyDead(RevokeFamily(t.refresh, family), family) by {
      assert RevokeFamily(t.refresh, family)[RefreshHash(c.call.token)].family == family;
    }
    DeadForGood(Step(t, c, check), calls, family, check);
    hide Run, ProofPayload;
  }

  /* ---------- Single use ---------- */

  predicate Spent(t: Tables, token: Token, device: Id) {
    var h := RefreshHash(token);
    h in t.refresh && t.refresh[h].used && t.refresh[h].device == device
  }

  predicate Consumed(t: Tables, id: Id, device: Id) {
    id in t.challenges && t.challenges[id].consumed && t.challenges[id].device == device
  }

  lemma StepKeepsSpent(t: Tables, c: Timed, token: Token, id: Id, device: Id, check: SignatureCheck)
    ensures Spent(t, token, device) ==> Spent(Step(t, c, check), token, device)
    ensures Consumed(t, id, device) ==> Consumed(Step(t, c, check), id, device)
  {
    hide ChallengePayload, ProofPayload;
  }

  lemma {:induction false} RunKeepsSpent(t: Tables, calls: seq<Timed>, token: Token, id: Id, device: Id,
      check: SignatureCheck)
    ensures Spent(t, token, device) ==> Spent(Run(t, calls, check), token, device)
    ensures Consumed(t, id, device) ==> Consumed(Run(t, calls, check), id, device)
    decreases |calls|
  {
    hide Spent, Consumed, Step;
    if calls != [] {
      RunKeepsSpent(t, calls[..|calls| - 1], token, id, device, check);
      StepKeepsSpent(Run(t, calls[..|calls| - 1], check), calls[|calls| - 1], token, id, device, check);
    }
  }

  /** A refresh token is accepted at most once over any run: presented again on its device it is
      answered with TokenReuse, whatever happened in between. */
  lemma RefreshOnce(t: Tables, c: Timed, calls: seq<Timed>, later: Timed, check: SignatureCheck)
    requires c.call.Rotate? && later.call.Rotate? && later.call.token == c.call.token
    requires RotateRefresh(t, c.devices, c.call.device, c.call.token, c.call.signature, check, c.call.drawn,
      c.now).1.Ok?
    ensures var u := Run(Step(t, c, check), calls, check); var device := later.call.device;
      RotateRefresh(u, later.devices, device, later.call.token, later.call.signature, check, later.call.drawn,
        later.now).1
      == Err(if device == c.call.device && device in later.devices then TokenReuse else InvalidCredentials)
  {
    assert Spent(Step(t, c, check), c.call.token, c.call.device);
    RunKeepsSpent(Step(t, c, check), calls, c.call.token, c.call.device, c.call.device, check);
    hide Run, Step, ProofPayload, RevokeFamily;
  }

  /** A challenge is accepted at most once over any run. */
  lemma ChallengeOnce(t: Tables, c: Timed, calls: seq<Timed>, later: Timed, check: SignatureCheck)
    requires c.call.Complete? && later.call.Complete? && later.call.id == c.call.id
    requires CompleteChallenge(t, c.devices, c.call.id, c.call.signature, check, c.call.drawn, c.now).1.Ok?
    ensures var u := Run(Step(t, c, check), calls, check);
      CompleteChallenge(u, later.devices, later.call.id, later.call.signature, check, later.call.drawn, later.now).1
      == Err(if t.challenges[c.call.id].device in later.devices then Replay else InvalidCredentials)
  {
    var device := t.challenges[c.call.id].device;
    assert Consumed(Step(t, c, check), c.call.id, device);
    RunKeepsSpent(Step(t, c, check), calls, c.call.drawn.refresh, c.call.id, device, check);
    hide Run, Step, ChallengePayload;
  }
}
