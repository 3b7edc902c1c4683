/** The backend as the object it is: its methods read and write the rows of all tables step by step,
    drop their own copy of them when a statement fails, and are proved to compute modules Delivery,
    Sessions, Usernames and RateLimit while keeping the invariants proved there.

    Clock readings, random values and the outcome of certificate checks are parameters. */
module Backend {
  import opened Results
  import opened Bytes
  import opened Sequences
  import opened Api
  import D = Delivery
  import L = DeliveryLaws
  import S = Sessions
  import U = Usernames
  import RL = RateLimit

  class Backend {
    const check: SignatureCheck
    var accounts: map<Bytes32, Bytes32>
    var devices: map<Id, Device>
    var certificates: map<Id, D.CertificateRow>
    var challenges: map<Id, S.ChallengeRow>
    var access: map<S.Hash, S.AccessRow>
    var refresh: map<S.Hash, S.RefreshRow>
    var usernames: map<U.Name, U.Holding>
    var cooldowns: map<U.Name, U.Cooldown>
    var counters: RL.Counters
    var groups: map<Id, Id>
    var members: map<(Id, Id), D.Member>
    var operations: map<Id, D.OperationRow>
    var events: seq<D.EventRow>
    var nextCursor: nat

    ghost function Log(): D.Tables
      reads this
    {
      D.Tables(accounts, devices, certificates, groups, members, operations, events, nextCursor)
    }

    ghost function SessionRows(): S.Tables
      reads this
    {
      S.Tables(challenges, access, refresh)
    }

    ghost function Names(): U.Tables
      reads this
    {
      U.Tables(accounts.Keys, usernames, cooldowns)
    }

    /** The log is sound, refresh families are chains, and no account holds two names. */
    ghost predicate Valid()
      reads this
    {
      L.Sound(Log(), check) && S.FamiliesAreChains(refresh) && U.OneNameEach(Names())
    }

    constructor (check: SignatureCheck)
      ensures Valid() && this.check == check && counters == map[]
      ensures Log() == D.EMPTY && SessionRows() == S.EMPTY && Names() == U.Tables({}, map[], map[])
    {
      this.check := check;
      accounts, devices, certificates, challenges, access, refresh := map[], map[], map[], map[], map[], map[];
      usernames, cooldowns, counters, groups, members, operations := map[], map[], map[], map[], map[], map[];
      events, nextCursor := [], 1;
      new;
      L.EmptySound(check);
      S.NoFamilies();
    }

    /* ---------- Limits and devices ---------- */

    method CheckRateLimit(scope: Blob, maximum: int, window: int, now: RL.Micros) returns (r: Result<(), ApiError>)
      modifies this`counters
      ensures (counters, r) == RL.CheckRateLimit(old(counters), scope, maximum, window, now)
      ensures old(Valid()) ==> Valid()
    {
      if scope == [] || |scope| > 96 || maximum < 1 || window < 1 {
        return Err(InvalidInput);
      }
      var row := RL.Counter(now, 1);
      if scope in counters && counters[scope].start > now - window * RL.SECOND {
        row := RL.Counter(counters[scope].start, counters[scope].count + 1);
      }
      if row.count > RL.I32_MAX {
        return Err(Database);
      }
      counters := counters[scope := row];
      if row.count > maximum {
        return Err(Unauthorized);
      }
      r := Ok(());
    }

    method RegisterAccountDevice(account: Bytes32, root: Bytes32, c: D.DeviceCertificate, certified: bool)
        returns (r: Result<(), ApiError>)
      requires Valid()
      modifies this`accounts, this`devices, this`certificates
      ensures Valid() && (Log(), r) == D.RegisterDevice(old(Log()), account, root, c, certified)
    {
      hide L.Sound, L.Extends, S.FamiliesAreChains;
      L.RegisterSound(Log(), account, root, c, certified, check);
      if !certified {
        return Err(InvalidCredentials);
      }
      if c.device in devices {
        return Err(Replay);
      }
      var tx := accounts;
      if account !in tx {
        if root in tx.Values {
          return Err(Database);
        }
        tx := tx[account := root];
      }
      if tx[account] != root {
        return Err(Conflict);
      }
      if exists d :: d in devices && devices[d].account == account && devices[d].publicKey == c.publicKey {
        return Err(Database);
      }
      var txDevices := devices[c.device := Device(account, c.publicKey, false)];
      if c.device in certificates || c.issuedAt > D.MAX_ISSUED_AT {
        return Err(Database);
      }
      assert tx == accounts[account := root];
      certificates := certificates[c.device := D.CertificateRow(c.signature, c.issuedAt)];
      accounts, devices := tx, txDevices;
      r := Ok(());
    }

    method AuthenticateAccess(token: S.Token, now: Time) returns (r: Result<Id, ApiError>)
      ensures r == S.AuthenticateAccess(SessionRows(), devices, token, now)
    {
      var h := S.AccessHash(token);
      if h !in access {
        return Err(InvalidCredentials);
      }
      var row := access[h];
      if row.expiresAt <= now || row.device !in devices || devices[row.device].revoked {
        return Err(InvalidCredentials);
      }
      r := Ok(row.device);
    }

    /* ---------- Sessions ---------- */

    method BeginChallenge(device: Id, id: Id, challenge: Bytes32, now: Time) returns (r: Result<(), ApiError>)
      requires Valid()
      modifies this`challenges
      ensures Valid() && (SessionRows(), r) == S.BeginChallenge(old(SessionRows()), devices, device, id, challenge, now)
    {
      hide L.Sound, L.Extends, S.FamiliesAreChains, U.OneNameEach;
      if device !in devices || devices[device].revoked {
        return Err(InvalidCredentials);
      }
      if id in challenges || exists c :: c in challenges && challenges[c].challenge == challenge {
        return Err(Database);
      }
      challenges := challenges[id := S.ChallengeRow(device, challenge, now + S.CHALLENGE_TTL, false)];
      r := Ok(());
    }

    /** Two inserts, which the caller's transaction keeps or drops together. */
    method IssueTokens(device: Id, family: Option<Id>, drawn: S.Drawn, now: Time)
        returns (r: Result<S.SessionTokens, ApiError>)
      modifies this`access, this`refresh
      ensures match S.IssueTokens(old(SessionRows()), device, family, drawn, now)
        case Ok((t, tokens)) => SessionRows() == t && r == Ok(tokens)
        case Err(e) => r == Err(e)
    {
      var accessHash, refreshHash := S.AccessHash(drawn.access), S.RefreshHash(drawn.refresh);
      var familyId := if family.Some? then family.value else drawn.family;
      if accessHash in access {
        return Err(Database);
      }
      access := access[accessHash := S.AccessRow(device, now + S.ACCESS_TTL)];
      if refreshHash in refresh {
        return Err(Database);
      }
      refresh := refresh[refreshHash := S.RefreshRow(familyId, device, None, now + S.REFRESH_TTL, false, false)];
      r := Ok(S.SessionTokens(drawn.access, drawn.refresh));
    }

    method CompleteChallenge(id: Id, signature: Signature, drawn: S.Drawn, now: Time)
        returns (r: Result<S.SessionTokens, ApiError>)
      requires Valid()
      requires forall h :: h in refresh ==> refresh[h].family != drawn.family
      modifies this`challenges, this`access, this`refresh
      ensures Valid()
      ensures (SessionRows(), r) == S.CompleteChallenge(old(SessionRows()), devices, id, signature, check, drawn, now)
    {
      hide L.Sound, L.Extends, S.FamiliesAreChains, U.OneNameEach, S.ChallengePayload, S.IssueTokens;
      CompletionKeepsChains(SessionRows(), devices, id, signature, check, drawn, now);
      if id !in challenges || challenges[id].device !in devices {
        return Err(InvalidCredentials);
      }
      var row := challenges[id];
      if row.consumed {
        return Err(Replay);
      }
      if row.expiresAt <= now {
        return Err(Expired);
      }
      if !check(devices[row.device].publicKey, S.ChallengePayload(id, row.challenge), signature) {
        return Err(InvalidCredentials);
      }
      var challengesBefore, accessBefore, refreshBefore := challenges, access, refresh;
      challenges := challenges[id := row.(consumed := true)];
      r := IssueTokens(row.device, None, drawn, now);
      if r.Err? {
        challenges, access, refresh := challengesBefore, accessBefore, refreshBefore;
      }
    }

    /** The token of this row is used up and names its successor, or nothing happens. */
    method ReplaceToken(hash: S.Hash, row: S.RefreshRow, drawn: S.Drawn, now: Time)
        returns (r: Result<S.SessionTokens, ApiError>)
      modifies this`access, this`refresh
      ensures match S.IssueTokens(old(SessionRows()), row.device, Some(row.family), drawn, now)
        case Ok((t, tokens)) => r == Ok(tokens)
          && SessionRows() == t.(refresh :=
            t.refresh[hash := row.(used := true, replacedBy := Some(S.RefreshHash(tokens.refresh)))])
        case Err(e) => r == Err(e) && SessionRows() == old(SessionRows())
    {
      hide S.IssueTokens;
      var accessBefore, refreshBefore := access, refresh;
      r := IssueTokens(row.device, Some(row.family), drawn, now);
      if r.Err? {
        access, refresh := accessBefore, refreshBefore;
        return;
      }
      refresh := refresh[hash := row.(used := true, replacedBy := Some(S.RefreshHash(r.value.refresh)))];
    }

    method RevokeFamily(family: Id)
      modifies this`refresh
      ensures refresh == S.RevokeFamily(old(refresh), family)
    {
      refresh := map h | h in refresh :: if refresh[h].family == family then refresh[h].(revoked := true)
        else refresh[h];
    }

    method RotateRefresh(device: Id, token: S.Token, signature: Signature, drawn: S.Drawn, now: Time)
        returns (r: Result<S.SessionTokens, ApiError>)
      requires Valid()
      modifies this`access, this`refresh
      ensures Valid()
      ensures (SessionRows(), r) ==
        S.RotateRefresh(old(SessionRows()), devices, device, token, signature, check, drawn, now)
    {
      hide L.Sound, L.Extends, S.FamiliesAreChains, U.OneNameEach, S.ProofPayload, S.IssueTokens, S.RevokeFamily;
      RotationKeepsChains(SessionRows(), devices, device, token, signature, check, drawn, now);
      var hash := S.RefreshHash(token);
      if hash !in refresh || refresh[hash].device != device || device !in devices {
        return Err(InvalidCredentials);
      }
      var row := refresh[hash];
      if row.used || row.revoked {
        RevokeFamily(row.family);
        return Err(TokenReuse);
      }
      if row.expiresAt <= now {
        return Err(Expired);
      }
      if !check(devices[device].publicKey, S.ProofPayload(token), signature) {
        return Err(InvalidCredentials);
      }
      r := ReplaceToken(hash, row, drawn, now);
    }

    /* ---------- Names ---------- */

    /** The name that an account holds. */
    method CurrentName(account: Bytes32) returns (name: Option<U.Name>)
      requires U.OneNameEach(Names())
      ensures name == U.Current(Names(), account)
    {
      name := None;
      if exists n :: n in usernames && usernames[n] == U.Holding(account, None) {
        var n: U.Name :| n in usernames && usernames[n] == U.Holding(account, None);
        name := Some(n);
      }
    }

    /** `requested` is the canonical form, if there is one. */
    method ClaimUsername(account: Bytes32, requested: Option<U.Name>, now: Time) returns (r: Result<U.Name, ApiError>)
      requires Valid()
      modifies this`usernames
      ensures Valid() && (Names(), r) == U.Claim(old(Names()), account, requested, now)
    {
      hide L.Sound, L.Extends, S.FamiliesAreChains;
      if requested.None? || requested.value in U.RESERVED {
        return Err(InvalidInput);
      }
      var name := requested.value;
      var tx := usernames;
      if name in tx && tx[name].released.Some? && !(name in cooldowns && cooldowns[name].releaseAfter > now) {
        tx := tx - {name};
      }
      var current := CurrentName(account);
      if name in tx || current.Some? {
        return Err(Conflict);
      }
      if account !in accounts {
        return Err(Database);
      }
      usernames := tx[name := U.Holding(account, None)];
      r := Ok(name);
    }

    method ChangeUsername(account: Bytes32, requested: Option<U.Name>, now: Time) returns (r: Result<U.Name, ApiError>)
      requires Valid()
      modifies this`usernames, this`cooldowns
      ensures Valid() && (Names(), r) == U.Change(old(Names()), account, requested, now)
    {
      hide L.Sound, L.Extends, S.FamiliesAreChains;
      U.StepKeepsOneName(Names(), U.Timed(U.DoChange(account, requested), now));
      if requested.None? || requested.value in U.RESERVED {
        return Err(InvalidInput);
      }
      var next := requested.value;
      var current := CurrentName(account);
      hide U.OneNameEach;
      if current == Some(next) {
        return Ok(next);
      }
      if next in usernames && (usernames[next].released.None?
          || (next in cooldowns && cooldowns[next].releaseAfter > now)) {
        return Err(Conflict);
      }
      var tx, txCooldowns := usernames - {next}, cooldowns;
      if current.Some? {
        var left := current.value;
        tx := tx[left := tx[left].(released := Some(now))];
        txCooldowns := txCooldowns[left := U.Cooldown(account, now + U.COOLDOWN)];
      }
      if account !in accounts {
        return Err(Database);
      }
      usernames, cooldowns := tx[next := U.Holding(account, None)], txCooldowns;
      r := Ok(next);
    }

    method ReleaseUsername(account: Bytes32, now: Time) returns (r: Result<(), ApiError>)
      requires Valid()
      modifies this`usernames, this`cooldowns
      ensures Valid() && (Names(), r) == U.Release(old(Names()), account, now)
    {
      hide L.Sound, L.Extends, S.FamiliesAreChains;
      U.StepKeepsOneName(Names(), U.Timed(U.DoRelease(account), now));
      var current := CurrentName(account);
      hide U.OneNameEach;
      if current.None? {
        return Err(InvalidInput);
      }
      var name := current.value;
      usernames := usernames[name := usernames[name].(released := Some(now))];
      cooldowns := cooldowns[name := U.Cooldown(account, now + U.COOLDOWN)];
      r := Ok(());
    }

    /* ---------- Groups ---------- */

    method CreateGroup(group: Id, creator: Id, account: Bytes32) returns (r: Result<(), ApiError>)
      requires Valid()
      modifies this`groups, this`members
      ensures Valid() && (Log(), r) == D.CreateGroup(old(Log()), group, creator, account)
    {
      hide L.Sound, L.Extends, S.FamiliesAreChains, U.OneNameEach;
      L.GroupSound(Log(), D.NewGroup(group, creator, account), check);
      if creator !in devices || devices[creator].account != account || devices[creator].revoked {
        return Err(Unauthorized);
      }
      if group in groups {
        return Err(Database);
      }
      var tx := groups[group := creator];
      if (group, creator) in members {
        return Err(Database);
      }
      groups, members := tx, members[(group, creator) := D.Member(account, D.ADMIN, false)];
      r := Ok(());
    }

    method AddGroupMember(group: Id, device: Id, account: Bytes32, role: int) returns (r: Result<(), ApiError>)
      requires Valid()
      modifies this`members
      ensures Valid() && (Log(), r) == D.AddMember(old(Log()), group, device, account, role)
    {
      hide L.Sound, L.Extends, S.FamiliesAreChains, U.OneNameEach;
      L.GroupSound(Log(), D.Add(group, device, account, role), check);
      if group !in groups || device !in devices || account !in accounts || role < 0 || role > 2
          || (group, device) in members {
        return Err(Database);
      }
      members := members[(group, device) := D.Member(account, role, false)];
      r := Ok(());
    }

    method AssertActiveMember(group: Id, device: Id) returns (r: Result<(), ApiError>)
      ensures r == if D.ActiveMember(Log(), group, device) then Ok(()) else Err(Unauthorized)
    {
      if (group, device) in members && !members[(group, device)].removed {
        return Ok(());
      }
      r := Err(Unauthorized);
    }

    /** The key of the operation's author, who must be an active administrator, on whose signature it stands. */
    method AuthorizeOperation(o: D.Membership, operation: Blob, signature: Signature) returns (r: Result<(), ApiError>)
      ensures var authorized := D.ActiveMember(Log(), o.group, o.author)
        && members[(o.group, o.author)].role == D.ADMIN && o.author in devices;
        r == if !authorized then Err(Unauthorized)
             else if check(devices[o.author].publicKey, operation, signature) then Ok(()) else Err(InvalidCredentials)
    {
      var author := (o.group, o.author);
      if author !in members || members[author].removed || members[author].role != D.ADMIN || o.author !in devices {
        return Err(Unauthorized);
      }
      if !check(devices[o.author].publicKey, operation, signature) {
        return Err(InvalidCredentials);
      }
      r := Ok(());
    }

    /** The row of the target after the operation, if it can be applied. */
    method TargetRow(o: D.Membership) returns (r: Result<D.Member, ApiError>)
      ensures r == if o.remove
        then if D.ActiveMember(Log(), o.group, o.target) then Ok(members[(o.group, o.target)].(removed := true))
          else Err(InvalidInput)
        else if o.target in devices && !devices[o.target].revoked
          then Ok(D.Member(devices[o.target].account, o.role, false))
        else Err(InvalidInput)
    {
      if o.remove {
        var changed := (o.group, o.target) in members && !members[(o.group, o.target)].removed;
        return if changed then Ok(members[(o.group, o.target)].(removed := true)) else Err(InvalidInput);
      }
      if o.target !in devices || devices[o.target].revoked {
        return Err(InvalidInput);
      }
      r := Ok(D.Member(devices[o.target].account, o.role, false));
    }

    /** The operation is recorded before it is applied and marked after; a refusal in between drops it. */
    method RecordOperation(o: D.Membership, operation: Blob, signature: Signature) returns (r: Result<bool, ApiError>)
      requires 0 <= o.role <= 2 && operation == D.Payload(o)
      modifies this`operations, this`members
      ensures (Log(), r) == D.RecordOperation(old(Log()), o, signature)
    {
      hide D.Payload;
      var tx := operations[o.correlation := D.OperationRow(o.group, o.author, operation, signature, false)];
      var target := TargetRow(o);
      if target.Err? {
        return Err(target.error);
      }
      members := members[(o.group, o.target) := target.value];
      operations := tx[o.correlation := tx[o.correlation].(applied := true)];
      assert operations == old(operations)[o.correlation :=
        D.OperationRow(o.group, o.author, operation, signature, true)];
      r := Ok(false);
    }

    method ApplyMembershipOperation(o: D.Membership, signature: Signature) returns (r: Result<bool, ApiError>)
      requires Valid()
      modifies this`operations, this`members
      ensures Valid() && (Log(), r) == D.ApplyMembership(old(Log()), o, signature, check)
    {
      hide L.Sound, L.Extends, S.FamiliesAreChains, U.OneNameEach, D.Payload, D.RecordOperation;
      L.MembershipSound(Log(), o, signature, check);
      if o.role < 0 || o.role > 2 {
        return Err(InvalidInput);
      }
      var operation := D.Payload(o);
      var authorized := AuthorizeOperation(o, operation, signature);
      if authorized.Err? {
        return Err(authorized.error);
      }
      if o.correlation in operations {
        var stored := operations[o.correlation];
        return if stored.operation == operation && stored.signature == signature then Ok(true) else Err(Conflict);
      }
      r := RecordOperation(o, operation, signature);
    }

    /* ---------- Events ---------- */

    /** What an upload must satisfy before the log is looked at. */
    method CheckUpload(e: D.UploadedEvent) returns (r: Result<(), ApiError>)
      ensures r == match D.Refusal(Log(), e) case Some(error) => Err(error) case None => Ok(())
    {
      if e.ciphertext == [] || |e.ciphertext| > D.MAX_CIPHERTEXT {
        return Err(InvalidInput);
      }
      var allowed := AssertActiveMember(e.group, e.author);
      if allowed.Err? {
        return Err(allowed.error);
      }
      if e.kind == D.KIND_MLS_COMMIT && e.correlation.None? {
        return Err(InvalidInput);
      }
      if e.correlation.Some? {
        var c := e.correlation.value;
        if c !in operations || operations[c].group != e.group || !operations[c].applied {
          return Err(Conflict);
        }
      }
      r := Ok(());
    }

    /** An insert that fails has still drawn a cursor. */
    method InsertEvent(e: D.UploadedEvent, now: Time) returns (r: Result<D.Accepted, ApiError>)
      modifies this`events, this`nextCursor
      ensures (Log(), r) == D.InsertEvent(old(Log()), e, now)
    {
      var cursor := nextCursor;
      nextCursor := nextCursor + 1;
      if exists i :: 0 <= i < |events| && events[i].eventId == e.eventId {
        return Err(Database);
      }
      var row := D.EventRow(
        cursor, e.eventId, e.group, e.author, e.clientMessageId, e.kind, e.ciphertext, e.correlation,
          now + D.EVENT_TTL);
      events := events + [row];
      r := Ok(D.Accepted(cursor, false));
    }

    /** The idempotency key is looked up before the insert. */
    method UploadEvent(e: D.UploadedEvent, now: Time) returns (r: Result<D.Accepted, ApiError>)
      requires Valid()
      modifies this`events, this`nextCursor
      ensures Valid() && (Log(), r) == D.UploadEvent(old(Log()), e, now)
    {
      hide L.Sound, L.Extends, S.FamiliesAreChains, U.OneNameEach, D.InsertEvent, D.Refusal;
      L.UploadSound(Log(), e, now, check);
      var accepted := CheckUpload(e);
      if accepted.Err? {
        return Err(accepted.error);
      }
      var prior := D.FindEvent(events, e.author, e.clientMessageId);
      if prior.Some? {
        var row := events[prior.value];
        return if row.eventId == e.eventId && row.ciphertext == e.ciphertext then Ok(D.Accepted(row.cursor, true))
          else Err(Conflict);
      }
      r := InsertEvent(e, now);
    }

    /** A scan by cursor that stops at the limit. */
    method SyncGroup(device: Id, group: Id, after: int, limit: int, now: Time)
        returns (r: Result<seq<D.EventRow>, ApiError>)
      ensures r == D.SyncGroup(Log(), device, group, after, limit, now)
    {
      hide Collect;
      var allowed := AssertActiveMember(group, device);
      if allowed.Err? {
        return Err(allowed.error);
      }
      var most := D.Clamp(limit, 1, D.MAX_SYNC_BATCH);
      var matching := D.Visible(group, after, now);
      var page: seq<D.EventRow> := [];
      var i := 0;
      NothingCollected(matching);
      while i < |events| && |page| < most
        invariant 0 <= i <= |events| && |page| <= most
        invariant page == Collect(events[..i], matching)
      {
        assert events[..i + 1] == events[..i] + [events[i]];
        CollectAppend(events[..i], events[i], matching);
        var row := events[i];
        if row.group == group && row.cursor > (if after < 0 then 0 else after) && row.expiresAt > now {
          page := page + [row];
        }
        i := i + 1;
      }
      assert events == events[..i] + events[i..];
      CollectConcat(events[..i], events[i..], matching);
      assert i == |events| ==> events[i..] == [];
      PrefixReached(page, Collect(events[i..], matching), most);
      r := Ok(page);
    }

    /** Which expired rows go first is up to the database. */
    method CleanupExpiredEvents(victims: set<nat>, batch: int, now: Time) returns (deleted: nat)
      requires Valid() && D.MayDelete(Log(), victims, batch, now)
      modifies this`events
      ensures Valid() && Log() == D.Cleanup(old(Log()), victims, batch, now) && deleted == |victims|
    {
      hide L.Sound, L.Extends, S.FamiliesAreChains, U.OneNameEach, D.MayDelete, Collect;
      L.CleanupSound(Log(), victims, batch, now, check);
      var kept: seq<D.EventRow> := [];
      NothingCollected(D.Surviving(victims));
      for i := 0 to |events|
        invariant events == old(events)
        invariant kept == Collect(events[..i], D.Surviving(victims))
      {
        assert events[..i + 1] == events[..i] + [events[i]];
        CollectAppend(events[..i], events[i], D.Surviving(victims));
        if events[i].cursor !in victims {
          kept := kept + [events[i]];
        }
      }
      assert events[..|events|] == events;
      events := kept;
      deleted := |victims|;
    }
  }

  lemma CompletionKeepsChains(t: S.Tables, devices: map<Id, Device>, id: Id, signature: Signature,
      check: SignatureCheck, drawn: S.Drawn, now: Time)
    requires S.FamiliesAreChains(t.refresh) && forall h :: h in t.refresh ==> t.refresh[h].family != drawn.family
    ensures S.FamiliesAreChains(S.CompleteChallenge(t, devices, id, signature, check, drawn, now).0.refresh)
  {
    hide S.FamiliesAreChains, S.CompleteChallenge;
    S.StepKeepsChains(t, S.Timed(S.Complete(id, signature, drawn), devices, now), check);
  }

  lemma RotationKeepsChains(t: S.Tables, devices: map<Id, Device>, device: Id, token: S.Token, signature: Signature,
      check: SignatureCheck, drawn: S.Drawn, now: Time)
    requires S.FamiliesAreChains(t.refresh)
    ensures S.FamiliesAreChains(S.RotateRefresh(t, devices, device, token, signature, check, drawn, now).0.refresh)
  {
    hide S.FamiliesAreChains, S.RotateRefresh;
    S.StepKeepsChains(t, S.Timed(S.Rotate(device, token, signature, drawn), devices, now), check);
  }

  lemma PrefixReached<T>(page: seq<T>, rest: seq<T>, most: nat)
    requires |page| <= most && (rest == [] || |page| == most)
    ensures D.Prefix(page + rest, most) == page
  {
    if rest == [] {
      assert page + rest == page;
    }
  }

  lemma NothingCollected(pick: D.EventRow -> Option<D.EventRow>)
    ensures Collect([], pick) == []
  {
  }
}
