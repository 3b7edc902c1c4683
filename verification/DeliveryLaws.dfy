/** What every run of the delivery service keeps: the event log is an ordered, idempotent log, and
    every recorded operation was signed by its author and applied. */
module DeliveryLaws {
  import opened Results
  import opened Bytes
  import opened Sequences
  import opened Api
  import opened Delivery

  /* ---------- Invariants of the tables ---------- */

  ghost predicate MembersKnown(t: Tables) {
    forall k :: k in t.members ==> k.0 in t.groups && k.1 in t.devices
  }

  /** The signed octets say what the row says. */
  ghost predicate Faithful(id: Id, row: OperationRow) {
    && |row.operation| == 100
    && var o := ParsePayload(row.operation);
      && o.correlation == id && o.group == row.group && o.author == row.author
      && 0 <= o.role <= 2 && row.operation == Payload(o)
  }

  /** Every recorded operation was applied, and was signed by its author. */
  ghost predicate OperationsSound(devices: map<Id, Device>, operations: map<Id, OperationRow>, check: SignatureCheck) {
    forall id :: id in operations ==>
      var row := operations[id];
      && row.applied && Faithful(id, row)
      && row.author in devices && check(devices[row.author].publicKey, row.operation, row.signature)
  }

  ghost predicate CursorOrder(events: seq<EventRow>) {
    forall i, j :: 0 <= i < j < |events| ==> events[i].cursor < events[j].cursor
  }

  /** At most one row an idempotency key, and at most one an event id. */
  ghost predicate KeysUnique(events: seq<EventRow>) {
    forall i, j :: 0 <= i < j < |events| ==> Unlike(events[i], events[j])
  }

  predicate Unlike(a: EventRow, b: EventRow) {
    !(a.author == b.author && a.clientMessageId == b.clientMessageId) && a.eventId != b.eventId
  }

  /** A correlated event, and so every MLS commit, names an applied operation of its group. */
  ghost predicate EventSound(operations: map<Id, OperationRow>, nextCursor: nat, e: EventRow) {
    && 1 <= e.cursor < nextCursor
    && (e.kind == KIND_MLS_COMMIT ==> e.correlation.Some?)
    && (e.correlation.Some? ==> var c := e.correlation.value;
      c in operations && operations[c].group == e.group && operations[c].applied)
    && 0 < |e.ciphertext| <= MAX_CIPHERTEXT
  }

  ghost predicate EventsSound(t: Tables) {
    && CursorOrder(t.events) && KeysUnique(t.events) && t.nextCursor >= 1
    && forall i :: 0 <= i < |t.events| ==> EventSound(t.operations, t.nextCursor, t.events[i])
  }

  ghost predicate Sound(t: Tables, check: SignatureCheck) {
    MembersKnown(t) && OperationsSound(t.devices, t.operations, check) && EventsSound(t)
  }

  lemma EmptySound(check: SignatureCheck)
    ensures Sound(EMPTY, check)
  {
  }

  /* ---------- Growth: what a step can never undo ---------- */

  ghost predicate DevicesKept(d: map<Id, Device>, e: map<Id, Device>) {
    forall x :: x in d ==> x in e && e[x].account == d[x].account && e[x].publicKey == d[x].publicKey
  }

  ghost predicate OperationsKept(o: map<Id, OperationRow>, p: map<Id, OperationRow>) {
    forall x :: x in o ==> x in p && p[x] == o[x]
  }

  /** Devices keep account and key, operations stay as recorded, and a new event has a new cursor. */
  ghost predicate Extends(t: Tables, u: Tables) {
    && DevicesKept(t.devices, u.devices) && OperationsKept(t.operations, u.operations)
    && t.nextCursor <= u.nextCursor
    && forall e :: e in u.events ==> e in t.events || e.cursor >= t.nextCursor
  }

  lemma ExtendsTrans(t: Tables, u: Tables, v: Tables)
    requires Extends(t, u) && Extends(u, v)
    ensures Extends(t, v)
  {
  }

  /* ---------- The event log ---------- */

  lemma AppendSound(t: Tables, row: EventRow)
    requires EventsSound(t) && row.cursor == t.nextCursor
    requires forall i :: 0 <= i < |t.events| ==> Unlike(t.events[i], row)
    requires EventSound(t.operations, t.nextCursor + 1, row)
    ensures EventsSound(t.(events := t.events + [row], nextCursor := t.nextCursor + 1))
  {
    forall i | 0 <= i < |t.events|
      ensures t.events[i].cursor < row.cursor && EventSound(t.operations, t.nextCursor + 1, t.events[i])
    {
      assert EventSound(t.operations, t.nextCursor, t.events[i]);
    }
  }

  /** The stored row that an answer to an upload speaks of. */
  ghost predicate Answers(row: EventRow, e: UploadedEvent, cursor: nat) {
    && row.author == e.author && row.clientMessageId == e.clientMessageId
    && row.eventId == e.eventId && row.ciphertext == e.ciphertext && row.cursor == cursor
  }

  ghost predicate Recorded(events: seq<EventRow>, e: UploadedEvent, cursor: nat) {
    exists i :: 0 <= i < |events| && Answers(events[i], e, cursor)
  }

  lemma InsertResult(t: Tables, e: UploadedEvent, now: Time)
    requires EventsSound(t) && Refusal(t, e).None? && FindEvent(t.events, e.author, e.clientMessageId).None?
    ensures var (u, r) := InsertEvent(t, e, now);
      && u == t.(events := u.events, nextCursor := t.nextCursor + 1) && EventsSound(u)
      && match r
         case Ok(a) => u.events == t.events + [NewRow(t, e, now)] && a == Accepted(t.nextCursor, false)
           && Recorded(u.events, e, a.cursor)
         case Err(x) => u.events == t.events && x == Database
  {
    var (u, r) := InsertEvent(t, e, now);
    if r.Ok? {
      AppendSound(t, NewRow(t, e, now));
      assert Answers(u.events[|t.events|], e, t.nextCursor);
    } else {
      BurntCursor(t);
    }
  }

  /** An accepted upload is in the log under its key, with its id and its ciphertext. It is called a
      duplicate exactly when it was there before, and then, or when it is refused, the log is as it was. */
  lemma UploadResult(t: Tables, e: UploadedEvent, now: Time)
    requires EventsSound(t)
    ensures var (u, r) := UploadEvent(t, e, now);
      && u == t.(events := u.events, nextCursor := u.nextCursor) && EventsSound(u)
      && t.nextCursor <= u.nextCursor
      && match r
         case Ok(a) =>
           && Refusal(t, e).None? && Recorded(u.events, e, a.cursor)
           && (a.duplicate ==> u == t)
           && (!a.duplicate ==> FindEvent(t.events, e.author, e.clientMessageId).None?)
           && (!a.duplicate ==> a.cursor == t.nextCursor)
           && (!a.duplicate ==> u.events == t.events + [NewRow(t, e, now)])
         case Err(_) => u.events == t.events
  {
    hide EventsSound, Refusal, NewRow;
    if Refusal(t, e).None? {
      match FindEvent(t.events, e.author, e.clientMessageId)
      case None => InsertResult(t, e, now);
      case Some(i) =>
        var r := UploadEvent(t, e, now).1;
        if r.Ok? {
          assert Answers(t.events[i], e, r.value.cursor);
        }
    }
  }

  ghost predicate KeyTaken(events: seq<EventRow>, e: UploadedEvent) {
    exists i :: 0 <= i < |events| && events[i].author == e.author && events[i].clientMessageId == e.clientMessageId
  }

  ghost predicate StoredAlready(events: seq<EventRow>, e: UploadedEvent) {
    exists i :: 0 <= i < |events| && events[i].author == e.author && events[i].clientMessageId == e.clientMessageId
      && events[i].eventId == e.eventId && events[i].ciphertext == e.ciphertext
  }

  ghost predicate IdTaken(events: seq<EventRow>, id: Id) {
    exists i :: 0 <= i < |events| && events[i].eventId == id
  }

  /** An upload is accepted exactly when it is of an acceptable size and comes from an active member, when
      its correlation, which a commit must have, is an applied operation of the group, and when it is
      stored already or both its key and its event id are new. */
  lemma UploadAcceptedIff(t: Tables, e: UploadedEvent, now: Time)
    requires KeysUnique(t.events)
    ensures UploadEvent(t, e, now).1.Ok? <==>
      && 0 < |e.ciphertext| <= 65536
      && (e.group, e.author) in t.members && !t.members[(e.group, e.author)].removed
      && (e.kind == 2 ==> e.correlation.Some?)
      && (e.correlation.Some? ==>
          var c := e.correlation.value;
          c in t.operations && t.operations[c].group == e.group && t.operations[c].applied)
      && (StoredAlready(t.events, e) || (!KeyTaken(t.events, e) && !IdTaken(t.events, e.eventId)))
    ensures UploadEvent(t, e, now).1.Ok? ==> UploadEvent(t, e, now).1.value.duplicate == StoredAlready(t.events, e)
  {
    hide FindEvent, NewRow;
    match FindEvent(t.events, e.author, e.clientMessageId)
    case None =>
    case Some(k) =>
      forall i | 0 <= i < |t.events| && i != k
        ensures !(t.events[i].author == e.author && t.events[i].clientMessageId == e.clientMessageId)
      {
        assert i < k ==> Unlike(t.events[i], t.events[k]);
        assert k < i ==> Unlike(t.events[k], t.events[i]);
      }
  }

  /** How an upload is refused, and that this leaves the tables alone; a failed insert burns a cursor. */
  lemma UploadRefusals(t: Tables, e: UploadedEvent, now: Time)
    requires KeysUnique(t.events) && UploadEvent(t, e, now).1.Err?
    ensures UploadEvent(t, e, now).0 ==
      if UploadEvent(t, e, now).1.error == Database then t.(nextCursor := t.nextCursor + 1) else t
    ensures UploadEvent(t, e, now).1.error ==
      if !(0 < |e.ciphertext| <= 65536) then InvalidInput
      else if (e.group, e.author) !in t.members || t.members[(e.group, e.author)].removed then Unauthorized
      else if e.kind == 2 && e.correlation.None? then InvalidInput
      else if e.correlation.Some? && !AppliedOperation(t, e.group, e.correlation.value) then Conflict
      else if KeyTaken(t.events, e) then Conflict else Database
  {
    hide FindEvent, NewRow;
  }

  lemma BurntCursor(t: Tables)
    requires EventsSound(t)
    ensures EventsSound(t.(nextCursor := t.nextCursor + 1))
  {
    forall i | 0 <= i < |t.events|
      ensures EventSound(t.operations, t.nextCursor + 1, t.events[i])
    {
      assert EventSound(t.operations, t.nextCursor, t.events[i]);
    }
  }

  /** Retention only removes rows, and only expired ones. */
  lemma CleanupResult(t: Tables, victims: set<nat>, batch: int, now: Time)
    requires EventsSound(t)
    ensures var u := Cleanup(t, victims, batch, now);
      && u == t.(events := u.events) && EventsSound(u)
      && (forall e :: e in u.events ==> e in t.events)
      && (forall e :: e in t.events && e !in u.events ==> e.cursor in victims && e.expiresAt <= now)
  {
    var u := Cleanup(t, victims, batch, now);
    if MayDelete(t, victims, batch, now) {
      CollectMembers(t.events, Surviving(victims));
      DeletedExpired(t, victims, batch, now);
      assert forall i :: 0 <= i < |u.events| ==> u.events[i] in u.events;
      CollectKeepsSound(t, Surviving(victims));
    }
  }

  lemma DeletedExpired(t: Tables, victims: set<nat>, batch: int, now: Time)
    requires CursorOrder(t.events) && MayDelete(t, victims, batch, now)
    ensures forall e :: e in t.events && e.cursor in victims ==> e.expiresAt <= now
  {
    forall e | e in t.events && e.cursor in victims
      ensures e.expiresAt <= now
    {
      assert e.cursor in ExpiredCursors(t, now);
    }
  }

  lemma CollectKeepsSound(t: Tables, pick: EventRow -> Option<EventRow>)
    requires EventsSound(t) && forall x, y :: pick(x) == Some(y) ==> x == y
    ensures EventsSound(t.(events := Collect(t.events, pick)))
  {
    var rows := Collect(t.events, pick);
    var before := (a: EventRow, b: EventRow) => a.cursor < b.cursor && Unlike(a, b);
    CollectOrdered(t.events, pick, before);
    CollectMembers(t.events, pick);
    hide Collect;
    forall i, j | 0 <= i < j < |rows|
      ensures rows[i].cursor < rows[j].cursor && Unlike(rows[i], rows[j])
    {
      assert before(rows[i], rows[j]);
    }
    forall i | 0 <= i < |rows|
      ensures EventSound(t.operations, t.nextCursor, rows[i])
    {
      assert rows[i] in rows;
    }
  }

  /* ---------- One step, and runs ---------- */

  lemma EventsUnderMoreOperations(t: Tables, operations: map<Id, OperationRow>)
    requires EventsSound(t) && OperationsKept(t.operations, operations)
    ensures EventsSound(t.(operations := operations))
  {
    forall i | 0 <= i < |t.events|
      ensures EventSound(operations, t.nextCursor, t.events[i])
    {
      assert EventSound(t.operations, t.nextCursor, t.events[i]);
    }
  }

  lemma OperationsUnderMoreDevices(d: map<Id, Device>, e: map<Id, Device>, operations: map<Id, OperationRow>,
      check: SignatureCheck)
    requires OperationsSound(d, operations, check) && DevicesKept(d, e)
    ensures OperationsSound(e, operations, check)
  {
    hide Faithful;
  }

  lemma RecordedFaithful(o: Membership, signature: Signature)
    requires 0 <= o.role <= 2
    ensures Faithful(o.correlation, OperationRow(o.group, o.author, Payload(o), signature, true))
  {
    PayloadInverse(o);
  }

  lemma MembershipSound(t: Tables, o: Membership, signature: Signature, check: SignatureCheck)
    requires Sound(t, check)
    ensures var u := ApplyMembership(t, o, signature, check).0;
      Sound(u, check) && Extends(t, u) && u == t.(operations := u.operations, members := u.members)
  {
    hide Payload, ParsePayload, EventsSound, Faithful;
    var (u, r) := ApplyMembership(t, o, signature, check);
    if r == Ok(false) {
      RecordedFaithful(o, signature);
      EventsUnderMoreOperations(t, u.operations);
      SoundEventsOnly(t.(operations := u.operations), u);
    }
  }

  lemma SoundEventsOnly(t: Tables, u: Tables)
    requires EventsSound(t) && u.events == t.events && u.operations == t.operations && u.nextCursor == t.nextCursor
    ensures EventsSound(u)
  {
  }

  /** Registration and plain group calls leave the logs alone. */
  lemma RegistrySound(t: Tables, u: Tables, check: SignatureCheck)
    requires Sound(t, check) && MembersKnown(u) && DevicesKept(t.devices, u.devices)
    requires u == t.(accounts := u.accounts, devices := u.devices, certificates := u.certificates, groups := u.groups,
      members := u.members)
    ensures Sound(u, check) && Extends(t, u)
  {
    hide EventsSound, OperationsSound, MembersKnown, DevicesKept;
    SoundEventsOnly(t, u);
    OperationsUnderMoreDevices(t.devices, u.devices, t.operations, check);
  }

  lemma RegisterSound(t: Tables, account: Bytes32, root: Bytes32, c: DeviceCertificate, certified: bool,
      check: SignatureCheck)
    requires Sound(t, check)
    ensures var u := RegisterDevice(t, account, root, c, certified).0; Sound(u, check) && Extends(t, u)
  {
    hide EventsSound, OperationsSound;
    RegistrySound(t, RegisterDevice(t, account, root, c, certified).0, check);
  }

  lemma RevokeSound(t: Tables, device: Id, check: SignatureCheck)
    requires Sound(t, check)
    ensures var u := RevokeDevice(t, device); Sound(u, check) && Extends(t, u)
  {
    hide EventsSound, OperationsSound;
    RegistrySound(t, RevokeDevice(t, device), check);
  }

  lemma GroupSound(t: Tables, call: Call, check: SignatureCheck)
    requires Sound(t, check) && (call.NewGroup? || call.Add?)
    ensures var u := Step(t, call, check); Sound(u, check) && Extends(t, u)
  {
    hide EventsSound, OperationsSound, ApplyMembership, UploadEvent, Cleanup, RegisterDevice, RevokeDevice;
    RegistrySound(t, Step(t, call, check), check);
  }

  lemma UploadSound(t: Tables, e: UploadedEvent, now: Time, check: SignatureCheck)
    requires Sound(t, check)
    ensures var u := UploadEvent(t, e, now).0; Sound(u, check) && Extends(t, u)
  {
    hide UploadEvent, Faithful, EventsSound, Extends;
    UploadResult(t, e, now);
    UploadExtends(t, e, now);
  }

  lemma CleanupSound(t: Tables, victims: set<nat>, batch: int, now: Time, check: SignatureCheck)
    requires Sound(t, check)
    ensures var u := Cleanup(t, victims, batch, now); Sound(u, check) && Extends(t, u)
  {
    hide Cleanup, Faithful, EventsSound;
    CleanupResult(t, victims, batch, now);
  }

  lemma StepSound(t: Tables, call: Call, check: SignatureCheck)
    requires Sound(t, check)
    ensures var u := Step(t, call, check); Sound(u, check) && Extends(t, u)
  {
    hide Sound, Extends, RegisterDevice, RevokeDevice, CreateGroup, AddMember, ApplyMembership, UploadEvent, Cleanup;
    match call
    case Expire(victims, batch, now) => CleanupSound(t, victims, batch, now, check);
    case Upload(e, now) => UploadSound(t, e, now, check);
    case Apply(o, signature) => MembershipSound(t, o, signature, check);
    case Register(account, root, certificate, certified) =>
      RegisterSound(t, account, root, certificate, certified, check);
    case Revoke(device) => RevokeSound(t, device, check);
    case NewGroup(_, _, _) => GroupSound(t, call, check);
    case Add(_, _, _, _) => GroupSound(t, call, check);
  }

  lemma UploadExtends(t: Tables, e: UploadedEvent, now: Time)
    requires EventsSound(t)
    ensures Extends(t, UploadEvent(t, e, now).0)
  {
    UploadResult(t, e, now);
    hide UploadEvent, EventsSound;
  }

  /** In every reachable state of the service the tables are sound, and nothing recorded is undone. */
  lemma {:induction false} RunSound(t: Tables, calls: seq<Call>, check: SignatureCheck)
    requires Sound(t, check)
    ensures Sound(Run(t, calls, check), check) && Extends(t, Run(t, calls, check))
    decreases |calls|
  {
    hide Sound, Step;
    if calls != [] {
      var before := Run(t, calls[..|calls| - 1], check);
      RunSound(t, calls[..|calls| - 1], check);
      StepSound(before, calls[|calls| - 1], check);
      ExtendsTrans(t, before, Run(t, calls, check));
    }
  }

  /* ---------- Accounts and devices ---------- */

  ghost predicate RootsDistinct(accounts: map<Bytes32, Bytes32>) {
    forall a, b :: a in accounts && b in accounts && a != b ==> accounts[a] != accounts[b]
  }

  ghost predicate KeysDistinct(devices: map<Id, Device>) {
    forall d, e :: d in devices && e in devices && d != e && devices[d].account == devices[e].account ==>
      devices[d].publicKey != devices[e].publicKey
  }

  /** One root an account, one key a device of an account, and no device without its account and its
      certificate. */
  ghost predicate RegistryOf(t: Tables) {
    && RootsDistinct(t.accounts) && KeysDistinct(t.devices)
    && (forall d :: d in t.devices ==> t.devices[d].account in t.accounts)
    && t.certificates.Keys == t.devices.Keys
  }

  /** Accounts keep their root, certificates stay, and a revoked device stays revoked. */
  ghost predicate RegistryKept(t: Tables, u: Tables) {
    && (forall a :: a in t.accounts ==> a in u.accounts && u.accounts[a] == t.accounts[a])
    && (forall d :: d in t.certificates ==> d in u.certificates && u.certificates[d] == t.certificates[d])
    && (forall d :: d in t.devices ==> d in u.devices && (t.devices[d].revoked ==> u.devices[d].revoked))
  }

  lemma RootsGrow(accounts: map<Bytes32, Bytes32>, account: Bytes32, root: Bytes32)
    requires RootsDistinct(accounts)
    requires if account in accounts then accounts[account] == root else root !in accounts.Values
    ensures RootsDistinct(accounts[account := root])
  {
  }

  lemma KeysGrow(devices: map<Id, Device>, id: Id, device: Device)
    requires KeysDistinct(devices) && id !in devices
    requires forall d :: d in devices && devices[d].account == device.account ==>
      devices[d].publicKey != device.publicKey
    ensures KeysDistinct(devices[id := device])
  {
  }

  lemma RegisterRegistry(t: Tables, account: Bytes32, root: Bytes32, c: DeviceCertificate, certified: bool)
    requires RegistryOf(t)
    ensures var u := RegisterDevice(t, account, root, c, certified).0;
      RegistryOf(u) && RegistryKept(t, u)
  {
    hide RootsDistinct, KeysDistinct;
    if RegisterDevice(t, account, root, c, certified).1.Ok? {
      RootsGrow(t.accounts, account, root);
      KeysGrow(t.devices, c.device, Device(account, c.publicKey, false));
    }
  }

  lemma RevokeRegistry(t: Tables, device: Id)
    requires RegistryOf(t)
    ensures var u := RevokeDevice(t, device); RegistryOf(u) && RegistryKept(t, u)
  {
    hide RootsDistinct, KeysDistinct, RevokeDevice;
    RevokedDevices(t, device);
    KeysSame(t.devices, RevokeDevice(t, device).devices);
  }

  lemma RevokedDevices(t: Tables, device: Id)
    ensures var u := RevokeDevice(t, device);
      && u == t.(devices := u.devices) && u.devices.Keys == t.devices.Keys
      && forall d :: d in t.devices ==>
          u.devices[d] == Device(t.devices[d].account, t.devices[d].publicKey, t.devices[d].revoked || d == device)
  {
  }

  lemma KeysSame(d: map<Id, Device>, e: map<Id, Device>)
    requires KeysDistinct(d) && e.Keys == d.Keys
    requires forall x :: x in d ==> e[x].account == d[x].account && e[x].publicKey == d[x].publicKey
    ensures KeysDistinct(e)
  {
  }

  lemma StepRegistry(t: Tables, call: Call, check: SignatureCheck)
    requires RegistryOf(t)
    ensures var u := Step(t, call, check); RegistryOf(u) && RegistryKept(t, u)
  {
    hide RegisterDevice, RevokeDevice, RootsDistinct, KeysDistinct, CreateGroup, AddMember, ApplyMembership,
      UploadEvent, Cleanup;
    if call.Register? {
      RegisterRegistry(t, call.account, call.root, call.certificate, call.certified);
    } else if call.Revoke? {
      RevokeRegistry(t, call.device);
    } else {
      RegistryUntouched(t, call, check);
    }
  }

  lemma RegistryUntouched(t: Tables, call: Call, check: SignatureCheck)
    requires !call.Register? && !call.Revoke?
    ensures var u := Step(t, call, check);
      u.accounts == t.accounts && u.devices == t.devices && u.certificates == t.certificates
  {
    hide RegisterDevice, RevokeDevice, ApplyMembership, UploadEvent, MayDelete, Collect;
    match call
    case Apply(o, signature) => ApplyTouchesMembers(t, o, signature, check);
    case Upload(e, now) => UploadTouchesEvents(t, e, now);
    case _ =>
  }

  lemma ApplyTouchesMembers(t: Tables, o: Membership, signature: Signature, check: SignatureCheck)
    ensures var u := ApplyMembership(t, o, signature, check).0;
      u == t.(operations := u.operations, members := u.members)
  {
    hide Payload;
  }

  lemma UploadTouchesEvents(t: Tables, e: UploadedEvent, now: Time)
    ensures var u := UploadEvent(t, e, now).0; u == t.(events := u.events, nextCursor := u.nextCursor)
  {
    hide FindEvent, NewRow, Refusal;
  }

  /** Over every run the registry is sound, accounts keep their roots and revocation is for good. */
  lemma {:induction false} RunRegistry(t: Tables, calls: seq<Call>, check: SignatureCheck)
    requires RegistryOf(t)
    ensures var u := Run(t, calls, check); RegistryOf(u) && RegistryKept(t, u)
    decreases |calls|
  {
    hide Step, RegistryOf;
    if calls != [] {
      RunRegistry(t, calls[..|calls| - 1], check);
      StepRegistry(Run(t, calls[..|calls| - 1], check), calls[|calls| - 1], check);
    }
  }
}
