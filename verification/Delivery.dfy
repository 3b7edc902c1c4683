/** The delivery service as a state machine over its tables: devices, groups, members, the log of
    signed membership operations and the event log. Each call is one atomic step. */
module Delivery {
  import opened Results
  import opened Bytes
  import opened Sequences
  import opened Api

  const EVENT_TTL := 604800
  const MAX_SYNC_BATCH := 50
  const MAX_CIPHERTEXT := 65536
  const KIND_MLS_COMMIT := 2
  const ADMIN := 2

  datatype Member = Member(account: Bytes32, role: int, removed: bool)

  datatype OperationRow = OperationRow(group: Id, author: Id, operation: Blob, signature: Signature, applied: bool)

  /** What the certificate of a device certifies, and its signature. */
  datatype DeviceCertificate = DeviceCertificate(device: Id, publicKey: Bytes32, issuedAt: U64, signature: Signature)

  datatype CertificateRow = CertificateRow(signature: Signature, issuedAt: U64)

  datatype EventRow = EventRow(
    cursor: nat, eventId: Id, group: Id, author: Id, clientMessageId: Id,
    kind: int, ciphertext: Blob, correlation: Option<Id>, expiresAt: Time)

  /** `events` is in the order of insertion, which is the order of the generated cursors. */
  datatype Tables = Tables(
    accounts: map<Bytes32, Bytes32>, devices: map<Id, Device>, certificates: map<Id, CertificateRow>,
    groups: map<Id, Id>, members: map<(Id, Id), Member>,
    operations: map<Id, OperationRow>, events: seq<EventRow>, nextCursor: nat)

  const EMPTY := Tables(map[], map[], map[], map[], map[], map[], [], 1)

  predicate ActiveMember(t: Tables, group: Id, device: Id) {
    (group, device) in t.members && !t.members[(group, device)].removed
  }

  /* ---------- Devices and groups ---------- */

  /** A time of issue that a signed 64-bit column cannot hold is stored as a negative one, which the
      column's constraint refuses. */
  const MAX_ISSUED_AT: U64 := 0x7FFF_FFFF_FFFF_FFFF

  /** The account has a device with this key. */
  predicate KeyInUse(devices: map<Id, Device>, account: Bytes32, publicKey: Bytes32) {
    exists d :: d in devices && devices[d].account == account && devices[d].publicKey == publicKey
  }

  /** `certified` is the outcome of checking the account id and the certificate. */
  function RegisterDevice(t: Tables, account: Bytes32, root: Bytes32, c: DeviceCertificate, certified: bool)
    : (Tables, Result<(), ApiError>)
  {
    if !certified then (t, Err(InvalidCredentials))
    else if c.device in t.devices then (t, Err(Replay))
    else if account !in t.accounts && root in t.accounts.Values then (t, Err(Database))
    else if account in t.accounts && t.accounts[account] != root then (t, Err(Conflict))
    else if KeyInUse(t.devices, account, c.publicKey) then (t, Err(Database))
    else if c.device in t.certificates || c.issuedAt > MAX_ISSUED_AT then (t, Err(Database))
    else (t.(accounts := t.accounts[account := root],
             devices := t.devices[c.device := Device(account, c.publicKey, false)],
             certificates := t.certificates[c.device := CertificateRow(c.signature, c.issuedAt)]), Ok(()))
  }

  /** An operator revokes a device; no call of the service does. */
  function RevokeDevice(t: Tables, device: Id): Tables {
    if device in t.devices then t.(devices := t.devices[device := t.devices[device].(revoked := true)]) else t
  }

  function CreateGroup(t: Tables, group: Id, creator: Id, account: Bytes32): (Tables, Result<(), ApiError>) {
    if !(creator in t.devices && t.devices[creator].account == account && !t.devices[creator].revoked)
      then (t, Err(Unauthorized))
    else if group in t.groups || (group, creator) in t.members then (t, Err(Database))
    else (t.(groups := t.groups[group := creator],
      members := t.members[(group, creator) := Member(account, ADMIN, false)]), Ok(()))
  }

  /** The table constraints are all that guards this one. */
  function AddMember(t: Tables, group: Id, device: Id, account: Bytes32, role: int): (Tables, Result<(), ApiError>) {
    if group !in t.groups || device !in t.devices || account !in t.accounts || !(0 <= role <= 2)
      || (group, device) in t.members
    then (t, Err(Database))
    else (t.(members := t.members[(group, device) := Member(account, role, false)]), Ok(()))
  }

  /* ---------- Signed membership operations ---------- */

  datatype Membership = Membership(correlation: Id, group: Id, author: Id, target: Id, role: int, remove: bool)

  const OPERATION_DOMAIN := "resilient/membership-operation/v1"

  /** What an administrator signs. */
  function Payload(o: Membership): Blob
    requires 0 <= o.role <= 2
  {
    Ascii(OPERATION_DOMAIN) + o.correlation + o.group + o.author + o.target + BigEndian(o.role, 2) +
      [if o.remove then 1 else 0]
  }

  /** The inverse of `Payload`, by position. */
  function ParsePayload(b: Blob): Membership
    requires |b| == 100
  {
    Membership(b[33..49], b[49..65], b[65..81], b[81..97], FromBigEndian(b[97..99]), b[99] == 1)
  }

  lemma PayloadInverse(o: Membership)
    requires 0 <= o.role <= 2
    ensures |Payload(o)| == 100 && ParsePayload(Payload(o)) == o
  {
    var b := Payload(o);
    Pow256Widths();
    DecodeBigEndian(o.role, 2);
    hide BigEndian, FromBigEndian, Ascii;
    assert b[33..49] == o.correlation;
    assert b[49..65] == o.group;
    assert b[65..81] == o.author;
    assert b[81..97] == o.target;
    assert b[97..99] == BigEndian(o.role, 2);
  }

  /** A new operation is recorded and applied at once, or refused. */
  function RecordOperation(t: Tables, o: Membership, signature: Signature): (Tables, Result<bool, ApiError>)
    requires 0 <= o.role <= 2
  {
    if o.remove && !ActiveMember(t, o.group, o.target) then (t, Err(InvalidInput)) else
    if !o.remove && !(o.target in t.devices && !t.devices[o.target].revoked) then (t, Err(InvalidInput)) else
    var row := OperationRow(o.group, o.author, Payload(o), signature, true);
    var member :=
      if o.remove then t.members[(o.group, o.target)].(removed := true)
      else Member(t.devices[o.target].account, o.role, false);
    (t.(operations := t.operations[o.correlation := row], members := t.members[(o.group, o.target) := member]),
      Ok(false))
  }

  function ApplyMembership(t: Tables, o: Membership, signature: Signature, check: SignatureCheck): (Tables,
      Result<bool, ApiError>) {
    if !(0 <= o.role <= 2) then (t, Err(InvalidInput)) else
    if !(ActiveMember(t, o.group, o.author) && t.members[(o.group, o.author)].role == ADMIN && o.author in t.devices)
      then (t, Err(Unauthorized)) else
    if !check(t.devices[o.author].publicKey, Payload(o), signature) then (t, Err(InvalidCredentials)) else
    if o.correlation in t.operations then
      var stored := t.operations[o.correlation];
      (t, if stored.operation == Payload(o) && stored.signature == signature then Ok(true) else Err(Conflict))
    else RecordOperation(t, o, signature)
  }

  /* ---------- Events ---------- */

  datatype UploadedEvent = UploadedEvent(
    eventId: Id, group: Id, author: Id, clientMessageId: Id, kind: int, ciphertext: Blob, correlation: Option<Id>)

  datatype Accepted = Accepted(cursor: nat, duplicate: bool)

  predicate AppliedOperation(t: Tables, group: Id, correlation: Id) {
    correlation in t.operations && t.operations[correlation].group == group && t.operations[correlation].applied
  }

  /** The row with this idempotency key, by position. */
  function FindEvent(events: seq<EventRow>, author: Id, client: Id): (r: Option<nat>)
    ensures r.Some? ==>
      r.value < |events| && events[r.value].author == author && events[r.value].clientMessageId == client
    ensures r.None? ==> forall i :: 0 <= i < |events| ==>
      !(events[i].author == author && events[i].clientMessageId == client)
  {
    if events == [] then None else
    var n := |events| - 1;
    if events[n].author == author && events[n].clientMessageId == client then Some(n)
    else FindEvent(events[..n], author, client)
  }

  function NewRow(t: Tables, e: UploadedEvent, now: Time): EventRow {
    EventRow(t.nextCursor, e.eventId, e.group, e.author, e.clientMessageId, e.kind, e.ciphertext, e.correlation,
      now + EVENT_TTL)
  }

  /** A failed insert still consumes a cursor: the sequence behind it is not transactional. */
  function InsertEvent(t: Tables, e: UploadedEvent, now: Time): (Tables, Result<Accepted, ApiError>) {
    if exists i :: 0 <= i < |t.events| && t.events[i].eventId == e.eventId
    then (t.(nextCursor := t.nextCursor + 1), Err(Database))
    else (t.(events := t.events + [NewRow(t, e, now)], nextCursor := t.nextCursor + 1),
      Ok(Accepted(t.nextCursor, false)))
  }

  /** What is checked before the log is looked at. */
  function Refusal(t: Tables, e: UploadedEvent): Option<ApiError> {
    if e.ciphertext == [] || |e.ciphertext| > MAX_CIPHERTEXT then Some(InvalidInput)
    else if !ActiveMember(t, e.group, e.author) then Some(Unauthorized)
    else if e.kind == KIND_MLS_COMMIT && e.correlation.None? then Some(InvalidInput)
    else if e.correlation.Some? && !AppliedOperation(t, e.group, e.correlation.value) then Some(Conflict)
    else None
  }

  function UploadEvent(t: Tables, e: UploadedEvent, now: Time): (Tables, Result<Accepted, ApiError>) {
    match Refusal(t, e)
    case Some(error) => (t, Err(error))
    case None =>
      match FindEvent(t.events, e.author, e.clientMessageId)
      case None => InsertEvent(t, e, now)
      case Some(i) =>
        var row := t.events[i];
        (t, if row.eventId == e.eventId && row.ciphertext == e.ciphertext then Ok(Accepted(row.cursor, true))
          else Err(Conflict))
  }

  function Clamp(n: int, low: int, high: int): int
    requires low <= high
  {
    if n < low then low else if n > high then high else n
  }

  function Visible(group: Id, after: int, now: Time): EventRow -> Option<EventRow> {
    (e: EventRow) => if e.group == group && e.cursor > (if after < 0 then 0 else after) && e.expiresAt > now
      then Some(e) else None
  }

  function Prefix<T>(s: seq<T>, n: nat): seq<T> {
    if |s| <= n then s else s[..n]
  }

  /** One page: the first matching rows by cursor, between 1 and 50 of them if there are that many. */
  function Page(events: seq<EventRow>, group: Id, after: int, limit: int, now: Time): seq<EventRow> {
    Prefix(Collect(events, Visible(group, after, now)), Clamp(limit, 1, MAX_SYNC_BATCH))
  }

  function SyncGroup(t: Tables, device: Id, group: Id, after: int, limit: int, now: Time): Result<seq<EventRow>,
      ApiError> {
    if ActiveMember(t, group, device) then Ok(Page(t.events, group, after, limit, now)) else Err(Unauthorized)
  }

  const MAX_CLEANUP_BATCH := 10000

  function ExpiredCursors(t: Tables, now: Time): set<nat> {
    set i | 0 <= i < |t.events| && t.events[i].expiresAt <= now :: t.events[i].cursor
  }

  /** Retention deletes expired rows, as many as there are up to the batch size; which of them is up
      to the database. */
  predicate MayDelete(t: Tables, victims: set<nat>, batch: int, now: Time) {
    var most := Clamp(batch, 1, MAX_CLEANUP_BATCH);
    var expired := ExpiredCursors(t, now);
    victims <= expired && |victims| == if |expired| < most then |expired| else most
  }

  function Surviving(victims: set<nat>): EventRow -> Option<EventRow> {
    (e: EventRow) => if e.cursor in victims then None else Some(e)
  }

  function Cleanup(t: Tables, victims: set<nat>, batch: int, now: Time): Tables {
    if MayDelete(t, victims, batch, now) then t.(events := Collect(t.events, Surviving(victims))) else t
  }

  /* ---------- Runs ---------- */

  datatype Call =
    | Register(account: Bytes32, root: Bytes32, certificate: DeviceCertificate, certified: bool)
    | Revoke(device: Id)
    | NewGroup(group: Id, device: Id, account: Bytes32)
    | Add(group: Id, device: Id, account: Bytes32, role: int)
    | Apply(operation: Membership, signature: Signature)
    | Upload(event: UploadedEvent, now: Time)
    | Expire(victims: set<nat>, batch: int, now: Time)

  function Step(t: Tables, call: Call, check: SignatureCheck): Tables {
    match call
    case Register(account, root, certificate, certified) => RegisterDevice(t, account, root, certificate, certified).0
    case Revoke(device) => RevokeDevice(t, device)
    case NewGroup(group, device, account) => CreateGroup(t, group, device, account).0
    case Add(group, device, account, role) => AddMember(t, group, device, account, role).0
    case Apply(operation, signature) => ApplyMembership(t, operation, signature, check).0
    case Upload(event, now) => UploadEvent(t, event, now).0
    case Expire(victims, batch, now) => Cleanup(t, victims, batch, now)
  }

  function Run(t: Tables, calls: seq<Call>, check: SignatureCheck): Tables
    decreases |calls|
  {
    if calls == [] then t else Step(Run(t, calls[..|calls| - 1], check), calls[|calls| - 1], check)
  }
}
