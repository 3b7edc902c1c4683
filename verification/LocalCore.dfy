/** The offline core as a state machine over its local tables, with the change counter that the
    table triggers keep. Each call is atomic, except that a retry may stop between its two statements. */
module LocalCore {
  import opened Results
  import opened Bytes
  import opened Sorting
  import opened Sequences

  type Key = s: Blob | |s| == 32 witness seq(32, _ => 0)

  /** Milliseconds since the epoch. */
  type Millis = nat

  datatype CoreError = Database | Authentication | InvalidTransition | NotFound

  datatype Status =
    | Draft | Queued | Encrypting | ReadyToUpload | Uploading | ServerAccepted
    | Delivered | Read | RetryScheduled | FailedPermanent | Cancelled
  {
    function Code(): nat {
      match this
      case Draft => 0 case Queued => 1 case Encrypting => 2 case ReadyToUpload => 3 case Uploading => 4
      case ServerAccepted => 5 case Delivered => 6 case Read => 7 case RetryScheduled => 8
      case FailedPermanent => 9 case Cancelled => 10
    }
  }

  /** Authenticated encryption: what was sealed under a key opens under that key only. */
  datatype Sealed = Sealed(key: Key, nonce: Blob, text: Blob)

  function Open(key: Key, body: Sealed): Result<Blob, CoreError> {
    if body.key == key then Ok(body.text) else Err(Authentication)
  }

  datatype Message = Message(conversation: Id, body: Sealed, status: Status, createdAt: Millis)
  datatype OutboxRow = OutboxRow(nextAttempt: Millis, attempts: nat)
  datatype InboxRow = InboxRow(conversation: Id, event: Blob, receivedAt: Millis)
  datatype MemberRow = MemberRow(account: Blob, removedAt: Option<Millis>)

  /** `order` lists the message ids by row id. */
  datatype Core = Core(
    key: Key, keyVersion: nat,
    conversations: map<Id, Millis>, messages: map<Id, Message>, order: seq<Id>, outbox: map<Id, OutboxRow>,
    inbox: map<Id, InboxRow>, members: map<(Id, Id), MemberRow>, revision: nat)

  function New(key: Key): Core {
    Core(key, 1, map[], map[], [], map[], map[], map[], 0)
  }

  /* ---------- Writes, with their triggers ---------- */

  function SetStatus(s: Core, id: Id, status: Status): Core
    requires id in s.messages
  {
    s.(messages := s.messages[id := s.messages[id].(status := status)], revision := s.revision + 1)
  }

  function InsertConversation(s: Core, conversation: Id, now: Millis): Core {
    if conversation in s.conversations then s
    else s.(conversations := s.conversations[conversation := now], revision := s.revision + 1)
  }

  function Unqueue(s: Core, id: Id): Core {
    s.(outbox := s.outbox - {id})
  }

  /* ---------- Calls ---------- */

  function CreateMessage(s: Core, id: Id, conversation: Id, text: Blob, nonce: Blob, now: Millis): (Core,
      Result<Id, CoreError>) {
    if id in s.messages || id in s.outbox then (s, Err(Database)) else
    var a := InsertConversation(s, conversation, now);
    (a.(messages := a.messages[id := Message(conversation, Sealed(s.key, nonce, text), ReadyToUpload, now)],
        order := a.order + [id],
        outbox := a.outbox[id := OutboxRow(now, 0)],
        conversations := a.conversations[conversation := now],
        revision := a.revision + 1), Ok(id))
  }

  predicate Uploadable(status: Status) {
    status.ReadyToUpload? || status.Uploading? || status.RetryScheduled?
  }

  function MarkUploadAccepted(s: Core, id: Id): (Core, Result<(), CoreError>) {
    if id !in s.messages then (s, Err(NotFound))
    else if Uploadable(s.messages[id].status) then (Unqueue(SetStatus(s, id, ServerAccepted), id), Ok(()))
    else if s.messages[id].status.ServerAccepted? then (Unqueue(s, id), Ok(()))
    else (s, Err(InvalidTransition))
  }

  function Delay(attempts: nat): nat {
    1000 * Pow2(if attempts < 10 then attempts else 10)
  }

  /** The first statement of a retry: the outbox row alone. */
  function Reschedule(s: Core, id: Id, now: Millis): Core
    requires id in s.outbox
  {
    s.(outbox := s.outbox[id := OutboxRow(now + Delay(s.outbox[id].attempts), s.outbox[id].attempts + 1)])
  }

  /** `complete` is false when the process stops between the two statements. */
  function RetryMessage(s: Core, id: Id, now: Millis, complete: bool): (Core, Result<(), CoreError>) {
    if id !in s.outbox then (s, Err(NotFound)) else
    var a := Reschedule(s, id, now);
    (if complete && id in a.messages then SetStatus(a, id, RetryScheduled) else a, Ok(()))
  }

  function CancelPendingMessage(s: Core, id: Id): (Core, Result<(), CoreError>) {
    if id in s.messages && (s.messages[id].status.Queued? || s.messages[id].status.ReadyToUpload?
      || s.messages[id].status.RetryScheduled?)
    then (Unqueue(SetStatus(s, id, Cancelled), id), Ok(()))
    else (s, Err(InvalidTransition))
  }

  /** A receipt raises the status; the outbox is not looked at. */
  function AdvanceStatus(s: Core, id: Id, status: Status): (Core, Result<(), CoreError>) {
    if id !in s.messages then (s, Err(NotFound))
    else if s.messages[id].status.Code() < status.Code() then (SetStatus(s, id, status), Ok(()))
    else (s, Ok(()))
  }

  datatype IncomingEvent = IncomingEvent(eventId: Id, conversation: Id, event: Blob)

  function IngestOne(s: Core, e: IncomingEvent, now: Millis): (Core, nat) {
    if e.eventId in s.inbox then (s, 0)
    else (s.(inbox := s.inbox[e.eventId := InboxRow(e.conversation, e.event, now)], revision := s.revision + 1), 1)
  }

  function IngestAll(s: Core, events: seq<IncomingEvent>, now: Millis): (Core, nat) {
    if events == [] then (s, 0) else
    var (a, n) := IngestAll(s, events[..|events| - 1], now);
    var (b, k) := IngestOne(a, events[|events| - 1], now);
    (b, n + k)
  }

  function IngestServerBatch(s: Core, events: seq<IncomingEvent>, now: Millis): (Core, Result<nat, CoreError>) {
    if |events| > 50 then (s, Err(InvalidTransition)) else
    var (a, n) := IngestAll(s, events, now);
    (a, Ok(n))
  }

  function AddMember(s: Core, conversation: Id, device: Id, account: Blob): (Core, Result<(), CoreError>) {
    if conversation !in s.conversations then (s, Err(Database))
    else (s.(members := s.members[(conversation, device) := MemberRow(account, None)], revision := s.revision + 1),
      Ok(()))
  }

  function RemoveMember(s: Core, conversation: Id, device: Id, now: Millis): (Core, Result<(), CoreError>) {
    var k := (conversation, device);
    if k in s.members && s.members[k].removedAt.None?
    then (s.(members := s.members[k := s.members[k].(removedAt := Some(now))], revision := s.revision + 1), Ok(()))
    else (s, Err(NotFound))
  }

  function Reseal(m: Message, key: Key, nonce: Blob): Message {
    m.(body := Sealed(key, nonce, m.body.text))
  }

  /** Every row is opened under the active key and sealed again, one trigger a row. */
  function RotateMasterKey(s: Core, key: Key, version: nat, nonces: Id -> Blob): (Core, Result<(), CoreError>) {
    if version != s.keyVersion + 1 then (s, Err(InvalidTransition))
    else if exists id :: id in s.messages && s.messages[id].body.key != s.key then (s, Err(Authentication))
    else (s.(messages := map id | id in s.messages :: Reseal(s.messages[id], key, nonces(id)),
             key := key, keyVersion := version, revision := s.revision + |s.messages|), Ok(()))
  }

  function WipeLocalAccount(s: Core): Core {
    s.(conversations := map[], messages := map[], order := [], outbox := map[], inbox := map[], members := map[],
      revision := s.revision + 1)
  }

  /* ---------- Reads ---------- */

  function ObserveChanges(s: Core, after: nat): nat {
    if s.revision < after then after else s.revision
  }

  datatype LocalMessage = LocalMessage(id: Id, text: Blob, status: Status, createdAt: Millis)

  function InConversation(messages: map<Id, Message>, conversation: Id): Id -> Option<Id> {
    (id: Id) => if id in messages && messages[id].conversation == conversation then Some(id) else None
  }

  function CreatedAt(messages: map<Id, Message>, id: Id): Millis {
    if id in messages then messages[id].createdAt else 0
  }

  function Older(messages: map<Id, Message>): (Id, Id) -> bool {
    (a: Id, b: Id) => CreatedAt(messages, a) <= CreatedAt(messages, b)
  }

  /** The ids of a conversation by creation time, then by row id. */
  function Listing(s: Core, conversation: Id): seq<Id> {
    StableSort(Collect(s.order, InConversation(s.messages, conversation)), Older(s.messages))
  }

  function Show(s: Core, id: Id): Option<LocalMessage> {
    if id in s.messages && Open(s.key, s.messages[id].body).Ok?
    then var m := s.messages[id]; Some(LocalMessage(id, m.body.text, m.status, m.createdAt)) else None
  }

  /** The rows in order, or the first failure to open one. */
  function ShowAll(s: Core, ids: seq<Id>): Result<seq<LocalMessage>, CoreError> {
    if ids == [] then Ok([]) else
    var before :- ShowAll(s, ids[..|ids| - 1]);
    match Show(s, ids[|ids| - 1])
    case Some(m) => Ok(before + [m])
    case None => Err(Authentication)
  }

  function ListMessages(s: Core, conversation: Id): Result<seq<LocalMessage>, CoreError> {
    ShowAll(s, Listing(s, conversation))
  }

  /** The outbox rows that are due. */
  function Due(s: Core, now: Millis): set<Id> {
    set id | id in s.outbox && id in s.messages && s.outbox[id].nextAttempt <= now
  }

  const MAX_PENDING := 50

  function AttemptAt(s: Core, id: Id): Millis {
    if id in s.outbox then s.outbox[id].nextAttempt else 0
  }

  /** What a poll may return: due rows without repetition, as many as there are up to the limit, the
      earliest first; the order among equals is up to the database. */
  ghost predicate IsPending(s: Core, limit: nat, now: Millis, page: seq<Id>) {
    var most := if limit < MAX_PENDING then limit else MAX_PENDING;
    && Distinct(page)
    && (forall id :: id in page ==> id in Due(s, now))
    && |page| == (if |Due(s, now)| < most then |Due(s, now)| else most)
    && (forall i, j :: 0 <= i < j < |page| ==> AttemptAt(s, page[i]) <= AttemptAt(s, page[j]))
    && (forall id, other :: id in page && other in Due(s, now) && other !in page ==>
      AttemptAt(s, id) <= AttemptAt(s, other))
  }

  /* ---------- Runs ---------- */

  datatype Call =
    | Create(id: Id, conversation: Id, text: Blob, nonce: Blob, now: Millis)
    | Accept(id: Id)
    | Retry(id: Id, now: Millis, complete: bool)
    | Cancel(id: Id)
    | Receipt(id: Id, read: bool)
    | Ingest(events: seq<IncomingEvent>, now: Millis)
    | NewConversation(conversation: Id, now: Millis)
    | Join(conversation: Id, device: Id, account: Blob)
    | Leave(conversation: Id, device: Id, now: Millis)
    | Rotate(key: Key, version: nat, nonces: Id -> Blob)
    | Wipe

  function Step(s: Core, call: Call): Core {
    match call
    case Create(id, conversation, text, nonce, now) => CreateMessage(s, id, conversation, text, nonce, now).0
    case Accept(id) => MarkUploadAccepted(s, id).0
    case Retry(id, now, complete) => RetryMessage(s, id, now, complete).0
    case Cancel(id) => CancelPendingMessage(s, id).0
    case Receipt(id, read) => AdvanceStatus(s, id, if read then Read else Delivered).0
    case Ingest(events, now) => IngestServerBatch(s, events, now).0
    case NewConversation(conversation, now) => InsertConversation(s, conversation, now)
    case Join(conversation, device, account) => AddMember(s, conversation, device, account).0
    case Leave(conversation, device, now) => RemoveMember(s, conversation, device, now).0
    case Rotate(key, version, nonces) => RotateMasterKey(s, key, version, nonces).0
    case Wipe => WipeLocalAccount(s)
  }

  function Run(s: Core, calls: seq<Call>): Core
    decreases |calls|
  {
    if calls == [] then s else Step(Run(s, calls[..|calls| - 1]), calls[|calls| - 1])
  }
}
