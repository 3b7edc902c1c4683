/** What the local tables hold, told by the calls alone: over every run each row is the one that its calls
    wrote, whatever the status of the message, the key and the rest of the tables went through. */
module LocalContents {
  import opened Results
  import opened Bytes
  import opened Sorting
  import opened Sequences
  import opened LocalCore
  import opened LocalLaws

  /* ---------- What the calls say ---------- */

  datatype Written = Written(conversation: Id, text: Blob, nonce: Blob, createdAt: Millis)

  datatype Active = Active(key: Key, version: nat)

  /** The key in use. */
  function KeyAfter(key: Key, calls: seq<Call>): Active {
    if calls == [] then Active(key, 1) else
    var before := KeyAfter(key, calls[..|calls| - 1]);
    match calls[|calls| - 1]
    case Rotate(next, version, _) => if version == before.version + 1 then Active(next, version) else before
    case _ => before
  }

  /** The message with this id: written once since the last wipe, and sealed anew by each rotation. */
  function MessageAfter(key: Key, calls: seq<Call>, id: Id): Option<Written> {
    if calls == [] then None else
    var before := calls[..|calls| - 1];
    MessageStep(MessageAfter(key, before, id), KeyAfter(key, before).version, calls[|calls| - 1], id)
  }

  function MessageStep(row: Option<Written>, active: nat, call: Call, id: Id): Option<Written> {
    match call
    case Create(i, conversation, text, nonce, now) =>
      if i == id && row.None? then Some(Written(conversation, text, nonce, now)) else row
    case Rotate(_, version, nonces) =>
      if version == active + 1 && row.Some? then Some(row.value.(nonce := nonces(id))) else row
    case Wipe => None
    case _ => row
  }

  /** The ids of the messages, in the order in which they were written. */
  function OrderAfter(key: Key, calls: seq<Call>): seq<Id> {
    if calls == [] then [] else
    var before, call := calls[..|calls| - 1], calls[|calls| - 1];
    if call.Wipe? then []
    else if call.Create? && MessageAfter(key, before, call.id).None? then OrderAfter(key, before) + [call.id]
    else OrderAfter(key, before)
  }

  /** When a conversation was last written to, or else made. */
  function ConversationAfter(key: Key, calls: seq<Call>, conversation: Id): Option<Millis> {
    if calls == [] then None else
    var before, call := calls[..|calls| - 1], calls[|calls| - 1];
    ConversationStep(ConversationAfter(key, before, conversation), call,
      call.Create? && MessageAfter(key, before, call.id).None?, conversation)
  }

  function ConversationStep(row: Option<Millis>, call: Call, isNew: bool, conversation: Id): Option<Millis> {
    match call
    case Create(_, c, _, _, now) => if c == conversation && isNew then Some(now) else row
    case NewConversation(c, now) => if c == conversation && row.None? then Some(now) else row
    case Wipe => None
    case _ => row
  }

  /** A device in a conversation: joined with its account, or left at a time. */
  function MemberAfter(key: Key, calls: seq<Call>, conversation: Id, device: Id): Option<MemberRow> {
    if calls == [] then None else
    var before := calls[..|calls| - 1];
    MemberStep(MemberAfter(key, before, conversation, device), ConversationAfter(key, before, conversation).Some?,
      calls[|calls| - 1], conversation, device)
  }

  function MemberStep(row: Option<MemberRow>, known: bool, call: Call, conversation: Id, device: Id)
    : Option<MemberRow>
  {
    match call
    case Join(c, d, account) =>
      if c == conversation && d == device && known then Some(MemberRow(account, None)) else row
    case Leave(c, d, now) =>
      if c == conversation && d == device && row.Some? && row.value.removedAt.None?
      then Some(MemberRow(row.value.account, Some(now))) else row
    case Wipe => None
    case _ => row
  }

  /** The first event of a batch with this id. */
  function FirstWith(events: seq<IncomingEvent>, id: Id): Option<IncomingEvent> {
    if events == [] then None else if events[0].eventId == id then Some(events[0]) else FirstWith(events[1..], id)
  }

  /** The event received first under this id since the last wipe, in a batch of at most 50. */
  function InboxAfter(calls: seq<Call>, id: Id): Option<InboxRow> {
    if calls == [] then None else InboxStep(InboxAfter(calls[..|calls| - 1], id), calls[|calls| - 1], id)
  }

  function InboxStep(row: Option<InboxRow>, call: Call, id: Id): Option<InboxRow> {
    match call
    case Ingest(events, now) =>
      if row.None? && |events| <= 50 then ReceivedAs(FirstWith(events, id), now) else row
    case Wipe => None
    case _ => row
  }

  function ReceivedAs(e: Option<IncomingEvent>, now: Millis): Option<InboxRow> {
    if e.Some? then Some(InboxRow(e.value.conversation, e.value.event, now)) else None
  }

  /* ---------- What the tables say ---------- */

  function MessageIn(s: Core, id: Id): Option<Written> {
    if id !in s.messages then None else
    var m := s.messages[id];
    Some(Written(m.conversation, m.body.text, m.body.nonce, m.createdAt))
  }

  function Find<K, V>(table: map<K, V>, k: K): Option<V> {
    if k in table then Some(table[k]) else None
  }

  /* ---------- One call ---------- */

  /** The batch stores the first event of each id that is new, and counts what it stored. */
  lemma {:induction false} IngestAllLaw(s: Core, events: seq<IncomingEvent>, now: Millis, id: Id)
    ensures var a := IngestAll(s, events, now).0; var first := FirstWith(events, id);
      Find(a.inbox, id) == if id in s.inbox then Some(s.inbox[id]) else ReceivedAs(first, now)
    decreases |events|
  {
    if events != [] {
      var n := |events| - 1;
      IngestAllLaw(s, events[..n], now, id);
      FirstAppend(events[..n], events[n], id);
      assert events[..n] + [events[n]] == events;
    }
  }

  lemma {:induction false} FirstAppend(events: seq<IncomingEvent>, e: IncomingEvent, id: Id)
    ensures FirstWith(events + [e], id) ==
      if FirstWith(events, id).Some? then FirstWith(events, id) else if e.eventId == id then Some(e) else None
  {
    if events == [] {
      assert FirstWith([e][1..], id) == None;
    } else {
      FirstAppend(events[1..], e, id);
      assert (events + [e])[1..] == events[1..] + [e];
    }
  }

  lemma {:induction false} IngestAllCounts(s: Core, events: seq<IncomingEvent>, now: Millis)
    ensures |IngestAll(s, events, now).0.inbox| == |s.inbox| + IngestAll(s, events, now).1
    decreases |events|
  {
    if events != [] {
      IngestAllCounts(s, events[..|events| - 1], now);
    }
  }

  lemma CreateWrites(s: Core, id: Id, conversation: Id, text: Blob, nonce: Blob, now: Millis, x: Id)
    requires RowSound(RowOf(s, x))
    ensures MessageIn(CreateMessage(s, id, conversation, text, nonce, now).0, x) ==
      if id == x && MessageIn(s, x).None? then Some(Written(conversation, text, nonce, now)) else MessageIn(s, x)
  {
  }

  lemma RotateWrites(s: Core, key: Key, version: nat, nonces: Id -> Blob, x: Id)
    requires OpensAll(s)
    ensures MessageIn(RotateMasterKey(s, key, version, nonces).0, x) ==
      if version == s.keyVersion + 1 && x in s.messages then Some(MessageIn(s, x).value.(nonce := nonces(x)))
      else MessageIn(s, x)
  {
  }

  lemma StepMessage(s: Core, call: Call, id: Id)
    requires Sound(s) && OpensAll(s)
    ensures MessageIn(Step(s, call), id) == MessageStep(MessageIn(s, id), s.keyVersion, call, id)
  {
    assert RowSound(RowOf(s, id));
    match call
    case Create(i, conversation, text, nonce, now) =>
      CreateWrites(s, i, conversation, text, nonce, now, id);
      hide CreateMessage, OpensAll, Sound, RowSound;
    case Rotate(key, version, nonces) =>
      RotateWrites(s, key, version, nonces, id);
      hide RotateMasterKey, OpensAll, Sound, RowSound;
    case Ingest(events, now) =>
      IngestKeeps(s, events, now);
      hide IngestAll, OpensAll, Sound, RowSound;
    case _ =>
      OthersWriteNothing(s, call, id);
      hide Step, OpensAll, Sound, RowSound;
  }

  lemma OthersWriteNothing(s: Core, call: Call, id: Id)
    requires !call.Create? && !call.Rotate? && !call.Ingest?
    ensures MessageIn(Step(s, call), id) == if call.Wipe? then None else MessageIn(s, id)
  {
    hide CreateMessage, RotateMasterKey, IngestAll, Delay, SetStatus;
    forall i, status | i in s.messages { StatusWritesNothing(s, i, status, id); }
    if call.Retry? && call.id in s.outbox && call.id in s.messages {
      StatusWritesNothing(Reschedule(s, call.id, call.now), call.id, RetryScheduled, id);
    }
  }

  lemma StatusWritesNothing(s: Core, id: Id, status: Status, x: Id)
    requires id in s.messages
    ensures MessageIn(SetStatus(s, id, status), x) == MessageIn(s, x)
  {
  }

  lemma StepKey(s: Core, call: Call)
    requires OpensAll(s)
    ensures var t := Step(s, call);
      if call.Rotate? && call.version == s.keyVersion + 1 then t.key == call.key && t.keyVersion == call.version
      else t.key == s.key && t.keyVersion == s.keyVersion
  {
    match call
    case Ingest(events, now) =>
      IngestKeeps(s, events, now);
      hide IngestAll;
    case _ =>
      hide IngestAll, Delay;
  }

  lemma StepConversation(s: Core, call: Call, conversation: Id)
    requires Sound(s)
    ensures Find(Step(s, call).conversations, conversation) == ConversationStep(
      Find(s.conversations, conversation), call, call.Create? && call.id !in s.messages, conversation)
  {
    match call
    case Create(id, c, _, _, now) =>
      assert RowSound(RowOf(s, id));
    case Ingest(events, now) =>
      IngestKeeps(s, events, now);
      hide IngestAll;
    case _ =>
      hide IngestAll, Delay;
  }

  lemma StepMember(s: Core, call: Call, conversation: Id, device: Id)
    ensures Find(Step(s, call).members, (conversation, device)) == MemberStep(
      Find(s.members, (conversation, device)), conversation in s.conversations, call, conversation, device)
  {
    match call
    case Ingest(events, now) =>
      IngestKeeps(s, events, now);
      hide IngestAll;
    case _ =>
      hide IngestAll, Delay;
  }

  lemma StepInbox(s: Core, call: Call, id: Id)
    ensures Find(Step(s, call).inbox, id) == InboxStep(Find(s.inbox, id), call, id)
  {
    match call
    case Ingest(events, now) =>
      IngestAllLaw(s, events, now, id);
      hide IngestAll, FirstWith;
    case _ =>
      hide IngestAll, Delay;
  }

  /* ---------- Runs ---------- */

  lemma RunSoundAndOpen(key: Key, calls: seq<Call>)
    ensures Sound(Run(New(key), calls)) && OpensAll(Run(New(key), calls))
  {
    LifecycleInvariant(key, calls);
    ListingNeverFails(key, calls, seq(16, _ => 0));
  }

  /** The active key, its version and every message row are what the calls wrote. */
  lemma {:induction false} MessagesAreWritten(key: Key, calls: seq<Call>, id: Id)
    ensures var s := Run(New(key), calls);
      && Active(s.key, s.keyVersion) == KeyAfter(key, calls)
      && MessageIn(s, id) == MessageAfter(key, calls, id)
      && (id in s.messages ==> s.messages[id].body.key == s.key)
    decreases |calls|
  {
    RunSoundAndOpen(key, calls);
    if calls != [] {
      var n := |calls| - 1;
      MessagesAreWritten(key, calls[..n], id);
      RunSoundAndOpen(key, calls[..n]);
      StepMessage(Run(New(key), calls[..n]), calls[n], id);
      StepKey(Run(New(key), calls[..n]), calls[n]);
      hide Step, Sound, OpensAll;
    }
  }

  lemma StepOrder(s: Core, call: Call)
    requires Sound(s)
    ensures Step(s, call).order == if call.Wipe? then []
      else if call.Create? && call.id !in s.messages then s.order + [call.id] else s.order
  {
    match call
    case Create(id, _, _, _, _) =>
      assert RowSound(RowOf(s, id));
    case Ingest(events, now) =>
      IngestKeeps(s, events, now);
      hide IngestAll;
    case _ =>
      hide IngestAll, Delay;
  }

  lemma {:induction false} OrderIsWritten(key: Key, calls: seq<Call>)
    ensures Run(New(key), calls).order == OrderAfter(key, calls)
    decreases |calls|
  {
    if calls != [] {
      var n := |calls| - 1;
      OrderIsWritten(key, calls[..n]);
      LifecycleInvariant(key, calls[..n]);
      StepOrder(Run(New(key), calls[..n]), calls[n]);
      if calls[n].Create? {
        MessagesAreWritten(key, calls[..n], calls[n].id);
      }
      hide Step, Sound, MessageAfter;
    }
  }

  lemma {:induction false} ConversationsAreWritten(key: Key, calls: seq<Call>, conversation: Id)
    ensures Find(Run(New(key), calls).conversations, conversation) == ConversationAfter(key, calls, conversation)
    decreases |calls|
  {
    if calls != [] {
      var n := |calls| - 1;
      ConversationsAreWritten(key, calls[..n], conversation);
      LifecycleInvariant(key, calls[..n]);
      StepConversation(Run(New(key), calls[..n]), calls[n], conversation);
      if calls[n].Create? {
        MessagesAreWritten(key, calls[..n], calls[n].id);
      }
      hide Step, Sound, MessageAfter;
    }
  }

  /** A device's row in a conversation is what the last call on it said. */
  lemma {:induction false} MembersAreWritten(key: Key, calls: seq<Call>, conversation: Id, device: Id)
    ensures Find(Run(New(key), calls).members, (conversation, device)) == MemberAfter(key, calls, conversation, device)
    decreases |calls|
  {
    if calls != [] {
      var n := |calls| - 1;
      MembersAreWritten(key, calls[..n], conversation, device);
      StepMember(Run(New(key), calls[..n]), calls[n], conversation, device);
      ConversationsAreWritten(key, calls[..n], conversation);
      hide Step, ConversationAfter;
    }
  }

  /** The inbox holds exactly the first event received under each id. */
  lemma {:induction false} InboxIsReceived(key: Key, calls: seq<Call>, id: Id)
    ensures Find(Run(New(key), calls).inbox, id) == InboxAfter(calls, id)
    decreases |calls|
  {
    if calls != [] {
      var n := |calls| - 1;
      InboxIsReceived(key, calls[..n], id);
      StepInbox(Run(New(key), calls[..n]), calls[n], id);
      hide Step, FirstWith;
    }
  }

  /** A batch is refused when it is longer than 50, and otherwise answered with the number of rows by which
      the inbox grew. */
  lemma BatchCounts(s: Core, events: seq<IncomingEvent>, now: Millis)
    ensures var (t, r) := IngestServerBatch(s, events, now);
      if |events| > 50 then t == s && r == Err(InvalidTransition) else r == Ok(|t.inbox| - |s.inbox|)
  {
    IngestAllCounts(s, events, now);
    hide IngestAll;
  }

  /* ---------- What is shown ---------- */

  /** A listing shows exactly the messages that the calls wrote into the conversation, with their texts and
      times of creation, through every change of status and every rotation. */
  lemma ListsWhatWasWritten(key: Key, calls: seq<Call>, conversation: Id, id: Id, text: Blob, createdAt: Millis)
    ensures var s := Run(New(key), calls); var r := ListMessages(s, conversation);
      && r.Ok?
      && ((exists i :: 0 <= i < |r.value| && ShowsText(r.value[i], id, text, createdAt)) <==>
          WroteText(MessageAfter(key, calls, id), conversation, text, createdAt))
  {
    var s := Run(New(key), calls);
    RunSoundAndOpen(key, calls);
    MessagesAreWritten(key, calls, id);
    ListingComplete(s, conversation);
    hide Run, MessageAfter, KeyAfter, Sound, OpensAll, ListMessages;
    var rows := ListMessages(s, conversation).value;
    if i :| 0 <= i < |rows| && ShowsText(rows[i], id, text, createdAt) {
      assert Lists(s, conversation, rows, i);
    }
    if WroteText(MessageIn(s, id), conversation, text, createdAt) {
      var i :| 0 <= i < |rows| && rows[i].id == id;
      assert Lists(s, conversation, rows, i);
      assert ShowsText(rows[i], id, text, createdAt);
    }
  }

  ghost predicate Comes(order: seq<Id>, a: Id, b: Id) {
    exists p, q :: 0 <= p < q < |order| && order[p] == a && order[q] == b
  }

  /** Messages created at the same time are listed in the order in which they were written. */
  lemma TiesListedAsWritten(key: Key, calls: seq<Call>, conversation: Id, i: nat, j: nat)
    ensures var r := ListMessages(Run(New(key), calls), conversation);
      && r.Ok?
      && (i < j < |r.value| && r.value[i].createdAt == r.value[j].createdAt ==>
          Comes(OrderAfter(key, calls), r.value[i].id, r.value[j].id))
  {
    var s := Run(New(key), calls);
    RunSoundAndOpen(key, calls);
    OrderIsWritten(key, calls);
    ListingMembers(s, conversation);
    TiesInOrder(s, conversation);
    hide Run, OrderAfter, Sound, OpensAll, Listing, Comes;
    var ids := Listing(s, conversation);
    ShowsAll(s, ids);
    var r := ListMessages(s, conversation);
    if i < j < |r.value| {
      assert Show(s, ids[i]) == Some(r.value[i]) && Show(s, ids[j]) == Some(r.value[j]);
    }
  }

  lemma TiesInOrder(s: Core, conversation: Id)
    ensures var ids := Listing(s, conversation);
      forall i, j :: 0 <= i < j < |ids| && CreatedAt(s.messages, ids[i]) == CreatedAt(s.messages, ids[j]) ==>
        Comes(s.order, ids[i], ids[j])
  {
    var pick, leq := InConversation(s.messages, conversation), Older(s.messages);
    var before := (a: Id, b: Id) => Comes(s.order, a, b);
    CollectOrdered(s.order, pick, before);
    SortKeepsTies(Collect(s.order, pick), leq, before);
    hide Comes;
    var ids := Listing(s, conversation);
    forall i, j | 0 <= i < j < |ids| && CreatedAt(s.messages, ids[i]) == CreatedAt(s.messages, ids[j])
      ensures Comes(s.order, ids[i], ids[j])
    {
      assert leq(ids[i], ids[j]) && leq(ids[j], ids[i]);
      assert before(ids[i], ids[j]);
    }
  }

  predicate ShowsText(m: LocalMessage, id: Id, text: Blob, createdAt: Millis) {
    m.id == id && m.text == text && m.createdAt == createdAt
  }

  predicate WroteText(w: Option<Written>, conversation: Id, text: Blob, createdAt: Millis) {
    w.Some? && w.value.conversation == conversation && w.value.text == text && w.value.createdAt == createdAt
  }

  lemma {:induction false} WrittenStays(key: Key, calls: seq<Call>, more: seq<Call>, id: Id)
    requires NoWipe(more) && MessageAfter(key, calls, id).Some?
    ensures var before, now := MessageAfter(key, calls, id), MessageAfter(key, calls + more, id);
      now.Some? && now.value == before.value.(nonce := now.value.nonce)
    decreases |more|
  {
    if more == [] {
      assert calls + more == calls;
    } else {
      var n := |more| - 1;
      WrittenStays(key, calls, more[..n], id);
      assert (calls + more)[..|calls| + n] == calls + more[..n];
      hide KeyAfter;
    }
  }

  /** A new message is listed and due at once, and until a wipe it stays listed with its text, its
      conversation and its time of creation. */
  lemma CreatedIsShown(key: Key, calls: seq<Call>, id: Id, conversation: Id, text: Blob, nonce: Blob, now: Millis,
      more: seq<Call>)
    requires CreateMessage(Run(New(key), calls), id, conversation, text, nonce, now).1.Ok? && NoWipe(more)
    ensures var t := CreateMessage(Run(New(key), calls), id, conversation, text, nonce, now).0;
      && Show(t, id) == Some(LocalMessage(id, text, ReadyToUpload, now))
      && id in t.outbox && t.outbox[id].nextAttempt == now && t.outbox[id].attempts == 0
      && ListMessages(t, conversation).Ok?
      && LocalMessage(id, text, ReadyToUpload, now) in ListMessages(t, conversation).value
    ensures var later := Run(New(key), calls + [Create(id, conversation, text, nonce, now)] + more);
      var r := ListMessages(later, conversation);
      r.Ok? && exists i :: 0 <= i < |r.value| && ShowsText(r.value[i], id, text, now)
  {
    var s := Run(New(key), calls);
    var call := Create(id, conversation, text, nonce, now);
    var all := calls + [call];
    assert all[..|calls|] == calls;
    assert Run(New(key), all) == CreateMessage(s, id, conversation, text, nonce, now).0;
    MessagesAreWritten(key, calls, id);
    assert MessageAfter(key, all, id) == Some(Written(conversation, text, nonce, now));
    WrittenStays(key, all, more, id);
    ListsWhatWasWritten(key, all + more, conversation, id, text, now);
    ShownAtOnce(Run(New(key), all), key, all, id, conversation);
    hide Run, MessageAfter, KeyAfter, ListMessages;
  }

  lemma ShownAtOnce(t: Core, key: Key, calls: seq<Call>, id: Id, conversation: Id)
    requires t == Run(New(key), calls) && id in t.messages && t.messages[id].conversation == conversation
    ensures var m := t.messages[id]; var r := ListMessages(t, conversation);
      r.Ok? && LocalMessage(id, m.body.text, m.status, m.createdAt) in r.value
  {
    RunSoundAndOpen(key, calls);
    ListingComplete(t, conversation);
    hide Run, Sound, OpensAll, ListMessages;
    var rows := ListMessages(t, conversation).value;
    var i :| 0 <= i < |rows| && rows[i].id == id;
    assert Lists(t, conversation, rows, i);
  }

  /* ---------- Which calls succeed ---------- */

  /** A message is created exactly when its id is new since the last wipe. */
  lemma CreateSucceedsIff(key: Key, calls: seq<Call>, id: Id, conversation: Id, text: Blob, nonce: Blob, now: Millis)
    ensures var r := CreateMessage(Run(New(key), calls), id, conversation, text, nonce, now).1;
      r == if MessageAfter(key, calls, id).None? then Ok(id) else Err(Database)
  {
    MessagesAreWritten(key, calls, id);
    RunSoundAndOpen(key, calls);
    assert RowSound(RowOf(Run(New(key), calls), id));
    hide Run, MessageAfter, KeyAfter, OpensAll;
  }

  /** A key rotation succeeds exactly for the version after the active one. */
  lemma RotationSucceedsIff(key: Key, calls: seq<Call>, next: Key, version: nat, nonces: Id -> Blob)
    ensures RotateMasterKey(Run(New(key), calls), next, version, nonces).1 ==
      if version == KeyAfter(key, calls).version + 1 then Ok(()) else Err(InvalidTransition)
  {
    MessagesAreWritten(key, calls, seq(16, _ => 0));
    RunSoundAndOpen(key, calls);
    hide Run, MessageAfter, KeyAfter, Sound;
  }

  /** Members join conversations that exist, and only a member that has not left can leave. */
  lemma MemberCallsSucceedIff(key: Key, calls: seq<Call>, conversation: Id, device: Id, account: Blob, now: Millis)
    ensures var s := Run(New(key), calls); var row := MemberAfter(key, calls, conversation, device);
      && AddMember(s, conversation, device, account).1 ==
         (if ConversationAfter(key, calls, conversation).Some? then Ok(()) else Err(Database))
      && RemoveMember(s, conversation, device, now).1 ==
         (if row.Some? && row.value.removedAt.None? then Ok(()) else Err(NotFound))
  {
    ConversationsAreWritten(key, calls, conversation);
    MembersAreWritten(key, calls, conversation, device);
    hide Run, MemberAfter, ConversationAfter;
  }

  /** Only what waits can be cancelled or retried, only what waits or was accepted can be accepted, and a
      receipt is for a message that exists. */
  lemma MessageCallsSucceedIff(s: Core, id: Id, read: bool, now: Millis, complete: bool)
    ensures id in s.messages ==>
      var status := s.messages[id].status;
      && CancelPendingMessage(s, id).1 ==
         (if status.Queued? || status.ReadyToUpload? || status.RetryScheduled? then Ok(()) else Err(InvalidTransition))
      && MarkUploadAccepted(s, id).1 ==
         (if status.ReadyToUpload? || status.Uploading? || status.RetryScheduled? || status.ServerAccepted? then Ok(())
          else Err(InvalidTransition))
      && AdvanceStatus(s, id, if read then Read else Delivered).1 == Ok(())
    ensures id !in s.messages ==>
      && CancelPendingMessage(s, id).1 == Err(InvalidTransition)
      && MarkUploadAccepted(s, id).1 == Err(NotFound)
      && AdvanceStatus(s, id, if read then Read else Delivered).1 == Err(NotFound)
    ensures RetryMessage(s, id, now, complete).1 == if id in s.outbox then Ok(()) else Err(NotFound)
  {
    hide Delay;
  }
}
