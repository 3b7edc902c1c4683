/** What every run of the offline core keeps: the life of a message and its outbox row, the change
    counter, and the retry schedule. */
module LocalLaws {
  import opened Results
  import opened Bytes
  import opened Sorting
  import opened Sequences
  import opened LocalCore

  /* ---------- One message, one row ---------- */

  /** What the tables say of one message id. */
  datatype Row = Row(status: Option<Status>, queued: bool)

  function RowOf(s: Core, id: Id): Row {
    Row(if id in s.messages then Some(s.messages[id].status) else None, id in s.outbox)
  }

  /** The life of one message, alone. */
  function RowStep(row: Row, call: Call, id: Id): Row {
    match call
    case Create(i, _, _, _, _) => if i == id && row == Row(None, false) then Row(Some(ReadyToUpload), true) else row
    case Accept(i) =>
      if i == id && row.status.Some? && (Uploadable(row.status.value) || row.status.value.ServerAccepted?)
      then Row(Some(ServerAccepted), false) else row
    case Retry(i, _, complete) => if i == id && row.queued && complete && row.status.Some?
      then Row(Some(RetryScheduled), true) else row
    case Cancel(i) =>
      if i == id && row.status.Some?
        && (row.status.value.Queued? || row.status.value.ReadyToUpload? || row.status.value.RetryScheduled?)
      then Row(Some(Cancelled), false) else row
    case Receipt(i, read) =>
      var status := if read then Read else Delivered;
      if i == id && row.status.Some? && row.status.value.Code() < status.Code() then Row(Some(status), row.queued)
        else row
    case Wipe => Row(None, false)
    case _ => row
  }

  lemma {:induction false} IngestKeeps(s: Core, events: seq<IncomingEvent>, now: Millis)
    ensures var a := IngestAll(s, events, now).0;
      && a == s.(inbox := a.inbox, revision := a.revision)
      && (forall e :: e in s.inbox ==> e in a.inbox && a.inbox[e] == s.inbox[e])
      && a.revision >= s.revision && (a.inbox == s.inbox || a.revision > s.revision)
    decreases |events|
  {
    if events != [] {
      IngestKeeps(s, events[..|events| - 1], now);
    }
  }

  lemma CreateRow(s: Core, id: Id, conversation: Id, text: Blob, nonce: Blob, now: Millis, x: Id)
    ensures RowOf(CreateMessage(s, id, conversation, text, nonce, now).0, x) ==
      RowStep(RowOf(s, x), Create(id, conversation, text, nonce, now), x)
    ensures var a := CreateMessage(s, id, conversation, text, nonce, now).0; a == s || a.revision > s.revision
  {
  }

  lemma AcceptRow(s: Core, id: Id, x: Id)
    ensures RowOf(MarkUploadAccepted(s, id).0, x) == RowStep(RowOf(s, x), Accept(id), x)
  {
  }

  lemma RetryRow(s: Core, id: Id, now: Millis, complete: bool, x: Id)
    ensures RowOf(RetryMessage(s, id, now, complete).0, x) == RowStep(RowOf(s, x), Retry(id, now, complete), x)
  {
    hide Delay;
  }

  lemma CancelRow(s: Core, id: Id, x: Id)
    ensures RowOf(CancelPendingMessage(s, id).0, x) == RowStep(RowOf(s, x), Cancel(id), x)
  {
  }

  lemma ReceiptRow(s: Core, id: Id, read: bool, x: Id)
    ensures RowOf(AdvanceStatus(s, id, if read then Read else Delivered).0, x) ==
      RowStep(RowOf(s, x), Receipt(id, read), x)
  {
  }

  lemma OtherRow(s: Core, call: Call, x: Id)
    requires call.Ingest? || call.NewConversation? || call.Join? || call.Leave? || call.Rotate? || call.Wipe?
    ensures RowOf(Step(s, call), x) == RowStep(RowOf(s, x), call, x)
  {
    hide CreateMessage, MarkUploadAccepted, RetryMessage, CancelPendingMessage, AdvanceStatus, IngestAll;
    if call.Ingest? { IngestKeeps(s, call.events, call.now); }
  }

  /** The core, seen through one message id, is that life. */
  lemma RowRefines(s: Core, call: Call, id: Id)
    ensures RowOf(Step(s, call), id) == RowStep(RowOf(s, id), call, id)
  {
    match call
    case Create(i, conversation, text, nonce, now) => CreateRow(s, i, conversation, text, nonce, now, id);
      hide RowOf, RowStep, CreateMessage;
    case Accept(i) => AcceptRow(s, i, id); hide RowOf, RowStep, MarkUploadAccepted;
    case Retry(i, now, complete) => RetryRow(s, i, now, complete, id); hide RowOf, RowStep, RetryMessage;
    case Cancel(i) => CancelRow(s, i, id); hide RowOf, RowStep, CancelPendingMessage;
    case Receipt(i, read) => ReceiptRow(s, i, read, id); hide RowOf, RowStep, AdvanceStatus;
    case _ => OtherRow(s, call, id); hide RowOf, RowStep, Step;
  }

  function RowRun(row: Row, calls: seq<Call>, id: Id): Row
    decreases |calls|
  {
    if calls == [] then row else RowStep(RowRun(row, calls[..|calls| - 1], id), calls[|calls| - 1], id)
  }

  lemma {:induction false} RunRefines(s: Core, calls: seq<Call>, id: Id)
    ensures RowOf(Run(s, calls), id) == RowRun(RowOf(s, id), calls, id)
    decreases |calls|
  {
    hide Step, RowStep, RowOf;
    if calls != [] {
      RunRefines(s, calls[..|calls| - 1], id);
      RowRefines(Run(s, calls[..|calls| - 1]), calls[|calls| - 1], id);
    }
  }

  /* ---------- The life of a message ---------- */

  /** An outbox row belongs to a message; a message that waits for upload has one, a message that is
      accepted or cancelled has none. Delivered and read messages may still have one. */
  predicate RowSound(row: Row) {
    if row.status.None? then !row.queued else
    match row.status.value
    case ReadyToUpload => row.queued
    case RetryScheduled => row.queued
    case ServerAccepted => !row.queued
    case Cancelled => !row.queued
    case Delivered => true
    case Read => true
    case _ => false
  }

  ghost predicate Sound(s: Core) {
    forall id: Id :: RowSound(RowOf(s, id))
  }

  lemma {:induction false} RowRunSound(row: Row, calls: seq<Call>, id: Id)
    requires RowSound(row)
    ensures RowSound(RowRun(row, calls, id))
    decreases |calls|
  {
    if calls != [] {
      RowRunSound(row, calls[..|calls| - 1], id);
    }
  }

  lemma StepSound(s: Core, call: Call)
    requires Sound(s)
    ensures Sound(Step(s, call))
  {
    hide Step, RowOf;
    forall id: Id
      ensures RowSound(RowOf(Step(s, call), id))
    {
      RowRefines(s, call, id);
      assert RowSound(RowOf(s, id));
    }
  }

  /** In every run, also one whose retries stop half-way: the outbox is a subset of the messages, what
      waits for upload is in it, what was accepted or cancelled is not, and no other status occurs. */
  lemma LifecycleInvariant(key: Key, calls: seq<Call>)
    ensures Sound(Run(New(key), calls))
  {
    forall id: Id
      ensures RowSound(RowOf(Run(New(key), calls), id))
    {
      RunRefines(New(key), calls, id);
      RowRunSound(RowOf(New(key), id), calls, id);
    }
  }

  /** Accepted, and from then on perhaps delivered and read; out of the outbox for good. */
  predicate Done(row: Row) {
    row.status.Some? && !row.queued && 5 <= row.status.value.Code() <= 7
  }

  ghost predicate NoWipe(calls: seq<Call>) {
    forall i :: 0 <= i < |calls| ==> !calls[i].Wipe?
  }

  lemma {:induction false} RowDone(row: Row, calls: seq<Call>, id: Id)
    requires NoWipe(calls)
    ensures Done(row) ==>
      Done(RowRun(row, calls, id)) && row.status.value.Code() <= RowRun(row, calls, id).status.value.Code()
    ensures row == Row(Some(Cancelled), false) ==> RowRun(row, calls, id) == row
    decreases |calls|
  {
    if calls != [] {
      RowDone(row, calls[..|calls| - 1], id);
    }
  }

  /** Until a wipe, once an upload was accepted its outbox row never returns and the status only climbs
      from accepted to delivered to read. */
  lemma AcceptedIsFinal(s: Core, id: Id, calls: seq<Call>)
    requires MarkUploadAccepted(s, id).1.Ok? && NoWipe(calls)
    ensures var t := MarkUploadAccepted(s, id).0; var u := Run(t, calls);
      && id in t.messages && t.messages[id].status.ServerAccepted?
      && id in u.messages && id !in u.outbox && 5 <= u.messages[id].status.Code() <= 7
  {
    var t := MarkUploadAccepted(s, id).0;
    assert RowOf(t, id) == Row(Some(ServerAccepted), false);
    RunRefines(t, calls, id);
    RowDone(RowOf(t, id), calls, id);
    hide Run, RowRun, MarkUploadAccepted;
  }

  /** Between two later points of such a run the status never falls. */
  lemma AcceptedOnlyClimbs(s: Core, id: Id, calls: seq<Call>)
    requires Done(RowOf(s, id)) && NoWipe(calls)
    ensures Done(RowOf(Run(s, calls), id)) && s.messages[id].status.Code() <= Run(s, calls).messages[id].status.Code()
  {
    RunRefines(s, calls, id);
    RowDone(RowOf(s, id), calls, id);
    hide Run, RowRun;
  }

  /** A cancelled message stays cancelled until a wipe. */
  lemma CancelledIsFinal(s: Core, id: Id, calls: seq<Call>)
    requires CancelPendingMessage(s, id).1.Ok? && NoWipe(calls)
    ensures RowOf(Run(CancelPendingMessage(s, id).0, calls), id) == Row(Some(Cancelled), false)
  {
    var t := CancelPendingMessage(s, id).0;
    assert RowOf(t, id) == Row(Some(Cancelled), false);
    RunRefines(t, calls, id);
    RowDone(RowOf(t, id), calls, id);
    hide Run, RowRun;
  }

  /* ---------- Receipts that come early ---------- */

  predicate Overtaken(row: Row) {
    row.queued && (row.status == Some(Delivered) || row.status == Some(Read))
  }

  /** A waiting message can be marked accepted exactly when no receipt overtook its upload. */
  lemma AcceptSucceedsIff(s: Core, id: Id)
    requires Sound(s) && id in s.outbox
    ensures MarkUploadAccepted(s, id).1.Ok? <==> !Overtaken(RowOf(s, id))
    ensures MarkUploadAccepted(s, id).1.Ok? ==> id !in MarkUploadAccepted(s, id).0.outbox
  {
    assert RowSound(RowOf(s, id));
  }

  predicate LeavesWaiting(call: Call, id: Id) {
    !call.Wipe? && !(call.Retry? && call.id == id && call.complete)
  }

  lemma {:induction false} RowOvertaken(row: Row, calls: seq<Call>, id: Id)
    requires Overtaken(row) && forall i :: 0 <= i < |calls| ==> LeavesWaiting(calls[i], id)
    ensures Overtaken(RowRun(row, calls, id))
    decreases |calls|
  {
    if calls != [] {
      RowOvertaken(row, calls[..|calls| - 1], id);
    }
  }

  /** A receipt for a message that was never tried keeps its row in the outbox, and every acceptance is
      refused, in every run without a completed retry or a wipe. */
  lemma EarlyReceiptSticks(s: Core, id: Id, read: bool, calls: seq<Call>)
    requires RowOf(s, id) == Row(Some(ReadyToUpload), true)
    requires forall i :: 0 <= i < |calls| ==> LeavesWaiting(calls[i], id)
    ensures var t := Run(Step(s, Receipt(id, read)), calls);
      id in t.outbox && MarkUploadAccepted(t, id) == (t, Err(InvalidTransition))
  {
    hide Run, RowRun, Step, RowStep, RowOf, Overtaken, MarkUploadAccepted;
    var early := Step(s, Receipt(id, read));
    ReceiptOvertakes(s, id, read);
    RunRefines(early, calls, id);
    RowOvertaken(RowOf(early, id), calls, id);
    OvertakenRefused(Run(early, calls), id);
  }

  lemma ReceiptOvertakes(s: Core, id: Id, read: bool)
    requires RowOf(s, id) == Row(Some(ReadyToUpload), true)
    ensures Overtaken(RowOf(Step(s, Receipt(id, read)), id))
  {
    RowRefines(s, Receipt(id, read), id);
    hide Step;
  }

  lemma OvertakenRefused(s: Core, id: Id)
    requires Overtaken(RowOf(s, id))
    ensures id in s.outbox && MarkUploadAccepted(s, id) == (s, Err(InvalidTransition))
  {
  }

  /** A receipt is answered with success and yet leaves no trace exactly when the message waits for a
      retry, was cancelled, or was already known to have got as far. */
  lemma ReceiptIgnoredIff(s: Core, id: Id, read: bool)
    requires Sound(s) && id in s.messages
    ensures var status := s.messages[id].status;
      AdvanceStatus(s, id, if read then Read else Delivered) == (s, Ok(()))
      <==> status.RetryScheduled? || status.Cancelled? || status.Read? || (status.Delivered? && !read)
  {
    assert RowSound(RowOf(s, id));
    assert SetStatus(s, id, if read then Read else Delivered).revision != s.revision;
  }

  /** A message known as delivered or read goes back to waiting exactly when it is retried while its row
      is still there: statuses are not monotone in general. */
  lemma DeliveredRegressesIff(s: Core, call: Call, id: Id)
    requires id in s.messages && (s.messages[id].status.Delivered? || s.messages[id].status.Read?) && !call.Wipe?
    ensures var row := RowOf(Step(s, call), id);
      row.status != Some(Delivered) && row.status != Some(Read) <==>
        call.Retry? && call.id == id && call.complete && id in s.outbox
  {
    RowRefines(s, call, id);
    hide Step;
  }

  /* ---------- Keys ---------- */

  /** Every message opens under the active key, and the row order lists each message once. */
  ghost predicate OpensAll(s: Core) {
    && (forall id :: id in s.messages ==> Open(s.key, s.messages[id].body).Ok?)
    && (forall id :: id in s.order <==> id in s.messages)
    && Distinct(s.order)
  }

  lemma CreateOpensAll(s: Core, id: Id, conversation: Id, text: Blob, nonce: Blob, now: Millis)
    requires OpensAll(s)
    ensures OpensAll(CreateMessage(s, id, conversation, text, nonce, now).0)
  {
  }

  lemma RotateOpensAll(s: Core, key: Key, version: nat, nonces: Id -> Blob)
    requires OpensAll(s)
    ensures OpensAll(RotateMasterKey(s, key, version, nonces).0)
  {
  }

  lemma StepOpensAll(s: Core, call: Call)
    requires OpensAll(s)
    ensures OpensAll(Step(s, call))
  {
    match call
    case Create(id, conversation, text, nonce, now) => CreateOpensAll(s, id, conversation, text, nonce, now);
    case Ingest(events, now) =>
      IngestKeeps(s, events, now);
      hide IngestAll;
    case Rotate(key, version, nonces) => RotateOpensAll(s, key, version, nonces);
    case Wipe =>
    case _ => StatusOpensAll(s, call);
  }

  ghost predicate SameBodies(s: Core, t: Core) {
    && t.key == s.key && t.order == s.order && t.messages.Keys == s.messages.Keys
    && forall id :: id in s.messages ==> t.messages[id].body == s.messages[id].body
  }

  lemma SetStatusBodies(s: Core, id: Id, status: Status)
    requires id in s.messages
    ensures SameBodies(s, SetStatus(s, id, status))
  {
  }

  lemma StatusOpensAll(s: Core, call: Call)
    requires OpensAll(s) && !call.Create? && !call.Ingest? && !call.Rotate? && !call.Wipe?
    ensures OpensAll(Step(s, call))
  {
    hide CreateMessage, IngestAll, RotateMasterKey, SetStatus, Reschedule, OpensAll;
    forall id, status | id in s.messages { SetStatusBodies(s, id, status); }
    match call
    case Retry(id, now, _) =>
      if id in s.outbox && id in s.messages {
        RescheduleBodies(s, id, now);
        SetStatusBodies(Reschedule(s, id, now), id, RetryScheduled);
      } else if id in s.outbox {
        RescheduleBodies(s, id, now);
      }
      BodiesOpen(s, Step(s, call));
    case _ => BodiesOpen(s, Step(s, call));
  }

  lemma RescheduleBodies(s: Core, id: Id, now: Millis)
    requires id in s.outbox
    ensures SameBodies(s, Reschedule(s, id, now)) && Reschedule(s, id, now).messages == s.messages
  {
    hide Delay;
  }

  lemma BodiesOpen(s: Core, t: Core)
    requires OpensAll(s) && SameBodies(s, t)
    ensures OpensAll(t)
  {
  }

  /** With calls that do not overlap, every row opens under the active key, through any rotations; so
      listing a conversation never fails. */
  lemma {:induction false} ListingNeverFails(key: Key, calls: seq<Call>, conversation: Id)
    ensures OpensAll(Run(New(key), calls))
    ensures ListMessages(Run(New(key), calls), conversation).Ok?
    decreases |calls|
  {
    if calls != [] {
      ListingNeverFails(key, calls[..|calls| - 1], conversation);
      StepOpensAll(Run(New(key), calls[..|calls| - 1]), calls[|calls| - 1]);
    }
    hide Run, ListMessages;
    ListsAll(Run(New(key), calls), conversation);
  }

  lemma ListsAll(s: Core, conversation: Id)
    requires OpensAll(s)
    ensures ListMessages(s, conversation).Ok?
  {
    ListingMembers(s, conversation);
    hide Listing;
    ShowsAll(s, Listing(s, conversation));
  }

  lemma {:induction false} ShowsAll(s: Core, ids: seq<Id>)
    requires OpensAll(s) && forall i :: 0 <= i < |ids| ==> ids[i] in s.messages
    ensures ShowAll(s, ids).Ok? && |ShowAll(s, ids).value| == |ids|
    ensures forall i :: 0 <= i < |ids| ==> Show(s, ids[i]) == Some(ShowAll(s, ids).value[i])
  {
    if ids != [] {
      ShowsAll(s, ids[..|ids| - 1]);
    }
  }

  lemma ListingMembers(s: Core, conversation: Id)
    ensures forall id :: id in Listing(s, conversation) ==>
      id in s.messages && s.messages[id].conversation == conversation
  {
    var ids := Collect(s.order, InConversation(s.messages, conversation));
    CollectMembers(s.order, InConversation(s.messages, conversation));
    SortPermutes(ids, Older(s.messages));
    forall id | id in Listing(s, conversation)
      ensures id in ids
    {
      assert id in multiset(Listing(s, conversation));
    }
  }

  predicate Lists(s: Core, conversation: Id, rows: seq<LocalMessage>, i: nat)
    requires i < |rows|
  {
    var m := rows[i];
    && m.id in s.messages && s.messages[m.id].conversation == conversation
    && m == LocalMessage(m.id, s.messages[m.id].body.text, s.messages[m.id].status, s.messages[m.id].createdAt)
  }

  /** A listing shows each message of the conversation once, as it is stored, the oldest first. */
  lemma ListingComplete(s: Core, conversation: Id)
    requires OpensAll(s)
    ensures ListMessages(s, conversation).Ok?
    ensures var rows := ListMessages(s, conversation).value;
      && (forall i :: 0 <= i < |rows| ==> Lists(s, conversation, rows, i))
      && (forall i, j :: 0 <= i < j < |rows| ==> rows[i].id != rows[j].id && rows[i].createdAt <= rows[j].createdAt)
      && (forall id :: id in s.messages && s.messages[id].conversation == conversation ==>
          exists i :: 0 <= i < |rows| && rows[i].id == id)
  {
    var ids := Listing(s, conversation);
    ListingMembers(s, conversation);
    ListingOrder(s, conversation);
    hide Listing, OpensAll;
    ShowsAll(s, ids);
    var rows := ListMessages(s, conversation).value;
    forall id | id in s.messages && s.messages[id].conversation == conversation
      ensures exists i :: 0 <= i < |rows| && rows[i].id == id
    {
      assert id in ids;
      var i :| 0 <= i < |ids| && ids[i] == id;
      assert rows[i].id == id;
    }
  }

  lemma ListingOrder(s: Core, conversation: Id)
    requires OpensAll(s)
    ensures var ids := Listing(s, conversation);
      && Distinct(ids)
      && (forall i, j :: 0 <= i < j < |ids| ==> CreatedAt(s.messages, ids[i]) <= CreatedAt(s.messages, ids[j]))
      && (forall id :: id in s.messages && s.messages[id].conversation == conversation ==> id in ids)
  {
    var picked := Collect(s.order, InConversation(s.messages, conversation));
    var leq := Older(s.messages);
    CollectMembers(s.order, InConversation(s.messages, conversation));
    CollectOrdered(s.order, InConversation(s.messages, conversation), (a: Id, b: Id) => a != b);
    OlderTotal(s.messages);
    SortOrders(picked, leq);
    SortPermutes(picked, leq);
    DistinctPermuted(picked, Listing(s, conversation));
    var ids := Listing(s, conversation);
    forall i, j | 0 <= i < j < |ids|
      ensures CreatedAt(s.messages, ids[i]) <= CreatedAt(s.messages, ids[j])
    {
      assert leq(ids[i], ids[j]);
    }
    forall id | id in s.messages && s.messages[id].conversation == conversation
      ensures id in ids
    {
      assert id in picked;
      assert id in multiset(ids);
    }
  }

  lemma OlderTotal(messages: map<Id, Message>)
    ensures TotalPreorder(Older(messages))
  {
  }

  /* ---------- The change counter ---------- */

  /** What the observers of the counter can ask for. */
  ghost predicate SameView(s: Core, t: Core) {
    && t.conversations == s.conversations && t.inbox == s.inbox && t.members == s.members
    && forall conversation: Id :: ListMessages(t, conversation) == ListMessages(s, conversation)
  }

  lemma SameTablesSameView(s: Core, t: Core)
    requires t.conversations == s.conversations && t.inbox == s.inbox && t.members == s.members
    requires t.messages == s.messages && t.order == s.order && (t.key == s.key || s.messages == map[])
    ensures SameView(s, t)
  {
    forall conversation: Id
      ensures ListMessages(t, conversation) == ListMessages(s, conversation)
    {
      ListMessagesReads(s, t, conversation);
    }
  }

  lemma ListMessagesReads(s: Core, t: Core, conversation: Id)
    requires t.messages == s.messages && t.order == s.order && (t.key == s.key || s.messages == map[])
    ensures ListMessages(t, conversation) == ListMessages(s, conversation)
  {
    assert Listing(t, conversation) == Listing(s, conversation);
    ListingMembers(s, conversation);
    hide Listing;
    ShowAllReads(s, t, Listing(s, conversation));
  }

  lemma {:induction false} ShowAllReads(s: Core, t: Core, ids: seq<Id>)
    requires t.messages == s.messages && (t.key == s.key || s.messages == map[])
    requires forall i :: 0 <= i < |ids| ==> ids[i] in s.messages
    ensures ShowAll(t, ids) == ShowAll(s, ids)
  {
    if ids != [] {
      ShowAllReads(s, t, ids[..|ids| - 1]);
    }
  }

  ghost predicate Bumped(s: Core, t: Core) {
    || t.revision > s.revision
    || (t.revision == s.revision && t.conversations == s.conversations && t.inbox == s.inbox && t.members == s.members
        && t.messages == s.messages && t.order == s.order && (t.key == s.key || s.messages == map[]))
  }

  lemma StepBumps(s: Core, call: Call)
    ensures Bumped(s, Step(s, call))
  {
    match call
    case Create(id, conversation, text, nonce, now) =>
      CreateRow(s, id, conversation, text, nonce, now, id);
      hide RowOf, RowStep, CreateMessage;
    case Ingest(events, now) =>
      IngestKeeps(s, events, now);
      hide IngestAll;
    case Rotate(key, version, nonces) =>
      NothingToReseal(s, key, version, nonces);
      hide RotateMasterKey;
    case _ => StatusBumps(s, call);
  }

  lemma StatusBumps(s: Core, call: Call)
    requires !call.Create? && !call.Ingest? && !call.Rotate?
    ensures Bumped(s, Step(s, call))
  {
    hide CreateMessage, IngestAll, RotateMasterKey, Delay;
  }

  /** A step that leaves the counter alone leaves every view alone. */
  lemma StepChanges(s: Core, call: Call)
    ensures var t := Step(s, call);
      t.revision > s.revision || (t.revision == s.revision && SameView(s, t))
  {
    StepBumps(s, call);
    hide Step, SameView;
    if Step(s, call).revision <= s.revision {
      SameTablesSameView(s, Step(s, call));
    }
  }

  lemma NothingToReseal(s: Core, key: Key, version: nat, nonces: Id -> Blob)
    ensures var t := RotateMasterKey(s, key, version, nonces).0;
      t == s.(messages := t.messages, key := t.key, keyVersion := t.keyVersion, revision := t.revision)
      && t.revision >= s.revision
        && (t.revision == s.revision ==> t.messages == s.messages && (t.key == s.key || s.messages == map[]))
  {
  }

  lemma {:induction false} CounterMonotone(s: Core, calls: seq<Call>)
    ensures s.revision <= Run(s, calls).revision
    ensures Run(s, calls).revision == s.revision ==> SameView(s, Run(s, calls))
    decreases |calls|
  {
    hide Step, ListMessages;
    if calls != [] {
      CounterMonotone(s, calls[..|calls| - 1]);
      StepChanges(Run(s, calls[..|calls| - 1]), calls[|calls| - 1]);
    }
  }

  /** Sound change detection: an observer that passes the revision it saw and gets it back has missed
      nothing, over any run, wipes and key rotations included; and no answer falls behind what it passed. */
  lemma ChangeDetector(s: Core, calls: seq<Call>)
    ensures ObserveChanges(s, 0) <= ObserveChanges(Run(s, calls), 0)
    ensures forall after: nat :: after <= ObserveChanges(s, after) && ObserveChanges(s, 0) <= ObserveChanges(s, after)
    ensures forall after: nat :: ObserveChanges(s, after) == after || ObserveChanges(s, after) == s.revision
    ensures ObserveChanges(Run(s, calls), s.revision) == s.revision ==> SameView(s, Run(s, calls))
  {
    CounterMonotone(s, calls);
    hide Run, SameView;
  }
}
