/** The offline core as the object it is: methods write rows one statement at a time, with the trigger
    that follows each write, undo what a failed transaction wrote, and are proved to compute module
    LocalCore and to keep its invariants. Clock readings, ids and nonces are parameters. */
module MessengerCore {
  import opened Results
  import opened Bytes
  import opened Sorting
  import opened Sequences
  import opened C = LocalCore
  import LocalLaws

  datatype PendingUpload = PendingUpload(id: Id, conversation: Id, payload: Sealed, attempts: nat)

  function PendingIds(page: seq<PendingUpload>): (ids: seq<Id>)
    ensures |ids| == |page|
  {
    seq(|page|, i requires 0 <= i < |page| => page[i].id)
  }

  class MessengerCore {
    var key: Key
    var keyVersion: nat
    var conversations: map<Id, Millis>
    var messages: map<Id, Message>
    var order: seq<Id>
    var outbox: map<Id, OutboxRow>
    var inbox: map<Id, InboxRow>
    var members: map<(Id, Id), MemberRow>
    var revision: nat

    ghost function Model(): Core
      reads this
    {
      Core(key, keyVersion, conversations, messages, order, outbox, inbox, members, revision)
    }

    /** Messages and outbox rows agree, and every message opens under the active key. */
    ghost predicate Valid()
      reads this
    {
      LocalLaws.Sound(Model()) && LocalLaws.OpensAll(Model())
    }

    constructor (key: Key)
      ensures Valid() && Model() == C.New(key)
    {
      this.key := key;
      keyVersion, revision, order := 1, 0, [];
      conversations, messages, outbox, inbox, members := map[], map[], map[], map[], map[];
    }

    /* ---------- Statements and their triggers ---------- */

    method UpdateStatus(id: Id, status: Status)
      requires id in messages
      modifies this`messages, this`revision
      ensures Model() == C.SetStatus(old(Model()), id, status)
    {
      messages := messages[id := messages[id].(status := status)];
      revision := revision + 1;
    }

    method CreateGroup(conversation: Id, now: Millis)
      modifies this`conversations, this`revision
      ensures Model() == C.InsertConversation(old(Model()), conversation, now)
      ensures old(Valid()) ==> Valid()
    {
      hide LocalLaws.Sound, LocalLaws.OpensAll;
      StepKeeps(Model(), C.NewConversation(conversation, now));
      if conversation !in conversations {
        conversations := conversations[conversation := now];
        revision := revision + 1;
      }
    }

    /* ---------- Messages ---------- */

    method CreateMessage(id: Id, conversation: Id, text: Blob, nonce: Blob, now: Millis)
        returns (r: Result<Id, CoreError>)
      modifies this`conversations, this`messages, this`order, this`outbox, this`revision
      ensures (Model(), r) == C.CreateMessage(old(Model()), id, conversation, text, nonce, now)
      ensures old(Valid()) ==> Valid()
    {
      hide LocalLaws.Sound, LocalLaws.OpensAll;
      StepKeeps(Model(), C.Create(id, conversation, text, nonce, now));
      var encrypted := Sealed(key, nonce, text);
      var conversationsBefore, revisionBefore := conversations, revision;
      CreateGroup(conversation, now);
      if id in messages || id in outbox {
        conversations, revision := conversationsBefore, revisionBefore;
        return Err(Database);
      }
      messages := messages[id := Message(conversation, encrypted, ReadyToUpload, now)];
      order := order + [id];
      revision := revision + 1;
      outbox := outbox[id := OutboxRow(now, 0)];
      conversations := conversations[conversation := now];
      r := Ok(id);
    }

    method MarkUploadAccepted(id: Id) returns (r: Result<(), CoreError>)
      modifies this`messages, this`outbox, this`revision
      ensures (Model(), r) == C.MarkUploadAccepted(old(Model()), id)
      ensures old(Valid()) ==> Valid()
    {
      hide LocalLaws.Sound, LocalLaws.OpensAll;
      StepKeeps(Model(), C.Accept(id));
      var changed := id in messages && C.Uploadable(messages[id].status);
      if changed {
        UpdateStatus(id, ServerAccepted);
      }
      if !changed && !(id in messages && messages[id].status.ServerAccepted?) {
        return Err(if id in messages then InvalidTransition else NotFound);
      }
      outbox := outbox - {id};
      r := Ok(());
    }

    /** Two statements outside any transaction; `complete` is false when the process stops after the first. */
    method RetryMessage(id: Id, now: Millis, complete: bool) returns (r: Result<(), CoreError>)
      modifies this`messages, this`outbox, this`revision
      ensures (Model(), r) == C.RetryMessage(old(Model()), id, now, complete)
      ensures old(Valid()) ==> Valid()
    {
      hide LocalLaws.Sound, LocalLaws.OpensAll, C.Delay;
      StepKeeps(Model(), C.Retry(id, now, complete));
      if id !in outbox {
        return Err(NotFound);
      }
      var attempts := outbox[id].attempts;
      var delay := C.Delay(attempts);
      outbox := outbox[id := OutboxRow(now + delay, attempts + 1)];
      if complete && id in messages {
        UpdateStatus(id, RetryScheduled);
      }
      r := Ok(());
    }

    method CancelPendingMessage(id: Id) returns (r: Result<(), CoreError>)
      modifies this`messages, this`outbox, this`revision
      ensures (Model(), r) == C.CancelPendingMessage(old(Model()), id)
      ensures old(Valid()) ==> Valid()
    {
      hide LocalLaws.Sound, LocalLaws.OpensAll;
      StepKeeps(Model(), C.Cancel(id));
      if id !in messages || !(messages[id].status.Queued? || messages[id].status.ReadyToUpload?
          || messages[id].status.RetryScheduled?) {
        return Err(InvalidTransition);
      }
      UpdateStatus(id, Cancelled);
      outbox := outbox - {id};
      r := Ok(());
    }

    method ApplyReceipt(id: Id, read: bool) returns (r: Result<(), CoreError>)
      modifies this`messages, this`revision
      ensures (Model(), r) == C.AdvanceStatus(old(Model()), id, if read then Read else Delivered)
      ensures old(Valid()) ==> Valid()
    {
      hide LocalLaws.Sound, LocalLaws.OpensAll;
      StepKeeps(Model(), C.Receipt(id, read));
      var status := if read then Read else Delivered;
      if id !in messages {
        return Err(NotFound);
      }
      if messages[id].status.Code() < status.Code() {
        UpdateStatus(id, status);
      }
      r := Ok(());
    }

    /* ---------- Inbox, members, keys ---------- */

    method IngestServerBatch(events: seq<IncomingEvent>, now: Millis) returns (r: Result<nat, CoreError>)
      modifies this`inbox, this`revision
      ensures (Model(), r) == C.IngestServerBatch(old(Model()), events, now)
      ensures old(Valid()) ==> Valid()
    {
      hide LocalLaws.Sound, LocalLaws.OpensAll;
      StepKeeps(Model(), C.Ingest(events, now));
      if |events| > 50 {
        return Err(InvalidTransition);
      }
      var inserted := 0;
      for i := 0 to |events|
        invariant (Model(), inserted) == C.IngestAll(old(Model()), events[..i], now)
      {
        assert events[..i + 1][..i] == events[..i];
        if events[i].eventId !in inbox {
          inbox := inbox[events[i].eventId := InboxRow(events[i].conversation, events[i].event, now)];
          revision := revision + 1;
          inserted := inserted + 1;
        }
      }
      assert events[..|events|] == events;
      r := Ok(inserted);
    }

    method AddMember(conversation: Id, device: Id, account: Blob) returns (r: Result<(), CoreError>)
      modifies this`members, this`revision
      ensures (Model(), r) == C.AddMember(old(Model()), conversation, device, account)
      ensures old(Valid()) ==> Valid()
    {
      hide LocalLaws.Sound, LocalLaws.OpensAll;
      StepKeeps(Model(), C.Join(conversation, device, account));
      if conversation !in conversations {
        return Err(Database);
      }
      members := members[(conversation, device) := MemberRow(account, None)];
      revision := revision + 1;
      r := Ok(());
    }

    method RemoveMember(conversation: Id, device: Id, now: Millis) returns (r: Result<(), CoreError>)
      modifies this`members, this`revision
      ensures (Model(), r) == C.RemoveMember(old(Model()), conversation, device, now)
      ensures old(Valid()) ==> Valid()
    {
      hide LocalLaws.Sound, LocalLaws.OpensAll;
      StepKeeps(Model(), C.Leave(conversation, device, now));
      var k := (conversation, device);
      if k !in members || members[k].removedAt.Some? {
        return Err(NotFound);
      }
      members := members[k := members[k].(removedAt := Some(now))];
      revision := revision + 1;
      r := Ok(());
    }

    /** Every row is opened under the active key and sealed under the new one; a row that does not open
        undoes the rows before it. */
    method ResealMessages(newKey: Key, nonces: Id -> Blob) returns (r: Result<(), CoreError>)
      modifies this`messages, this`revision
      ensures r == if exists id :: id in old(messages) && old(messages)[id].body.key != key then Err(Authentication)
        else Ok(())
      ensures r.Err? ==> messages == old(messages) && revision == old(revision)
      ensures r.Ok? ==> revision == old(revision) + |old(messages)|
      ensures r.Ok? ==> messages == map id | id in old(messages) :: C.Reseal(old(messages)[id], newKey, nonces(id))
    {
      ResealStart(messages, key, newKey, nonces);
      hide Resealed;
      var before, revisionBefore := messages, revision;
      var rows := messages.Keys;
      while rows != {}
        invariant Resealed(before, messages, rows, key, newKey, nonces)
          && revision + |rows| == revisionBefore + |before|
        decreases rows
      {
        var id :| id in rows;
        ResealStep(before, messages, rows, key, newKey, nonces, id);
        var plaintext := C.Open(key, messages[id].body);
        if plaintext.Err? {
          messages, revision := before, revisionBefore;
          return Err(plaintext.error);
        }
        messages := messages[id := messages[id].(body := Sealed(newKey, nonces(id), plaintext.value))];
        revision := revision + 1;
        rows := rows - {id};
      }
      ResealEnd(before, messages, key, newKey, nonces);
      r := Ok(());
    }

    method RotateMasterKey(newKey: Key, newVersion: nat, nonces: Id -> Blob) returns (r: Result<(), CoreError>)
      modifies this`key, this`keyVersion, this`messages, this`revision
      ensures (Model(), r) == C.RotateMasterKey(old(Model()), newKey, newVersion, nonces)
      ensures old(Valid()) ==> Valid()
    {
      hide LocalLaws.Sound, LocalLaws.OpensAll, C.Reseal;
      StepKeeps(Model(), C.Rotate(newKey, newVersion, nonces));
      if newVersion != keyVersion + 1 {
        return Err(InvalidTransition);
      }
      r := ResealMessages(newKey, nonces);
      if r.Err? {
        return;
      }
      keyVersion := newVersion;
      key := newKey;
    }

    method WipeLocalAccount()
      modifies this`conversations, this`messages, this`order, this`outbox, this`inbox, this`members, this`revision
      ensures Model() == C.WipeLocalAccount(old(Model()))
      ensures Valid()
    {
      outbox := map[];
      inbox := map[];
      messages, order := map[], [];
      members := map[];
      conversations := map[];
      revision := revision + 1;
    }

    /* ---------- Reads ---------- */

    method ObserveConversationChanges(after: nat) returns (r: nat)
      ensures r == C.ObserveChanges(Model(), after)
    {
      r := if revision < after then after else revision;
    }

    /** The messages of a conversation by creation time and row, or the failure to open one of them. */
    method ListMessages(conversation: Id) returns (r: Result<seq<LocalMessage>, CoreError>)
      ensures r == C.ListMessages(Model(), conversation)
      ensures Valid() ==> r.Ok?
    {
      hide C.Listing, C.Show, LocalLaws.Sound, LocalLaws.OpensAll;
      if Valid() {
        LocalLaws.ListsAll(Model(), conversation);
      }
      var rows := StableSort(Collect(order, C.InConversation(messages, conversation)), C.Older(messages));
      assert rows == C.Listing(Model(), conversation) by { ListingRows(Model(), conversation); }
      var found: seq<LocalMessage> := [];
      for i := 0 to |rows|
        invariant C.ShowAll(Model(), rows[..i]) == Ok(found)
      {
        assert rows[..i + 1][..i] == rows[..i];
        var shown := ShowRow(rows[i]);
        if shown.Err? {
          FirstFailure(Model(), rows, i + 1);
          return Err(shown.error);
        }
        found := found + [shown.value];
      }
      assert rows[..|rows|] == rows;
      r := Ok(found);
    }

    method ShowRow(id: Id) returns (r: Result<LocalMessage, CoreError>)
      ensures r == match C.Show(Model(), id) case Some(m) => Ok(m) case None => Err(Authentication)
    {
      if id !in messages {
        return Err(Authentication);
      }
      var row := messages[id];
      var plaintext := C.Open(key, row.body);
      if plaintext.Err? {
        return Err(plaintext.error);
      }
      r := Ok(LocalMessage(id, plaintext.value, row.status, row.createdAt));
    }

    /** One of the rows that are next to be tried. */
    method Earliest(rows: set<Id>) returns (first: Id)
      requires rows != {} && rows <= outbox.Keys
      ensures first in rows && forall id :: id in rows ==> outbox[first].nextAttempt <= outbox[id].nextAttempt
    {
      first :| first in rows;
      var rest := rows - {first};
      while rest != {}
        invariant first in rows && rest <= rows
        invariant forall id :: id in rows - rest ==> outbox[first].nextAttempt <= outbox[id].nextAttempt
        decreases rest
      {
        var id :| id in rest;
        if outbox[id].nextAttempt < outbox[first].nextAttempt {
          first := id;
        }
        rest := rest - {id};
      }
    }

    /** What is handed out for a row is what the tables hold. */
    predicate Stored(p: PendingUpload)
      reads this
    {
      && p.id in messages && p.id in outbox
      && p == PendingUpload(p.id, messages[p.id].conversation, messages[p.id].body, outbox[p.id].attempts)
    }

    /** The due rows in the order of their next attempt, up to the limit. */
    method GetPendingUploads(limit: nat, now: Millis) returns (page: seq<PendingUpload>)
      ensures C.IsPending(Model(), limit, now, PendingIds(page))
      ensures forall p :: p in page ==> Stored(p)
    {
      var most := if limit < C.MAX_PENDING then limit else C.MAX_PENDING;
      var rest := set id | id in outbox && id in messages && outbox[id].nextAttempt <= now;
      page := [];
      StartPage(Model(), now, rest);
      hide Paged;
      while |page| < most && rest != {}
        invariant |page| <= most && rest <= outbox.Keys && rest <= messages.Keys
        invariant Paged(Model(), now, PendingIds(page), rest)
        invariant forall p :: p in page ==> Stored(p)
        decreases rest
      {
        var id := Earliest(rest);
        ExtendPage(Model(), now, PendingIds(page), rest, id);
        page := page + [PendingUpload(id, messages[id].conversation, messages[id].body, outbox[id].attempts)];
        assert PendingIds(page) == PendingIds(page[..|page| - 1]) + [id];
        rest := rest - {id};
      }
      CompletePage(Model(), limit, now, PendingIds(page), rest);
    }
  }

  /* ---------- Polls ---------- */

  /** The page so far and the rest make up the due rows, and the page holds the earliest, in order. */
  ghost predicate Paged(s: Core, now: Millis, ids: seq<Id>, rest: set<Id>) {
    && Distinct(ids)
    && (forall id :: id in Due(s, now) <==> id in ids || id in rest)
    && (forall id :: id in ids ==> id !in rest)
    && |ids| + |rest| == |Due(s, now)|
    && (forall i, j :: 0 <= i < j < |ids| ==> AttemptAt(s, ids[i]) <= AttemptAt(s, ids[j]))
    && (forall id, other :: id in ids && other in rest ==> AttemptAt(s, id) <= AttemptAt(s, other))
  }

  lemma StartPage(s: Core, now: Millis, rest: set<Id>)
    requires rest == Due(s, now)
    ensures Paged(s, now, [], rest)
  {
  }

  lemma ExtendPage(s: Core, now: Millis, ids: seq<Id>, rest: set<Id>, id: Id)
    requires Paged(s, now, ids, rest) && id in rest && rest <= s.outbox.Keys
    requires forall other :: other in rest ==> s.outbox[id].nextAttempt <= s.outbox[other].nextAttempt
    ensures Paged(s, now, ids + [id], rest - {id})
  {
    hide Due;
    assert |rest| == |rest - {id}| + 1;
    assert forall i :: 0 <= i < |ids| ==> ids[i] in ids;
  }

  lemma CompletePage(s: Core, limit: nat, now: Millis, ids: seq<Id>, rest: set<Id>)
    requires Paged(s, now, ids, rest)
    requires var most := if limit < MAX_PENDING then limit else MAX_PENDING;
      |ids| <= most && (|ids| == most || rest == {})
    ensures IsPending(s, limit, now, ids)
  {
    hide Due;
  }

  /* ---------- Key rotation ---------- */

  /** All but the remaining rows opened under the old key and are sealed under the new one. */
  ghost predicate Resealed(before: map<Id, Message>, after: map<Id, Message>, rows: set<Id>, key: Key, newKey: Key,
      nonces: Id -> Blob) {
    && rows <= after.Keys == before.Keys
    && (forall id :: id in rows ==> after[id] == before[id])
    && (forall id :: id in before && id !in rows ==>
      after[id] == Reseal(before[id], newKey, nonces(id)) && before[id].body.key == key)
  }

  lemma ResealStart(before: map<Id, Message>, key: Key, newKey: Key, nonces: Id -> Blob)
    ensures Resealed(before, before, before.Keys, key, newKey, nonces)
  {
  }

  lemma ResealStep(before: map<Id, Message>, after: map<Id, Message>, rows: set<Id>, key: Key, newKey: Key,
      nonces: Id -> Blob, id: Id)
    requires Resealed(before, after, rows, key, newKey, nonces) && id in rows
    ensures id in before && id in after && before[id] == after[id]
    ensures before[id].body.key == key ==>
      Resealed(before, after[id := Reseal(before[id], newKey, nonces(id))], rows - {id}, key, newKey, nonces)
  {
    hide Reseal;
  }

  lemma ResealEnd(before: map<Id, Message>, after: map<Id, Message>, key: Key, newKey: Key, nonces: Id -> Blob)
    requires Resealed(before, after, {}, key, newKey, nonces)
    ensures forall id :: id in before ==> before[id].body.key == key
    ensures after == map id | id in before :: Reseal(before[id], newKey, nonces(id))
  {
    hide Reseal;
  }

  /* ---------- Invariants ---------- */

  lemma StepKeeps(s: Core, call: Call)
    ensures LocalLaws.Sound(s) && LocalLaws.OpensAll(s) ==>
      LocalLaws.Sound(Step(s, call)) && LocalLaws.OpensAll(Step(s, call))
  {
    hide Step, LocalLaws.OpensAll, LocalLaws.Sound;
    if LocalLaws.Sound(s) && LocalLaws.OpensAll(s) {
      LocalLaws.StepOpensAll(s, call);
      LocalLaws.StepSound(s, call);
    }
  }

  lemma ListingRows(s: Core, conversation: Id)
    ensures Listing(s, conversation) ==
      StableSort(Collect(s.order, InConversation(s.messages, conversation)), Older(s.messages))
  {
  }

  lemma {:induction false} FirstFailure(s: Core, ids: seq<Id>, n: nat)
    requires n <= |ids| && ShowAll(s, ids[..n]).Err?
    ensures ShowAll(s, ids) == ShowAll(s, ids[..n])
    decreases |ids| - n
  {
    hide Show;
    if n == |ids| {
      assert ids[..n] == ids;
    } else {
      assert ids[..n + 1][..n] == ids[..n];
      FirstFailure(s, ids, n + 1);
    }
  }
}
