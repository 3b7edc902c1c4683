/** The outbox over time: when a row is tried again, and how polling and accepting empties it. */
module LocalOutbox {
  import opened Results
  import opened Bytes
  import opened Sequences
  import opened LocalCore
  import opened LocalLaws

  /* ---------- Retries ---------- */

  /** When the row of a message was rescheduled, since the last wipe; a retry that stopped half-way counts. */
  function RetryTimes(s: Core, calls: seq<Call>, id: Id): seq<Millis>
    decreases |calls|
  {
    if calls == [] then [] else
    var before := calls[..|calls| - 1];
    var call := calls[|calls| - 1];
    if call.Wipe? then []
    else if call.Retry? && call.id == id && id in Run(s, before).outbox then RetryTimes(s, before, id) + [call.now]
    else RetryTimes(s, before, id)
  }

  /** The row of a message retried at the given times: never retried, it waits from its creation. */
  predicate Scheduled(s: Core, id: Id, times: seq<Millis>) {
    && (id !in s.messages ==> times == [] && id !in s.outbox)
    && (id in s.outbox ==>
        && s.outbox[id].attempts == |times|
        && (times == [] ==> s.outbox[id].nextAttempt == s.messages[id].createdAt)
        && (times != [] ==> s.outbox[id].nextAttempt == times[|times| - 1] + Delay(|times| - 1)))
  }

  lemma StepScheduled(s: Core, call: Call, id: Id, times: seq<Millis>)
    requires Scheduled(s, id, times)
    ensures var later := if call.Wipe? then [] else if call.Retry? && call.id == id && id in s.outbox
      then times + [call.now] else times;
      Scheduled(Step(s, call), id, later)
  {
    hide Delay;
    match call
    case Ingest(events, now) =>
      IngestKeeps(s, events, now);
      hide IngestAll;
    case Rotate(_, _, _) =>
      hide CreateMessage, RetryMessage, IngestAll;
    case Create(_, _, _, _, _) =>
      hide RetryMessage, IngestAll, RotateMasterKey;
    case Retry(i, now, complete) =>
      hide CreateMessage, IngestAll, RotateMasterKey;
    case _ =>
      hide CreateMessage, RetryMessage, IngestAll, RotateMasterKey;
  }

  /** In every run, a message retried k times has k attempts recorded, and is next tried a delay of
      1000 ms doubled k - 1 times, at most 10 times, after its last retry. */
  lemma {:induction false} RetrySchedule(key: Key, calls: seq<Call>, id: Id)
    ensures Scheduled(Run(New(key), calls), id, RetryTimes(New(key), calls, id))
    decreases |calls|
  {
    hide Scheduled, Step;
    if calls == [] {
      assert Scheduled(New(key), id, []) by { NothingScheduled(key, id); }
    } else {
      RetrySchedule(key, calls[..|calls| - 1], id);
      StepScheduled(Run(New(key), calls[..|calls| - 1]), calls[|calls| - 1], id,
        RetryTimes(New(key), calls[..|calls| - 1], id));
    }
  }

  lemma NothingScheduled(key: Key, id: Id)
    ensures Scheduled(New(key), id, [])
  {
  }

  /** The delays: doubling from one second, then 1024 seconds for good. */
  lemma DelayLaw(k: nat)
    ensures Delay(0) == 1000
    ensures k < 10 ==> Delay(k + 1) == 2 * Delay(k)
    ensures k >= 10 ==> Delay(k) == 1024000
  {
    assert Pow2(4) == 16;
    assert Pow2(8) == 16 * Pow2(4);
    assert Pow2(10) == 4 * Pow2(8);
  }

  /* ---------- Draining ---------- */

  /** What waits is uploadable: no receipt overtook it. */
  predicate PromptRow(row: Row) {
    row.queued ==> row.status.Some? && Uploadable(row.status.value)
  }

  ghost predicate Prompt(s: Core) {
    forall id: Id :: PromptRow(RowOf(s, id))
  }

  /** Receipts come only for messages whose upload was acknowledged. */
  ghost predicate ReceiptsInTurn(s: Core, calls: seq<Call>) {
    forall i :: 0 <= i < |calls| && calls[i].Receipt? ==> calls[i].id !in Run(s, calls[..i]).outbox
  }

  lemma StepPrompt(s: Core, call: Call)
    requires Prompt(s) && (call.Receipt? ==> call.id !in s.outbox)
    ensures Prompt(Step(s, call))
  {
    forall id: Id
      ensures PromptRow(RowOf(Step(s, call), id))
    {
      RowRefines(s, call, id);
      assert PromptRow(RowOf(s, id));
      hide Step;
    }
  }

  lemma {:induction false} RunPrompt(s: Core, calls: seq<Call>)
    requires Prompt(s) && ReceiptsInTurn(s, calls)
    ensures Prompt(Run(s, calls))
    decreases |calls|
  {
    hide Prompt, Step;
    if calls != [] {
      var n := |calls| - 1;
      assert forall i :: 0 <= i < n ==> calls[..n][..i] == calls[..i];
      RunPrompt(s, calls[..n]);
      StepPrompt(Run(s, calls[..n]), calls[n]);
    }
  }

  /** A poll returns rows that wait and are due, the earliest first, at most 50 and at most the limit; what it
      leaves out is not earlier, and when it returns fewer than that, it leaves out none. */
  lemma PollsWhatIsDue(s: Core, limit: nat, now: Millis, page: seq<Id>)
    requires IsPending(s, limit, now, page)
    ensures |page| <= limit && |page| <= 50
    ensures forall id :: id in page ==> id in s.outbox && id in s.messages && s.outbox[id].nextAttempt <= now
    ensures forall i, j :: 0 <= i < j < |page| ==> s.outbox[page[i]].nextAttempt <= s.outbox[page[j]].nextAttempt
    ensures forall id, other :: id in page && other !in page && other in Due(s, now) ==>
      s.outbox[id].nextAttempt <= s.outbox[other].nextAttempt
    ensures |page| < limit && |page| < 50 ==>
      forall id :: id in s.outbox && id in s.messages && s.outbox[id].nextAttempt <= now ==> id in page
  {
    SizeOfDistinct(page);
    var polled := set id | id in page;
    var due := Due(s, now);
    assert polled <= due;
    if |page| < limit && |page| < 50 {
      assert |due - polled| == |due| - |polled|;
      assert due - polled == {};
      forall id | id in s.outbox && id in s.messages && s.outbox[id].nextAttempt <= now
        ensures id in page
      {
        assert id in due && id !in due - polled;
      }
    }
  }

  function AcceptAll(s: Core, ids: seq<Id>): Core
    decreases |ids|
  {
    if ids == [] then s else AcceptAll(MarkUploadAccepted(s, ids[0]).0, ids[1..])
  }

  predicate AllAccepted(s: Core, ids: seq<Id>)
    decreases |ids|
  {
    ids == [] || (MarkUploadAccepted(s, ids[0]).1.Ok? && AllAccepted(MarkUploadAccepted(s, ids[0]).0, ids[1..]))
  }

  lemma AcceptPrompt(s: Core, id: Id)
    requires Prompt(s) && id in s.outbox
    ensures var (t, r) := MarkUploadAccepted(s, id);
      && r.Ok? && Prompt(t) && t.outbox == s.outbox - {id} && t.messages.Keys == s.messages.Keys
  {
    assert PromptRow(RowOf(s, id));
    StepPrompt(s, Accept(id));
    assert Step(s, Accept(id)) == MarkUploadAccepted(s, id).0;
    hide Prompt;
  }

  lemma {:induction false} PageAccepted(s: Core, ids: seq<Id>)
    requires Prompt(s) && Distinct(ids) && forall id :: id in ids ==> id in s.outbox
    ensures AllAccepted(s, ids)
    ensures var t := AcceptAll(s, ids);
      Prompt(t) && t.outbox == s.outbox - (set id | id in ids) && t.messages.Keys == s.messages.Keys
    decreases |ids|
  {
    hide Prompt, MarkUploadAccepted;
    if ids == [] {
      assert s.outbox - (set id | id in ids) == s.outbox;
    } else {
      AcceptPrompt(s, ids[0]);
      var t := MarkUploadAccepted(s, ids[0]).0;
      assert ids == [ids[0]] + ids[1..];
      PageAccepted(t, ids[1..]);
      assert (set id | id in ids) == {ids[0]} + (set id | id in ids[1..]);
    }
  }

  /** Rounds of polling 50 at the same moment and accepting everything returned. */
  ghost predicate Rounds(s: Core, now: Millis, pages: seq<seq<Id>>)
    decreases |pages|
  {
    pages == [] || (IsPending(s, MAX_PENDING, now, pages[0]) && Rounds(AcceptAll(s, pages[0]), now, pages[1..]))
  }

  function AfterRounds(s: Core, pages: seq<seq<Id>>): Core
    decreases |pages|
  {
    if pages == [] then s else AfterRounds(AcceptAll(s, pages[0]), pages[1..])
  }

  predicate RoundsAccepted(s: Core, pages: seq<seq<Id>>)
    decreases |pages|
  {
    pages == [] || (AllAccepted(s, pages[0]) && RoundsAccepted(AcceptAll(s, pages[0]), pages[1..]))
  }

  lemma {:induction false} SizeOfDistinct(ids: seq<Id>)
    requires Distinct(ids)
    ensures |set id | id in ids| == |ids|
  {
    if ids != [] {
      var n := |ids| - 1;
      SizeOfDistinct(ids[..n]);
      assert (set id | id in ids) == (set id | id in ids[..n]) + {ids[n]};
    }
  }

  lemma RoundShrinks(s: Core, now: Millis, page: seq<Id>)
    requires Prompt(s) && IsPending(s, MAX_PENDING, now, page)
    ensures var t := AcceptAll(s, page);
      && AllAccepted(s, page) && Prompt(t)
      && |Due(t, now)| == if |Due(s, now)| < MAX_PENDING then 0 else |Due(s, now)| - MAX_PENDING
  {
    PageAccepted(s, page);
    SizeOfDistinct(page);
    hide Prompt, AcceptAll, AllAccepted;
    var t := AcceptAll(s, page);
    var gone := set id | id in page;
    assert Due(t, now) == Due(s, now) - gone;
    assert gone <= Due(s, now);
  }

  /** Without new messages, and when no receipt overtook an upload, ceil(n / 50) rounds over n due rows
      accept every row they are given and leave nothing due, whichever rows the polls choose. */
  lemma {:induction false} OutboxDrains(s: Core, now: Millis, pages: seq<seq<Id>>)
    requires Prompt(s) && Rounds(s, now, pages) && |Due(s, now)| <= MAX_PENDING * |pages|
    ensures RoundsAccepted(s, pages) && Due(AfterRounds(s, pages), now) == {}
    decreases |pages|
  {
    hide Prompt, AcceptAll, AllAccepted, IsPending, Due;
    if pages != [] {
      RoundShrinks(s, now, pages[0]);
      OutboxDrains(AcceptAll(s, pages[0]), now, pages[1..]);
    }
  }
}
