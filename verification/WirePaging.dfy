/** Following a group over the wire, where a page that does not fit its frame does not arrive. */
module WirePaging {
  import opened Results
  import opened Bytes
  import opened Sequences
  import opened Api
  import opened Delivery
  import opened DeliveryLaws
  import opened Paging
  import opened Protocol
  import opened ServerFrames
  import WireFormats

  lemma PageSmall(events: seq<EventRow>, group: Id, after: int, limit: int, now: Time)
    ensures |Page(events, group, after, limit, now)| <= MAX_SYNC_BATCH
  {
    hide Collect;
  }

  /** The page that a fetch brings, if its response encodes. */
  function Fetch(t: Tables, group: Id, after: int, limit: int, now: Time, id: Id): Option<seq<EventRow>> {
    PageSmall(t.events, group, after, limit, now);
    var page := Page(t.events, group, after, limit, now);
    if EncodeFrame(ResponseFrame(SyncBatch, id, PageBody(0, page))).Ok? then Some(page) else None
  }

  /** The rows that a page is made of. */
  function NextRows(t: Tables, group: Id, after: int, limit: int, now: Time): seq<EventRow> {
    Prefix(Remaining(t.events, group, after, now), Clamp(limit, 1, MAX_SYNC_BATCH))
  }

  predicate Fits(rows: seq<EventRow>) {
    2 + Sum(rows, EventSize()) <= MAX_BODY
  }

  /** A fetch fails exactly when the next rows, as many as the clamped limit allows, do not fit. */
  lemma FetchFailsIff(t: Tables, group: Id, after: int, limit: int, now: Time, id: Id)
    requires EventsSound(t)
    ensures var rows := NextRows(t, group, after, limit, now);
      Fetch(t, group, after, limit, now, id) == if Fits(rows) then Some(rows) else None
  {
    PageSmall(t.events, group, after, limit, now);
    PageAdvances(t, group, after, limit, now);
    hide EncodeFrame, PageBody, Page, Remaining, EventsSound, Sum;
    var page := Page(t.events, group, after, limit, now);
    assert page == NextRows(t, group, after, limit, now);
    PageEncodesIff(0, id, page);
  }

  /* ---------- The loop ---------- */

  /** Page after page until an empty one, or until one does not arrive: the pages, and whether the loop
      came to its end. */
  function Follow(t: Tables, group: Id, after: int, limit: int, now: Time, id: Id): (seq<seq<EventRow>>, bool)
    requires EventsSound(t)
    decreases |Remaining(t.events, group, after, now)|
  {
    PageAdvances(t, group, after, limit, now);
    FetchFailsIff(t, group, after, limit, now, id);
    match Fetch(t, group, after, limit, now, id)
    case None => ([], false)
    case Some(page) =>
      if page == [] then ([], true) else
      var (rest, finished) := Follow(t, group, page[|page| - 1].cursor, limit, now, id);
      ([page] + rest, finished)
  }

  ghost predicate AllFit(pages: seq<seq<EventRow>>) {
    forall i :: 0 <= i < |pages| ==> Fits(pages[i])
  }

  lemma FollowUnfold(t: Tables, group: Id, after: int, limit: int, now: Time, id: Id)
    requires EventsSound(t)
    ensures var page := Page(t.events, group, after, limit, now);
      Follow(t, group, after, limit, now, id) ==
      if !Fits(page) then ([], false)
      else if page == [] then ([], true)
      else
        var (rest, finished) := Follow(t, group, page[|page| - 1].cursor, limit, now, id);
        ([page] + rest, finished)
  {
    FetchFailsIff(t, group, after, limit, now, id);
    hide Fits, EventsSound, PageBody, EncodeFrame;
  }

  lemma NothingFits()
    ensures Fits([])
  {
  }

  /** Over an unchanging log the loop comes to its end exactly when every page fits, and then it brought
      all there was to see. */
  lemma {:induction false} FollowCompletesIff(t: Tables, group: Id, after: int, limit: int, now: Time, id: Id)
    requires EventsSound(t)
    ensures var (pages, finished) := Follow(t, group, after, limit, now, id);
      var all := FollowAll(t, group, after, limit, now);
      && (finished <==> AllFit(all))
      && (finished ==> pages == all && Flatten(pages) == Remaining(t.events, group, after, now))
    decreases |Remaining(t.events, group, after, now)|
  {
    FollowAllComplete(t, group, after, limit, now);
    FollowUnfold(t, group, after, limit, now, id);
    FollowAllUnfold(t, group, after, limit, now);
    hide Page, Remaining, EventsSound, FollowAll, Follow, Fits, Flatten, Clamp;
    var page := Page(t.events, group, after, limit, now);
    var all := FollowAll(t, group, after, limit, now);
    NothingFits();
    if page != [] {
      assert all[0] == page;
      if Fits(page) {
        var c := page[|page| - 1].cursor;
        FollowCompletesIff(t, group, c, limit, now, id);
        var rest := FollowAll(t, group, c, limit, now);
        assert forall i :: 0 <= i < |rest| ==> all[i + 1] == rest[i];
        assert forall i :: 0 < i < |all| ==> all[i] == rest[i - 1];
      }
    }
  }

  /* ---------- One by one ---------- */

  /** An upload frame carried this ciphertext. */
  ghost predicate CameInFrame(ciphertext: Blob) {
    exists b: Blob :: Carries(b, ciphertext)
  }

  predicate Carries(b: Blob, ciphertext: Blob) {
    && DecodeFrame(b).Ok? && ParseUpload(DecodeFrame(b).value.body).Ok?
    && ParseUpload(DecodeFrame(b).value.body).value.ciphertext == ciphertext
  }

  const LARGEST := MAX_BODY - 68

  lemma FramedSize(ciphertext: Blob)
    requires CameInFrame(ciphertext)
    ensures |ciphertext| <= LARGEST
  {
    var b :| Carries(b, ciphertext);
    hide ParseUpload, DecodeFrame;
    AcceptedBodyFits(b);
    UploadSize(DecodeFrame(b).value.body);
  }

  ghost predicate Framed(calls: seq<Call>) {
    forall i :: 0 <= i < |calls| && calls[i].Upload? ==> CameInFrame(calls[i].event.ciphertext)
  }

  ghost predicate RowsFit(events: seq<EventRow>) {
    forall e :: e in events ==> |e.ciphertext| <= LARGEST
  }

  lemma StepRowsFit(t: Tables, call: Call, check: SignatureCheck)
    requires EventsSound(t) && RowsFit(t.events) && (call.Upload? ==> CameInFrame(call.event.ciphertext))
    ensures RowsFit(Step(t, call, check).events)
  {
    hide EventsSound, CameInFrame, UploadEvent, Cleanup, ApplyMembership;
    match call
    case Upload(e, now) =>
      FramedSize(e.ciphertext);
      UploadResult(t, e, now);
    case Expire(victims, batch, now) => CleanupResult(t, victims, batch, now);
    case Apply(o, signature) => ApplyTouchesMembers(t, o, signature, check);
    case _ =>
  }

  lemma {:induction false} RunRowsFit(calls: seq<Call>, check: SignatureCheck)
    requires Framed(calls)
    ensures var t := Run(EMPTY, calls, check); EventsSound(t) && RowsFit(t.events)
    decreases |calls|
  {
    hide RowsFit, Step, Sound, CameInFrame;
    EmptySound(check);
    RunSound(EMPTY, calls, check);
    SoundParts(Run(EMPTY, calls, check), check);
    if calls == [] {
      NoRows();
    } else {
      var n := |calls| - 1;
      assert forall i :: 0 <= i < n ==> calls[..n][i] == calls[i];
      RunRowsFit(calls[..n], check);
      StepRowsFit(Run(EMPTY, calls[..n], check), calls[n], check);
    }
  }

  lemma NoRows()
    ensures RowsFit([])
  {
  }

  lemma {:induction false} SinglesFit(t: Tables, group: Id, after: int, limit: int, now: Time)
    requires EventsSound(t) && RowsFit(t.events) && limit <= 1
    ensures AllFit(FollowAll(t, group, after, limit, now))
    decreases |Remaining(t.events, group, after, now)|
  {
    FollowAllUnfold(t, group, after, limit, now);
    RemainingMembers(t, group, after, now);
    PageAdvances(t, group, after, limit, now);
    hide Page, Remaining, EventsSound, FollowAll, Sum;
    var page := Page(t.events, group, after, limit, now);
    if page != [] {
      SinglesFit(t, group, page[|page| - 1].cursor, limit, now);
      assert page == [page[0]];
      assert page[0] in Remaining(t.events, group, after, now);
      SingleSize(page[0]);
    }
  }

  /** With the least limit, following over the wire always comes to its end and brings everything, in
      every state that the service reaches by uploads from frames. */
  lemma OneByOneCompletes(calls: seq<Call>, group: Id, after: int, limit: int, now: Time, id: Id, check: SignatureCheck)
    requires Framed(calls) && limit <= 1
    ensures var t := Run(EMPTY, calls, check);
      && EventsSound(t)
      && var (pages, finished) := Follow(t, group, after, limit, now, id);
        finished && Flatten(pages) == Remaining(t.events, group, after, now)
  {
    RunRowsFit(calls, check);
    hide Run, EventsSound, RowsFit, Follow, FollowAll, AllFit, Remaining;
    SinglesFit(Run(EMPTY, calls, check), group, after, limit, now);
    FollowCompletesIff(Run(EMPTY, calls, check), group, after, limit, now, id);
  }

  /* ---------- Getting stuck ---------- */

  lemma {:induction false} SumPrefix(a: seq<EventRow>, b: seq<EventRow>)
    requires a <= b
    ensures Sum(a, EventSize()) <= Sum(b, EventSize())
    decreases |b|
  {
    if a != b {
      SumPrefix(a, b[..|b| - 1]);
    }
  }

  /** No further upload helps a follower whose next page does not arrive. */
  lemma UploadsDoNotHelp(t: Tables, e: UploadedEvent, at: Time, group: Id, after: int, limit: int, now: Time, id: Id)
    requires EventsSound(t) && Fetch(t, group, after, limit, now, id).None?
    ensures Fetch(UploadEvent(t, e, at).0, group, after, limit, now, id).None?
  {
    var u := UploadEvent(t, e, at).0;
    UploadResult(t, e, at);
    FetchFailsIff(t, group, after, limit, now, id);
    FetchFailsIff(u, group, after, limit, now, id);
    if u.events != t.events {
      CollectAppend(t.events, NewRow(t, e, at), Visible(group, after, now));
    }
    hide Collect, EventsSound, UploadEvent, Fetch, NewRow, Visible, Sum;
    SumPrefix(NextRows(t, group, after, limit, now), NextRows(u, group, after, limit, now));
  }

  /** An upload request with this ciphertext has a frame. */
  lemma RequestHasFrame(r: UploadRequest, client: Id)
    requires WireFormats.IsI16(r.kind) && |r.ciphertext| <= LARGEST && r.correlation.None?
    ensures CameInFrame(r.ciphertext)
  {
    hide EncodeFrame, DecodeFrame, ParseUpload;
    var body := WireFormats.UploadBytes(r);
    WireFormats.UploadLayout(body, r);
    WireFormats.UploadExact(body, r);
    ResponseEncodesIff(UploadEnvelope, client, body);
    var frame := ResponseFrame(UploadEnvelope, client, body);
    FrameRoundTrip(frame);
    assert Carries(EncodeFrame(frame).value, r.ciphertext);
  }

  function Text(client: Id, group: Id, device: Id, ciphertext: Blob): UploadedEvent {
    UploadedEvent(client, group, device, client, 1, ciphertext, None)
  }

  /** A device registers, creates a group and uploads two events. */
  function PairRun(account: Bytes32, c: DeviceCertificate, group: Id, one: Id, two: Id, a: Blob, b: Blob): seq<Call> {
    [Register(account, account, c, true), NewGroup(group, c.device, account),
     Upload(Text(one, group, c.device, a), 0), Upload(Text(two, group, c.device, b), 0)]
  }

  lemma PairStored(account: Bytes32, c: DeviceCertificate, group: Id, one: Id, two: Id, a: Blob, b: Blob,
    check: SignatureCheck)
    requires one != two && c.issuedAt <= MAX_ISSUED_AT && 0 < |a| <= LARGEST && 0 < |b| <= LARGEST
    ensures var t := Run(EMPTY, PairRun(account, c, group, one, two, a, b), check);
      && ActiveMember(t, group, c.device)
      && t.events == [EventRow(1, one, group, c.device, one, 1, a, None, EVENT_TTL),
        EventRow(2, two, group, c.device, two, 1, b, None, EVENT_TTL)]
  {
    hide Collect;
    var calls := PairRun(account, c, group, one, two, a, b);
    assert calls[..3][..2] == calls[..2] && calls[..2][..1] == calls[..1] && calls[..1][..0] == [];
    var t1 := RegisterDevice(EMPTY, account, account, c, true).0;
    var t2 := CreateGroup(t1, group, c.device, account).0;
    assert Run(EMPTY, calls[..1], check) == t1;
    assert Run(EMPTY, calls[..2], check) == t2;
    assert ActiveMember(t2, group, c.device) && t2.events == [] && t2.nextCursor == 1;
    var first := EventRow(1, one, group, c.device, one, 1, a, None, EVENT_TTL);
    var t3 := t2.(events := [first], nextCursor := 2);
    assert UploadEvent(t2, Text(one, group, c.device, a), 0).0 == t3;
    assert Run(EMPTY, calls[..3], check) == t3;
    SecondUpload(t3, first, Text(two, group, c.device, b));
  }

  lemma SecondUpload(t: Tables, first: EventRow, e: UploadedEvent)
    requires t.events == [first] && t.nextCursor == 2 && Refusal(t, e).None?
    requires first.clientMessageId != e.clientMessageId && first.eventId != e.eventId
    ensures UploadEvent(t, e, 0).0 == t.(events := [first, NewRow(t, e, 0)], nextCursor := 3)
  {
    hide Refusal, NewRow;
    assert FindEvent(t.events, e.author, e.clientMessageId).None?;
    assert [first] + [NewRow(t, e, 0)] == [first, NewRow(t, e, 0)];
  }

  /** It happens: a device uploads two events from frames, each of at least 32725 octets. A member that
      asks for a full page is answered with both, and the page does not arrive. */
  lemma PairGetsStuck(account: Bytes32, c: DeviceCertificate, group: Id, one: Id, two: Id, a: Blob, b: Blob, id: Id,
      check: SignatureCheck)
    requires one != two && c.issuedAt <= MAX_ISSUED_AT && 32725 <= |a| == |b| <= LARGEST
    ensures var calls := PairRun(account, c, group, one, two, a, b); var t := Run(EMPTY, calls, check);
      && Framed(calls)
      && SyncGroup(t, c.device, group, 0, MAX_SYNC_BATCH, 0) == Ok(t.events) && |t.events| == 2
      && Fetch(t, group, 0, MAX_SYNC_BATCH, 0, id).None?
  {
    hide Run, PairRun, Framed, Page, Fetch, EncodeFrame, PageBody, Fits;
    PairFramed(account, c, group, one, two, a, b);
    PairStored(account, c, group, one, two, a, b, check);
    var t := Run(EMPTY, PairRun(account, c, group, one, two, a, b), check);
    BothShown(t.events, group);
    TwoDoNotArrive(t, group, id);
  }

  lemma PairFramed(account: Bytes32, c: DeviceCertificate, group: Id, one: Id, two: Id, a: Blob, b: Blob)
    requires |a| <= LARGEST && |b| <= LARGEST
    ensures Framed(PairRun(account, c, group, one, two, a, b))
  {
    hide CameInFrame;
    var token := seq(32, _ => 0);
    RequestHasFrame(UploadRequest(token, group, one, 1, None, a), one);
    RequestHasFrame(UploadRequest(token, group, two, 1, None, b), two);
  }

  lemma TwoDoNotArrive(t: Tables, group: Id, id: Id)
    requires |t.events| == 2 && Page(t.events, group, 0, MAX_SYNC_BATCH, 0) == t.events
    requires |t.events[0].ciphertext| == |t.events[1].ciphertext| >= 32725
    ensures Fetch(t, group, 0, MAX_SYNC_BATCH, 0, id).None?
  {
    hide EncodeFrame, PageBody, Page;
    assert t.events == [t.events[0], t.events[1]];
    PairTooLarge(0, id, t.events[0], t.events[1]);
  }

  lemma BothShown(events: seq<EventRow>, group: Id)
    requires |events| == 2 && forall i :: 0 <= i < 2 ==>
      events[i].group == group && events[i].cursor > 0 && events[i].expiresAt > 0
    ensures Page(events, group, 0, MAX_SYNC_BATCH, 0) == events
  {
    var pick := Visible(group, 0, 0);
    assert events[..1][..0] == [];
    assert Collect(events[..1], pick) == [events[0]];
    assert events == events[..1] + [events[1]];
  }
}
