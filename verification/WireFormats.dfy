/** The bodies of uploads, sync requests and event pages say exactly what they carry: what the service
    reads has one form only, and what it writes can be read back. */
module WireFormats {
  import opened Results
  import opened Bytes
  import opened Api
  import opened Readers
  import opened ServerFrames
  import D = Delivery

  /* ---------- Signed numbers ---------- */

  predicate IsI16(n: int) {
    -0x8000 <= n < 0x8000
  }

  predicate IsI64(n: int) {
    -0x8000_0000_0000_0000 <= n < 0x8000_0000_0000_0000
  }

  function Signed64(n: nat): (r: int)
    requires n < 0x1_0000_0000_0000_0000
    ensures IsI64(r)
  {
    if n < 0x8000_0000_0000_0000 then n else n - 0x1_0000_0000_0000_0000
  }

  function Unsigned64(n: int): (r: nat)
    requires IsI64(n)
    ensures r < 0x1_0000_0000_0000_0000 && Signed64(r) == n
  {
    if n < 0 then n + 0x1_0000_0000_0000_0000 else n
  }

  lemma OctetExact(b: Blob, p: nat, n: Byte)
    requires p <= |b|
    ensures HasAt(b, p, [n]) <==> NumberAt(b, p, 1, InvalidInput) == Ok(At(n, p + 1))
  {
    Pow256Widths();
    NumberExact(b, p, n, 1, InvalidInput);
    assert n / 256 == 0 && n % 256 == n;
    assert BigEndian(n, 1) == BigEndian(0, 0) + [n];
    assert BigEndian(n, 1) == [n];
  }

  lemma RestExact(b: Blob, p: nat, x: Blob)
    requires p <= |b|
    ensures HasAt(b, p, x) && p + |x| == |b| <==> b[p..] == x
  {
  }

  /* ---------- Uploads ---------- */

  function CorrelationBytes(c: Option<Id>): Blob {
    match c
    case None => [0]
    case Some(id) => [1] + id
  }

  function UploadBytes(r: UploadRequest): Blob {
    r.token + ([OPERATION_EVENT] +
      (r.group + (r.eventId + (BigEndian(r.kind % 0x1_0000, 2) + (CorrelationBytes(r.correlation) + r.ciphertext)))))
  }

  lemma UploadLayout(b: Blob, r: UploadRequest)
    ensures HasAt(b, 0, UploadBytes(r)) <==>
      && HasAt(b, 0, r.token) && HasAt(b, 32, [OPERATION_EVENT]) && HasAt(b, 33, r.group) && HasAt(b, 49, r.eventId)
      && HasAt(b, 65, BigEndian(r.kind % 0x1_0000, 2)) && HasAt(b, 67, CorrelationBytes(r.correlation))
      && HasAt(b, 67 + |CorrelationBytes(r.correlation)|, r.ciphertext)
    ensures |UploadBytes(r)| == 67 + |CorrelationBytes(r.correlation)| + |r.ciphertext|
  {
    hide HasAt, BigEndian, CorrelationBytes;
    var t5 := CorrelationBytes(r.correlation) + r.ciphertext;
    var t4 := BigEndian(r.kind % 0x1_0000, 2) + t5;
    var t3 := r.eventId + t4;
    var t2 := r.group + t3;
    var t1 := [OPERATION_EVENT] + t2;
    HasAtSplit(b, 0, r.token, t1);
    HasAtSplit(b, 32, [OPERATION_EVENT], t2);
    HasAtSplit(b, 33, r.group, t3);
    HasAtSplit(b, 49, r.eventId, t4);
    HasAtSplit(b, 65, BigEndian(r.kind % 0x1_0000, 2), t5);
    HasAtSplit(b, 67, CorrelationBytes(r.correlation), r.ciphertext);
  }

  lemma CorrelationExact(b: Blob, p: nat, c: Option<Id>)
    requires p <= |b|
    ensures HasAt(b, p, CorrelationBytes(c)) <==> CorrelationAt(b, p) == Ok(At(c, p + |CorrelationBytes(c)|))
  {
    hide NumberAt;
    OctetExact(b, p, 0);
    OctetExact(b, p, 1);
    if c.Some? {
      HasAtSplit(b, p, [1], c.value);
      if p + 1 <= |b| { TakeExact(b, p + 1, c.value, InvalidInput); }
    }
    if NumberAt(b, p, 1, InvalidInput).Ok? {
      NumberRange(b, p, 1, InvalidInput);
    }
    hide HasAt;
  }

  predicate KindAt(b: Blob, p: nat, kind: int)
    requires p <= |b|
  {
    var n := NumberAt(b, p, 2, InvalidInput);
    n.Ok? && n.value.next == p + 2 && n.value.value < 0x1_0000 && Signed16(n.value.value) == kind
  }

  lemma KindExact(b: Blob, p: nat, kind: int)
    requires p <= |b| && IsI16(kind)
    ensures HasAt(b, p, BigEndian(kind % 0x1_0000, 2)) <==> KindAt(b, p, kind)
  {
    hide BigEndian, FromBigEndian, NumberAt, HasAt;
    Pow256Widths();
    NumberExact(b, p, kind % 0x1_0000, 2, InvalidInput);
  }

  /** Field by field. */
  ghost predicate ReadsAs(b: Blob, r: UploadRequest) {
    && 67 <= |b|
    && TakeAt(b, 0, 32, InvalidInput) == Ok(At(r.token, 32))
    && NumberAt(b, 32, 1, InvalidInput) == Ok(At(OPERATION_EVENT, 33))
    && TakeAt(b, 33, 16, InvalidInput) == Ok(At(r.group, 49))
    && TakeAt(b, 49, 16, InvalidInput) == Ok(At(r.eventId, 65))
    && KindAt(b, 65, r.kind)
    && CorrelationAt(b, 67).Ok? && CorrelationAt(b, 67).value.value == r.correlation
    && b[CorrelationAt(b, 67).value.next..] == r.ciphertext
  }

  lemma ParseReads(b: Blob, r: UploadRequest)
    ensures ParseUpload(b) == Ok(r) <==> ReadsAs(b, r)
  {
    hide FromBigEndian, CorrelationAt;
    if ParseUpload(b).Ok? || ReadsAs(b, r) {
      Pow256Widths();
      NumberRange(b, 65, 2, InvalidInput);
    }
  }

  /** Where the correlation ends is fixed by what it is. */
  lemma CorrelationEnd(b: Blob, p: nat)
    requires p <= |b| && CorrelationAt(b, p).Ok?
    ensures CorrelationAt(b, p).value.next == p + |CorrelationBytes(CorrelationAt(b, p).value.value)|
  {
  }

  lemma ReadsWhole(b: Blob, r: UploadRequest)
    requires IsI16(r.kind)
    ensures ReadsAs(b, r) <==> HasAt(b, 0, UploadBytes(r)) && |b| == |UploadBytes(r)|
  {
    hide BigEndian, FromBigEndian, NumberAt, TakeAt, KindAt, CorrelationBytes, CorrelationAt, UploadBytes, HasAt;
    UploadLayout(b, r);
    if 67 <= |b| {
      TakeExact(b, 0, r.token, InvalidInput);
      OctetExact(b, 32, OPERATION_EVENT);
      TakeExact(b, 33, r.group, InvalidInput);
      TakeExact(b, 49, r.eventId, InvalidInput);
      KindExact(b, 65, r.kind);
      CorrelationExact(b, 67, r.correlation);
      if CorrelationAt(b, 67).Ok? {
        CorrelationEnd(b, 67);
        RestExact(b, CorrelationAt(b, 67).value.next, r.ciphertext);
      }
    }
  }

  /** An upload body is read as this request exactly when it is this request's one form. */
  lemma UploadExact(b: Blob, r: UploadRequest)
    requires IsI16(r.kind)
    ensures ParseUpload(b) == Ok(r) <==> b == UploadBytes(r)
  {
    hide ReadsAs, ParseUpload, UploadBytes;
    ParseReads(b, r);
    ReadsWhole(b, r);
    HasAtWhole(UploadBytes(r));
    if HasAt(b, 0, UploadBytes(r)) && |b| == |UploadBytes(r)| {
      HasAtWholeIs(b, UploadBytes(r));
    }
  }

  /** Every accepted upload body is the one form of exactly its request. */
  lemma UploadBijection(b: Blob)
    ensures ParseUpload(b).Ok? ==> IsI16(ParseUpload(b).value.kind) && UploadBytes(ParseUpload(b).value) == b
  {
    hide ParseUpload, UploadBytes, TakeAt, NumberAt, CorrelationAt;
    if ParseUpload(b).Ok? {
      ParseReads(b, ParseUpload(b).value);
      UploadExact(b, ParseUpload(b).value);
    }
  }

  /* ---------- Sync requests ---------- */

  /** Operation 0 asks for one group, operation 1 for all groups of the device. */
  datatype SyncRequest = SyncRequest(token: Bytes32, group: Option<Id>, after: int, limit: Byte)

  /** Token, operation, group for operation 0, cursor cast to a signed number, limit, and no more. */
  function ParseSync(b: Blob): Result<SyncRequest, ApiError> {
    var token :- TakeAt(b, 0, 32, InvalidInput);
    var operation :- NumberAt(b, token.next, 1, InvalidInput);
    if operation.value > 1 then Err(InvalidInput) else
    var group :- SyncGroupAt(b, operation.next, operation.value == 0);
    var after :- NumberAt(b, group.next, 8, InvalidInput);
    var limit :- NumberAt(b, after.next, 1, InvalidInput);
    if limit.next != |b| then Err(InvalidInput) else
    Pow256Widths();
    NumberRange(b, group.next, 8, InvalidInput);
    NumberRange(b, after.next, 1, InvalidInput);
    Ok(SyncRequest(token.value, group.value, Signed64(after.value), limit.value))
  }

  function SyncGroupAt(b: Blob, p: nat, one: bool): (r: Result<At<Option<Id>>, ApiError>)
    requires p <= |b|
    ensures r.Ok? ==>
      r.value.next == (if one then p + 16 else p) && r.value.next <= |b| && (r.value.value.Some? <==> one)
  {
    if !one then Ok(At(None, p)) else
    var id :- TakeAt(b, p, 16, InvalidInput);
    Ok(At(Some(id.value), id.next))
  }

  function SyncBytes(q: SyncRequest): Blob
    requires IsI64(q.after)
  {
    q.token + (SyncGroupBytes(q.group) + (BigEndian(Unsigned64(q.after), 8) + [q.limit]))
  }

  function SyncGroupBytes(group: Option<Id>): Blob {
    match group
    case Some(id) => [0] + id
    case None => [1]
  }

  lemma SyncLayout(b: Blob, q: SyncRequest)
    requires IsI64(q.after)
    ensures var p := 32 + |SyncGroupBytes(q.group)|;
      && (HasAt(b, 0, SyncBytes(q)) <==>
        HasAt(b, 0, q.token) && HasAt(b, 32, SyncGroupBytes(q.group)) && HasAt(b, p, BigEndian(Unsigned64(q.after), 8))
          && HasAt(b, p + 8, [q.limit]))
      && |SyncBytes(q)| == p + 9
  {
    hide HasAt, BigEndian, SyncGroupBytes;
    var t2 := BigEndian(Unsigned64(q.after), 8) + [q.limit];
    HasAtSplit(b, 0, q.token, SyncGroupBytes(q.group) + t2);
    HasAtSplit(b, 32, SyncGroupBytes(q.group), t2);
    HasAtSplit(b, 32 + |SyncGroupBytes(q.group)|, BigEndian(Unsigned64(q.after), 8), [q.limit]);
  }

  lemma SyncGroupExact(b: Blob, group: Option<Id>)
    requires 33 <= |b|
    ensures HasAt(b, 32, SyncGroupBytes(group)) <==>
      NumberAt(b, 32, 1, InvalidInput) == Ok(At(if group.Some? then 0 else 1, 33))
      && SyncGroupAt(b, 33, group.Some?) == Ok(At(group, 32 + |SyncGroupBytes(group)|))
  {
    hide NumberAt;
    OctetExact(b, 32, 0);
    OctetExact(b, 32, 1);
    if group.Some? {
      HasAtSplit(b, 32, [0], group.value);
      TakeExact(b, 33, group.value, InvalidInput);
    }
  }

  lemma AfterExact(b: Blob, p: nat, after: int)
    requires p <= |b| && IsI64(after)
    ensures HasAt(b, p, BigEndian(Unsigned64(after), 8)) <==>
      NumberAt(b, p, 8, InvalidInput) == Ok(At(Unsigned64(after), p + 8))
  {
    Pow256Widths();
    NumberExact(b, p, Unsigned64(after), 8, InvalidInput);
  }

  /** A sync request is read as this query exactly when it is this query's one form. */
  lemma SyncExact(b: Blob, q: SyncRequest)
    requires IsI64(q.after)
    ensures ParseSync(b) == Ok(q) <==> b == SyncBytes(q)
  {
    hide BigEndian, FromBigEndian, TakeAt, NumberAt, SyncGroupAt, SyncGroupBytes, SyncBytes, ParseSync;
    HasAtWhole(SyncBytes(q));
    SyncLayout(b, q);
    SyncReads(b, q);
    if HasAt(b, 0, SyncBytes(q)) && |b| == |SyncBytes(q)| {
      HasAtWholeIs(b, SyncBytes(q));
    }
    hide HasAt;
    if 33 <= |b| {
      TakeExact(b, 0, q.token, InvalidInput);
      SyncGroupExact(b, q.group);
      var p := 32 + |SyncGroupBytes(q.group)|;
      if p <= |b| { AfterExact(b, p, q.after); }
      if p + 8 <= |b| { OctetExact(b, p + 8, q.limit); }
    }
  }

  /** Field by field. */
  ghost predicate SyncReadsAs(b: Blob, q: SyncRequest)
    requires IsI64(q.after)
  {
    var p := 32 + |SyncGroupBytes(q.group)|;
    && p + 9 == |b|
    && TakeAt(b, 0, 32, InvalidInput) == Ok(At(q.token, 32))
    && NumberAt(b, 32, 1, InvalidInput) == Ok(At(if q.group.Some? then 0 else 1, 33))
    && SyncGroupAt(b, 33, q.group.Some?) == Ok(At(q.group, p))
    && NumberAt(b, p, 8, InvalidInput) == Ok(At(Unsigned64(q.after), p + 8))
    && NumberAt(b, p + 8, 1, InvalidInput) == Ok(At(q.limit, p + 9))
  }

  lemma SyncReads(b: Blob, q: SyncRequest)
    requires IsI64(q.after)
    ensures ParseSync(b) == Ok(q) <==> SyncReadsAs(b, q)
  {
    if ParseSync(b) == Ok(q) {
      SyncFields(b, q);
    }
    if SyncReadsAs(b, q) {
      SyncParses(b, q);
    }
  }

  lemma SyncFields(b: Blob, q: SyncRequest)
    requires IsI64(q.after) && ParseSync(b) == Ok(q)
    ensures SyncReadsAs(b, q)
  {
    hide FromBigEndian;
    var operation := NumberAt(b, 32, 1, InvalidInput).value;
    var group := SyncGroupAt(b, 33, operation.value == 0).value;
    assert group.value == q.group && (q.group.Some? <==> operation.value == 0);
    assert group.next == 32 + |SyncGroupBytes(q.group)|;
    var after := NumberAt(b, group.next, 8, InvalidInput).value;
    Pow256Widths();
    NumberRange(b, group.next, 8, InvalidInput);
    assert q.after == Signed64(after.value) && after.value == Unsigned64(q.after);
  }

  lemma SyncParses(b: Blob, q: SyncRequest)
    requires IsI64(q.after) && SyncReadsAs(b, q)
    ensures ParseSync(b) == Ok(q)
  {
    hide NumberAt, TakeAt, SyncGroupAt;
    var operation := if q.group.Some? then 0 else 1;
    assert (operation == 0) == q.group.Some?;
    assert SyncGroupAt(b, 33, operation == 0) == Ok(At(q.group, 32 + |SyncGroupBytes(q.group)|));
    assert Signed64(Unsigned64(q.after)) == q.after;
  }

  method ReadSync(body: Blob) returns (r: Result<SyncRequest, ApiError>)
    ensures r == ParseSync(body)
  {
    hide BigEndian, FromBigEndian;
    Pow256Widths();
    var reader := new Reader(body, InvalidInput);
    var token :- reader.Take(32);
    var operation :- reader.Number(1);
    if operation > 1 {
      return Err(InvalidInput);
    }
    var group: Option<Id> := None;
    if operation == 0 {
      var id :- reader.Take(16);
      group := Some(id);
    }
    ghost var at := reader.position;
    var after :- reader.Number(8);
    NumberRange(body, at, 8, InvalidInput);
    ghost var at1 := reader.position;
    var limit :- reader.Number(1);
    NumberRange(body, at1, 1, InvalidInput);
    var finished :- reader.Finish(InvalidInput);
    r := Ok(SyncRequest(token, group, Signed64(after), limit));
  }

  /* ---------- Pages ---------- */

  /** What a page says of an event. */
  datatype SyncEvent = SyncEvent(cursor: nat, eventId: Id, kind: int, ciphertext: Blob)

  function OnWire(e: D.EventRow): SyncEvent {
    SyncEvent(e.cursor, e.eventId, e.kind, e.ciphertext)
  }

  function AllOnWire(events: seq<D.EventRow>): (r: seq<SyncEvent>)
    ensures |r| == |events|
  {
    seq(|events|, i requires 0 <= i < |events| => OnWire(events[i]))
  }

  /** A reader of pages, written from the layout alone. */
  function EventAt(b: Blob, p: nat): (r: Result<At<SyncEvent>, ApiError>)
    requires p <= |b|
    ensures r.Ok? ==> p <= r.value.next <= |b|
  {
    var cursor :- NumberAt(b, p, 8, InvalidInput);
    var id :- TakeAt(b, cursor.next, 16, InvalidInput);
    var kind :- NumberAt(b, id.next, 2, InvalidInput);
    var size :- NumberAt(b, kind.next, 4, InvalidInput);
    var ciphertext :- TakeAt(b, size.next, size.value, InvalidInput);
    Pow256Widths();
    NumberRange(b, id.next, 2, InvalidInput);
    Ok(At(SyncEvent(cursor.value, id.value, Signed16(kind.value), ciphertext.value), ciphertext.next))
  }

  function EventsAt(b: Blob, p: nat, count: nat): (r: Result<At<seq<SyncEvent>>, ApiError>)
    requires p <= |b|
    ensures r.Ok? ==> p <= r.value.next <= |b|
  {
    if count == 0 then Ok(At([], p)) else
    var before :- EventsAt(b, p, count - 1);
    var event :- EventAt(b, before.next);
    Ok(At(before.value + [event.value], event.next))
  }

  function ParsePage(b: Blob): Result<seq<SyncEvent>, ApiError> {
    if |b| < 2 then Err(InvalidInput) else
    var events :- EventsAt(b, 2, b[1]);
    if events.next == |b| then Ok(events.value) else Err(InvalidInput)
  }

  /** The widths that the row's columns have. */
  predicate Storable(e: D.EventRow) {
    e.cursor < 0x8000_0000_0000_0000 && IsI16(e.kind) && |e.ciphertext| < 0x1_0000_0000
  }

  lemma EventRead(b: Blob, p: nat, e: D.EventRow)
    requires Storable(e) && HasAt(b, p, EventBytes(e))
    ensures p <= |b| && EventAt(b, p) == Ok(At(OnWire(e), p + |EventBytes(e)|))
  {
    hide BigEndian, FromBigEndian, NumberAt, HasAt;
    Pow256Widths();
    EventLayout(b, p, e);
    NumberExact(b, p, e.cursor, 8, InvalidInput);
    TakeExact(b, p + 8, e.eventId, InvalidInput);
    KindExact(b, p + 24, e.kind);
    NumberExact(b, p + 26, |e.ciphertext|, 4, InvalidInput);
    TakeExact(b, p + 30, e.ciphertext, InvalidInput);
  }

  lemma EventLayout(b: Blob, p: nat, e: D.EventRow)
    requires HasAt(b, p, EventBytes(e))
    ensures p + 30 <= |b| && |EventBytes(e)| == 30 + |e.ciphertext|
    ensures HasAt(b, p, BigEndian(e.cursor, 8)) && HasAt(b, p + 8, e.eventId)
      && HasAt(b, p + 24, BigEndian(e.kind % 0x1_0000, 2))
    ensures HasAt(b, p + 26, BigEndian(|e.ciphertext|, 4)) && HasAt(b, p + 30, e.ciphertext)
  {
    hide BigEndian;
    var t1 := BigEndian(e.cursor, 8) + e.eventId;
    var t2 := t1 + BigEndian(e.kind % 0x1_0000, 2);
    var t3 := t2 + BigEndian(|e.ciphertext|, 4);
    HasAtSplit(b, p, t3, e.ciphertext);
    HasAtSplit(b, p, t2, BigEndian(|e.ciphertext|, 4));
    HasAtSplit(b, p, t1, BigEndian(e.kind % 0x1_0000, 2));
    HasAtSplit(b, p, BigEndian(e.cursor, 8), e.eventId);
  }

  lemma {:induction false} EventsRead(b: Blob, p: nat, events: seq<D.EventRow>)
    requires HasAt(b, p, EventsBytes(events)) && forall e :: e in events ==> Storable(e)
    ensures p <= |b| && EventsAt(b, p, |events|) == Ok(At(AllOnWire(events), p + |EventsBytes(events)|))
    decreases |events|
  {
    hide EventBytes, EventAt, Storable, OnWire;
    if events != [] {
      var n := |events| - 1;
      HasAtSplit(b, p, EventsBytes(events[..n]), EventBytes(events[n]));
      EventsRead(b, p, events[..n]);
      EventRead(b, p + |EventsBytes(events[..n])|, events[n]);
      assert AllOnWire(events) == AllOnWire(events[..n]) + [OnWire(events[n])];
    }
  }

  /** A page that the service writes can be read back event by event, whatever the ciphertexts hold. */
  lemma PageRoundTrip(operation: Byte, events: seq<D.EventRow>)
    requires |events| <= 0xFF && forall e :: e in events ==> Storable(e)
    ensures ParsePage(PageBody(operation, events)) == Ok(AllOnWire(events))
  {
    hide EventsBytes, EventsAt, Storable, OnWire, AllOnWire;
    var b := PageBody(operation, events);
    HasAtWhole(b);
    HasAtSplit(b, 0, [operation, |events|], EventsBytes(events));
    EventsRead(b, 2, events);
  }
}
