/** Request and response bodies of the delivery service: event uploads and event pages, and how
    their sizes fit the frame. */
module ServerFrames {
  import opened Results
  import opened Bytes
  import opened Sequences
  import opened Api
  import opened Readers
  import opened Protocol
  import D = Delivery

  const OPERATION_EVENT := 1

  /** The body of an upload frame, operation 1. */
  datatype UploadRequest = UploadRequest(
    token: Bytes32, group: Id, eventId: Id, kind: int, correlation: Option<Id>, ciphertext: Blob)

  function Signed16(n: nat): int
    requires n < 0x1_0000
  {
    if n < 0x8000 then n else n - 0x1_0000
  }

  function CorrelationAt(b: Blob, p: nat): (r: Result<At<Option<Id>>, ApiError>)
    requires p <= |b|
    ensures r.Ok? ==> p < r.value.next <= |b|
  {
    var flag :- NumberAt(b, p, 1, InvalidInput);
    if flag.value == 0 then Ok(At(None, flag.next))
    else if flag.value == 1 then
      var id :- TakeAt(b, flag.next, 16, InvalidInput);
      Ok(At(Some(id.value), id.next))
    else Err(InvalidInput)
  }

  /** Token, operation byte, group, event id, kind, optional correlation; the rest is ciphertext. */
  function ParseUpload(b: Blob): Result<UploadRequest, ApiError> {
    var token :- TakeAt(b, 0, 32, InvalidInput);
    var operation :- NumberAt(b, token.next, 1, InvalidInput);
    if operation.value != OPERATION_EVENT then Err(InvalidInput) else
    var group :- TakeAt(b, operation.next, 16, InvalidInput);
    var event :- TakeAt(b, group.next, 16, InvalidInput);
    var kind :- NumberAt(b, event.next, 2, InvalidInput);
    var correlation :- CorrelationAt(b, kind.next);
    Pow256Widths();
    NumberRange(b, event.next, 2, InvalidInput);
    Ok(UploadRequest(token.value, group.value, event.value, Signed16(kind.value), correlation.value,
      b[correlation.next..]))
  }

  /* ---------- Pages ---------- */

  function EventBytes(e: D.EventRow): Blob {
    BigEndian(e.cursor, 8) + e.eventId + BigEndian(e.kind % 0x1_0000, 2) + BigEndian(|e.ciphertext|, 4) + e.ciphertext
  }

  function EventsBytes(events: seq<D.EventRow>): Blob {
    if events == [] then [] else EventsBytes(events[..|events| - 1]) + EventBytes(events[|events| - 1])
  }

  /** The body of a sync batch: operation, number of events, events. */
  function PageBody(operation: Byte, events: seq<D.EventRow>): Blob
    requires |events| <= 0xFF
  {
    [operation, |events|] + EventsBytes(events)
  }

  function ResponseFrame(kind: FrameType, id: Id, body: Blob): TransportFrame {
    TransportFrame(PROTOCOL_VERSION, kind, id, 0, body)
  }

  /** A response that does not encode goes out as an empty body. */
  function CborBody(frame: TransportFrame): Blob {
    match EncodeFrame(frame)
    case Ok(b) => b
    case Err(_) => []
  }

  function EventSize(): D.EventRow -> nat {
    (e: D.EventRow) => 30 + |e.ciphertext|
  }

  /* ---------- Sizes ---------- */

  const MAX_BODY := 65511

  lemma FrameSize(f: TransportFrame)
    requires f.version == PROTOCOL_VERSION
    ensures |FrameBytes(f)| == 21 + |HeadBytes(0, f.ttlSeconds)| + |HeadBytes(2, |f.body|)| + |f.body|
  {
  }

  /** A response encodes exactly when its body is at most 65511 octets. */
  lemma ResponseEncodesIff(kind: FrameType, id: Id, body: Blob)
    ensures EncodeFrame(ResponseFrame(kind, id, body)).Ok? <==> |body| <= MAX_BODY
  {
    FrameSize(ResponseFrame(kind, id, body));
    hide FrameBytes;
  }

  /** No accepted frame, of whatever kind and lifetime, has a larger body. */
  lemma AcceptedBodyFits(b: Blob)
    ensures DecodeFrame(b).Ok? ==> |DecodeFrame(b).value.body| <= MAX_BODY
  {
    hide FrameBytes, FrameAt, HeadBytes;
    if DecodeFrame(b).Ok? {
      FrameBijection(b);
      FrameSize(DecodeFrame(b).value);
      HeadSizes(|DecodeFrame(b).value.body|);
    }
  }

  lemma HeadSizes(n: nat)
    ensures n > MAX_BODY ==> |HeadBytes(2, n)| >= 3
  {
  }

  lemma {:induction false} PageSize(operation: Byte, events: seq<D.EventRow>)
    requires |events| <= 0xFF
    ensures |PageBody(operation, events)| == 2 + Sum(events, EventSize())
  {
    if events == [] {
    } else {
      var n := |events| - 1;
      PageSize(operation, events[..n]);
    }
  }

  /** A page of events encodes exactly when 2 + the sum of (30 + ciphertext length) is at most 65511;
      otherwise the client is sent nothing. */
  lemma PageEncodesIff(operation: Byte, id: Id, events: seq<D.EventRow>)
    requires |events| <= 0xFF
    ensures EncodeFrame(ResponseFrame(SyncBatch, id, PageBody(operation, events))).Ok? <==>
      2 + Sum(events, EventSize()) <= MAX_BODY
    ensures 2 + Sum(events, EventSize()) > MAX_BODY <==>
      CborBody(ResponseFrame(SyncBatch, id, PageBody(operation, events))) == []
  {
    PageSize(operation, events);
    ResponseEncodesIff(SyncBatch, id, PageBody(operation, events));
    EncodingsNotEmpty(ResponseFrame(SyncBatch, id, PageBody(operation, events)));
    hide EncodeFrame, PageBody, Sum;
  }

  lemma EncodingsNotEmpty(f: TransportFrame)
    ensures EncodeFrame(f).Ok? ==> EncodeFrame(f).value != []
  {
  }

  lemma UploadSize(b: Blob)
    ensures ParseUpload(b).Ok? ==> |ParseUpload(b).value.ciphertext| <= |b| - 68
  {
    hide BigEndian, FromBigEndian;
  }

  /** Every event accepted through an upload frame fits alone into a sync batch, whatever the lifetime
      and the correlation id of the upload. */
  lemma AcceptedEventFits(b: Blob, operation: Byte, id: Id, row: D.EventRow)
    ensures DecodeFrame(b).Ok? && ParseUpload(DecodeFrame(b).value.body).Ok?
      && row.ciphertext == ParseUpload(DecodeFrame(b).value.body).value.ciphertext
      ==> EncodeFrame(ResponseFrame(SyncBatch, id, PageBody(operation, [row]))).Ok?
  {
    hide FrameAt, FrameBytes, ParseUpload, PageBody, EncodeFrame, DecodeFrame;
    AcceptedBodyFits(b);
    PageEncodesIff(operation, id, [row]);
    SingleSize(row);
    if DecodeFrame(b).Ok? {
      UploadSize(DecodeFrame(b).value.body);
    }
  }

  lemma SingleSize(row: D.EventRow)
    ensures Sum([row], EventSize()) == 30 + |row.ciphertext|
  {
    assert [row][..0] == [];
  }

  /** Two events that fit alone need not fit together: from 32725 octets each, they do not. */
  lemma PairTooLarge(operation: Byte, id: Id, a: D.EventRow, b: D.EventRow)
    requires |a.ciphertext| == |b.ciphertext|
    ensures EncodeFrame(ResponseFrame(SyncBatch, id, PageBody(operation, [a, b]))).Err? <==> |a.ciphertext| >= 32725
  {
    PageEncodesIff(operation, id, [a, b]);
    hide EncodeFrame, PageBody;
    assert [a, b][..1] == [a];
    SingleSize(a);
  }

  /* ---------- The loops of the request handler ---------- */

  method ReadUpload(body: Blob) returns (r: Result<UploadRequest, ApiError>)
    ensures r == ParseUpload(body)
  {
    hide BigEndian, FromBigEndian;
    Pow256Widths();
    var reader := new Reader(body, InvalidInput);
    var token :- reader.Take(32);
    var operation :- reader.Number(1);
    if operation != OPERATION_EVENT {
      return Err(InvalidInput);
    }
    var group :- reader.Take(16);
    var event :- reader.Take(16);
    ghost var at := reader.position;
    var kind :- reader.Number(2);
    NumberRange(body, at, 2, InvalidInput);
    var flag :- reader.Number(1);
    var correlation: Option<Id> := None;
    if flag == 1 {
      var id :- reader.Take(16);
      correlation := Some(id);
    } else if flag != 0 {
      return Err(InvalidInput);
    }
    var ciphertext := reader.Rest();
    r := Ok(UploadRequest(token, group, event, Signed16(kind), correlation, ciphertext));
  }

  method WritePage(operation: Byte, events: seq<D.EventRow>) returns (encoded: Blob)
    requires |events| <= 0xFF
    ensures encoded == PageBody(operation, events)
  {
    hide BigEndian;
    encoded := [operation];
    encoded := encoded + [|events|];
    for i := 0 to |events|
      invariant encoded == [operation, |events|] + EventsBytes(events[..i])
    {
      var e := events[i];
      assert events[..i + 1][..i] == events[..i];
      encoded := encoded + BigEndian(e.cursor, 8);
      encoded := encoded + e.eventId;
      encoded := encoded + BigEndian(e.kind % 0x1_0000, 2);
      encoded := encoded + BigEndian(|e.ciphertext|, 4);
      encoded := encoded + e.ciphertext;
    }
    assert events[..|events|] == events;
  }
}
