/** Wire format version 1: a canonical CBOR profile (RFC 8949, sections 3 and 4.2.1) with
    definite arrays, unsigned integers and byte strings only.

    Parsers take the whole input and a position, as the program's decoder does, and answer
    the value with the position after it. */
module Protocol {
  import opened Results
  import opened Bytes

  const PROTOCOL_VERSION: U16 := 1
  const MAX_FRAME_SIZE := 65536
  const MAX_ENCRYPTED_TEXT_EVENT_SIZE := 4096
  const MAX_TTL_SECONDS := 2592000

  datatype Error =
    | Malformed | Truncated | TooLarge | NonCanonical | UnsupportedVersion
    | UnknownFrameType | UnknownApplicationType | TrailingBytes | FieldOutOfRange

  datatype FrameType =
    | ClientHello | ServerHello | AuthChallenge | AuthResponse | AuthAccepted
    | UploadEnvelope | UploadAccepted | SyncRequest | SyncBatch | DeliveryReceiptBatch
    | ReadReceiptBatch | RelayDirectoryRequest | RelayDirectoryResponse
    | Ping | Pong | RateLimit | ErrorFrame
  {
    function Code(): (n: nat)
      ensures 1 <= n <= 17
    {
      match this
      case ClientHello => 1 case ServerHello => 2 case AuthChallenge => 3 case AuthResponse => 4
      case AuthAccepted => 5 case UploadEnvelope => 6 case UploadAccepted => 7 case SyncRequest => 8
      case SyncBatch => 9 case DeliveryReceiptBatch => 10 case ReadReceiptBatch => 11
      case RelayDirectoryRequest => 12 case RelayDirectoryResponse => 13 case Ping => 14
      case Pong => 15 case RateLimit => 16 case ErrorFrame => 17
    }

    static function Parse(n: nat): (r: Result<FrameType, Error>)
      ensures r.Ok? ==> r.value.Code() == n
      ensures forall k: FrameType :: k.Code() == n ==> r == Ok(k)
      ensures r.Err? ==> r.error == UnknownFrameType
    {
      match n
      case 1 => Ok(ClientHello) case 2 => Ok(ServerHello) case 3 => Ok(AuthChallenge)
      case 4 => Ok(AuthResponse) case 5 => Ok(AuthAccepted) case 6 => Ok(UploadEnvelope)
      case 7 => Ok(UploadAccepted) case 8 => Ok(SyncRequest) case 9 => Ok(SyncBatch)
      case 10 => Ok(DeliveryReceiptBatch) case 11 => Ok(ReadReceiptBatch)
      case 12 => Ok(RelayDirectoryRequest) case 13 => Ok(RelayDirectoryResponse)
      case 14 => Ok(Ping) case 15 => Ok(Pong) case 16 => Ok(RateLimit) case 17 => Ok(ErrorFrame)
      case _ => Err(UnknownFrameType)
    }
  }

  datatype ApplicationType =
    | TextMessage | MessageRequest | MessageRequestAccepted | DeliveryReceipt | ReadReceipt
    | GroupMetadataUpdate | GroupMemberEvent | GroupInvite | GroupInviteAccepted
    | DeviceLinked | DeviceRemoved
  {
    function Code(): (n: nat)
      ensures 1 <= n <= 11
    {
      match this
      case TextMessage => 1 case MessageRequest => 2 case MessageRequestAccepted => 3
      case DeliveryReceipt => 4 case ReadReceipt => 5 case GroupMetadataUpdate => 6
      case GroupMemberEvent => 7 case GroupInvite => 8 case GroupInviteAccepted => 9
      case DeviceLinked => 10 case DeviceRemoved => 11
    }

    static function Parse(n: nat): (r: Result<ApplicationType, Error>)
      ensures r.Ok? ==> r.value.Code() == n
      ensures forall k: ApplicationType :: k.Code() == n ==> r == Ok(k)
      ensures r.Err? ==> r.error == UnknownApplicationType
    {
      match n
      case 1 => Ok(TextMessage) case 2 => Ok(MessageRequest) case 3 => Ok(MessageRequestAccepted)
      case 4 => Ok(DeliveryReceipt) case 5 => Ok(ReadReceipt) case 6 => Ok(GroupMetadataUpdate)
      case 7 => Ok(GroupMemberEvent) case 8 => Ok(GroupInvite) case 9 => Ok(GroupInviteAccepted)
      case 10 => Ok(DeviceLinked) case 11 => Ok(DeviceRemoved)
      case _ => Err(UnknownApplicationType)
    }
  }

  datatype TransportFrame = TransportFrame(
    version: U16, kind: FrameType, clientMessageId: Id, ttlSeconds: U32, body: Blob)

  datatype ApplicationEnvelope = ApplicationEnvelope(
    kind: ApplicationType, eventId: Id, conversationId: Id, encryptedContent: Blob)

  /* ---------- Encoding ---------- */

  /** Initial byte `major << 5 | info` and the shortest argument; beyond 32 bits the cast truncates. */
  function HeadBytes(major: nat, n: nat): (b: Blob)
    requires major < 8
    ensures 1 <= |b| <= 5
  {
    if n < 24 then [major * 32 + n]
    else if n <= 0xFF then [major * 32 + 24, n]
    else if n <= 0xFFFF then [major * 32 + 25] + BigEndian(n, 2)
    else [major * 32 + 26] + BigEndian(n, 4)
  }

  function StringBytes(b: Blob): Blob {
    HeadBytes(2, |b|) + b
  }

  /** The six elements of a frame, and the five of an envelope, in wire order. */
  function FrameBytes(f: TransportFrame): Blob {
    HeadBytes(4, 6) + (HeadBytes(0, 1) + (HeadBytes(0, f.version) + (HeadBytes(0, f.kind.Code())
    + (StringBytes(f.clientMessageId) + (HeadBytes(0, f.ttlSeconds) + StringBytes(f.body))))))
  }

  function EnvelopeBytes(e: ApplicationEnvelope): Blob {
    HeadBytes(4, 5) + (HeadBytes(0, 2) + (HeadBytes(0, e.kind.Code())
    + (StringBytes(e.eventId) + (StringBytes(e.conversationId) + StringBytes(e.encryptedContent)))))
  }

  function EncodeFrame(f: TransportFrame): Result<Blob, Error> {
    if f.ttlSeconds > MAX_TTL_SECONDS then Err(FieldOutOfRange)
    else if |f.body| > MAX_FRAME_SIZE then Err(TooLarge)
    else if |FrameBytes(f)| > MAX_FRAME_SIZE then Err(TooLarge)
    else Ok(FrameBytes(f))
  }

  function EncodeEnvelope(e: ApplicationEnvelope): Result<Blob, Error> {
    if |e.encryptedContent| > MAX_ENCRYPTED_TEXT_EVENT_SIZE then Err(TooLarge)
    else Ok(EnvelopeBytes(e))
  }

  /* ---------- Decoding ---------- */

  function ArgumentAt(b: Blob, p: nat, info: nat): (r: Result<At<nat>, Error>)
    requires p <= |b|
    ensures r.Ok? ==> p <= r.value.next <= |b|
  {
    if info < 24 then Ok(At(info, p))
    else if info > 26 then Err(NonCanonical)
    else
      NumberAt(b, p, if info == 24 then 1 else if info == 25 then 2 else 4, Truncated)
  }

  function HeadAt(b: Blob, p: nat): (r: Result<At<(nat, nat)>, Error>)
    requires p <= |b|
    ensures r.Ok? ==> p < r.value.next <= |b|
  {
    if p == |b| then Err(Truncated) else
    var info := b[p] % 32;
    var arg :- ArgumentAt(b, p + 1, info);
    if (info == 24 && arg.value < 24) || (info == 25 && arg.value <= 0xFF) || (info == 26 && arg.value <= 0xFFFF)
    then Err(NonCanonical)
    else Ok(At((b[p] / 32, arg.value), arg.next))
  }

  function UintAt(b: Blob, p: nat): (r: Result<At<nat>, Error>)
    requires p <= |b|
    ensures r.Ok? ==> p < r.value.next <= |b|
  {
    var h :- HeadAt(b, p);
    if h.value.0 == 0 then Ok(At(h.value.1, h.next)) else Err(Malformed)
  }

  function ArrayAt(b: Blob, p: nat, n: nat): (r: Result<At<()>, Error>)
    requires p <= |b|
    ensures r.Ok? ==> p < r.value.next <= |b|
  {
    var h :- HeadAt(b, p);
    if h.value.0 == 4 && h.value.1 == n then Ok(At((), h.next)) else Err(Malformed)
  }

  function StringAt(b: Blob, p: nat): (r: Result<At<Blob>, Error>)
    requires p <= |b|
    ensures r.Ok? ==> p < r.value.next <= |b|
  {
    var h :- HeadAt(b, p);
    if h.value.0 != 2 then Err(Malformed) else TakeAt(b, h.next, h.value.1, Truncated)
  }

  function IdAt(b: Blob, p: nat): (r: Result<At<Id>, Error>)
    requires p <= |b|
    ensures r.Ok? ==> p < r.value.next <= |b|
  {
    var s :- StringAt(b, p);
    if |s.value| != 16 then Err(FieldOutOfRange) else Ok(At(s.value, s.next))
  }

  function FrameAt(b: Blob): (r: Result<At<TransportFrame>, Error>)
    ensures r.Ok? ==> r.value.next <= |b|
  {
    var header :- ArrayAt(b, 0, 6);
    var tag :- UintAt(b, header.next);
    if tag.value != 1 then Err(Malformed) else
    var version :- UintAt(b, tag.next);
    if version.value != PROTOCOL_VERSION then Err(UnsupportedVersion) else
    var code :- UintAt(b, version.next);
    var kind :- FrameType.Parse(code.value);
    var id :- IdAt(b, code.next);
    var ttl :- UintAt(b, id.next);
    if ttl.value > MAX_TTL_SECONDS then Err(FieldOutOfRange) else
    var body :- StringAt(b, ttl.next);
    Ok(At(TransportFrame(version.value, kind, id.value, ttl.value, body.value), body.next))
  }

  function DecodeFrame(b: Blob): Result<TransportFrame, Error> {
    if |b| > MAX_FRAME_SIZE then Err(TooLarge) else
    var f :- FrameAt(b);
    if f.next == |b| then Ok(f.value) else Err(TrailingBytes)
  }

  function EnvelopeAt(b: Blob): (r: Result<At<ApplicationEnvelope>, Error>)
    ensures r.Ok? ==> r.value.next <= |b|
  {
    var header :- ArrayAt(b, 0, 5);
    var tag :- UintAt(b, header.next);
    if tag.value != 2 then Err(Malformed) else
    var code :- UintAt(b, tag.next);
    var kind :- ApplicationType.Parse(code.value);
    var event :- IdAt(b, code.next);
    var conversation :- IdAt(b, event.next);
    var content :- StringAt(b, conversation.next);
    if |content.value| > MAX_ENCRYPTED_TEXT_EVENT_SIZE then Err(TooLarge) else
    Ok(At(ApplicationEnvelope(kind, event.value, conversation.value, content.value), content.next))
  }

  function DecodeEnvelope(b: Blob): Result<ApplicationEnvelope, Error> {
    var e :- EnvelopeAt(b);
    if e.next == |b| then Ok(e.value) else Err(TrailingBytes)
  }

  /* ---------- One item: read exactly what is written ---------- */

  lemma ArgumentExact(b: Blob, p: nat, n: nat)
    requires p <= |b| && n <= U32_MAX
    ensures ArgumentAt(b, p, HeadBytes(0, n)[0]) == Ok(At(n, p - 1 + |HeadBytes(0, n)|)) <==>
      HasAt(b, p, HeadBytes(0, n)[1..])
  {
    if n >= 24 {
      Pow256Widths();
      var width := if n <= 0xFF then 1 else if n <= 0xFFFF then 2 else 4;
      assert HeadBytes(0, n)[1..] == BigEndian(n, width) by { assert BigEndian(n, 1) == [n % 0x100]; }
      hide BigEndian, FromBigEndian, HasAt, Pow256;
      NumberExact(b, p, n, width, Truncated);
    }
  }

  lemma HeadExact(b: Blob, p: nat, major: nat, n: nat)
    requires p <= |b| && major < 8 && n <= U32_MAX
    ensures HeadAt(b, p) == Ok(At((major, n), p + |HeadBytes(major, n)|)) <==> HasAt(b, p, HeadBytes(major, n))
  {
    var w := HeadBytes(major, n);
    var first := HeadBytes(0, n)[0];
    assert w[0] == major * 32 + first && w[1..] == HeadBytes(0, n)[1..] && first < 27;
    HasAtSplit(b, p, [w[0]], w[1..]);
    assert w == [w[0]] + w[1..];
    if p < |b| && b[p] == w[0] {
      assert b[p..p + 1] == [w[0]];
      ArgumentExact(b, p + 1, n);
    }
    if HeadAt(b, p) == Ok(At((major, n), p + |w|)) {
      HeadRange(b, p);
      FirstOctet(b, p);
    }
  }

  /** The initial byte carries the major type, and the width that the argument needs. */
  lemma FirstOctet(b: Blob, p: nat)
    requires p <= |b| && HeadAt(b, p).Ok?
    ensures p < |b| && b[p] == HeadBytes(HeadAt(b, p).value.value.0, HeadAt(b, p).value.value.1)[0]
  {
    Pow256Widths();
    var info := b[p] % 32;
    if 24 <= info <= 26 {
      EncodeBigEndian(b[p + 1..p + 1 + (if info == 24 then 1 else if info == 25 then 2 else 4)]);
    }
  }

  lemma HeadRange(b: Blob, p: nat)
    requires p <= |b| && HeadAt(b, p).Ok?
    ensures var h := HeadAt(b, p).value;
      && h.value.0 < 8 && h.value.1 <= U32_MAX
      && h.next == p + |HeadBytes(h.value.0, h.value.1)|
  {
    Pow256Widths();
    var info := b[p] % 32;
    if 24 <= info <= 26 {
      EncodeBigEndian(b[p + 1..p + 1 + (if info == 24 then 1 else if info == 25 then 2 else 4)]);
    }
  }

  lemma UintExact(b: Blob, p: nat, n: nat)
    requires p <= |b| && n <= U32_MAX
    ensures UintAt(b, p) == Ok(At(n, p + |HeadBytes(0, n)|)) <==> HasAt(b, p, HeadBytes(0, n))
  {
    HeadExact(b, p, 0, n);
  }

  lemma UintRange(b: Blob, p: nat)
    requires p <= |b| && UintAt(b, p).Ok?
    ensures var h := UintAt(b, p).value;
      h.value <= U32_MAX && h.next == p + |HeadBytes(0, h.value)| && HasAt(b, p, HeadBytes(0, h.value))
  {
    HeadRange(b, p);
    HeadExact(b, p, 0, UintAt(b, p).value.value);
  }

  lemma StringExact(b: Blob, p: nat, s: Blob)
    requires p <= |b| && |s| <= U32_MAX
    ensures StringAt(b, p) == Ok(At(s, p + |StringBytes(s)|)) <==> HasAt(b, p, StringBytes(s))
  {
    HasAtSplit(b, p, HeadBytes(2, |s|), s);
    HeadExact(b, p, 2, |s|);
    if StringAt(b, p) == Ok(At(s, p + |StringBytes(s)|)) {
      HeadRange(b, p);
    }
  }

  lemma StringRange(b: Blob, p: nat)
    requires p <= |b| && StringAt(b, p).Ok?
    ensures var h := StringAt(b, p).value;
      |h.value| <= U32_MAX && h.next == p + |StringBytes(h.value)| && HasAt(b, p, StringBytes(h.value))
  {
    HeadRange(b, p);
    StringExact(b, p, StringAt(b, p).value.value);
  }

  /* ---------- Canonical bijection ---------- */

  /** A frame read at the start of `b` is a valid version-1 frame, and the octets consumed are its encoding. */
  lemma FrameCanonical(b: Blob)
    requires FrameAt(b).Ok?
    ensures var f := FrameAt(b).value;
      && f.value.version == PROTOCOL_VERSION && f.value.ttlSeconds <= MAX_TTL_SECONDS
      && f.next == |FrameBytes(f.value)| && HasAt(b, 0, FrameBytes(f.value))
  {
    hide HeadBytes, StringBytes, HeadAt, UintAt, StringAt, BigEndian, HasAt;
    var header := ArrayAt(b, 0, 6).value;
    HeadRange(b, 0);
    HeadExact(b, 0, 4, 6);
    var tag := UintAt(b, header.next).value;
    UintRange(b, header.next);
    var version := UintAt(b, tag.next).value;
    UintRange(b, tag.next);
    var code := UintAt(b, version.next).value;
    UintRange(b, version.next);
    var id := IdAt(b, code.next).value;
    StringRange(b, code.next);
    var ttl := UintAt(b, id.next).value;
    UintRange(b, id.next);
    StringRange(b, ttl.next);
    FrameLayout(b, FrameAt(b).value.value);
  }

  /** The encoding of a frame stands in `b` exactly when its seven items stand there one after the other. */
  lemma FrameLayout(b: Blob, f: TransportFrame)
    ensures
      var p1 := |HeadBytes(4, 6)|;
      var p2 := p1 + |HeadBytes(0, 1)|;
      var p3 := p2 + |HeadBytes(0, f.version)|;
      var p4 := p3 + |HeadBytes(0, f.kind.Code())|;
      var p5 := p4 + |StringBytes(f.clientMessageId)|;
      var p6 := p5 + |HeadBytes(0, f.ttlSeconds)|;
      && |FrameBytes(f)| == p6 + |StringBytes(f.body)|
      && (HasAt(b, 0, FrameBytes(f)) <==>
          && HasAt(b, 0, HeadBytes(4, 6)) && HasAt(b, p1, HeadBytes(0, 1))
          && HasAt(b, p2, HeadBytes(0, f.version)) && HasAt(b, p3, HeadBytes(0, f.kind.Code()))
          && HasAt(b, p4, StringBytes(f.clientMessageId)) && HasAt(b, p5, HeadBytes(0, f.ttlSeconds))
          && HasAt(b, p6, StringBytes(f.body)))
  {
    hide HeadBytes, StringBytes, HeadAt, UintAt, StringAt, BigEndian, HasAt;
    var t5 := HeadBytes(0, f.ttlSeconds) + StringBytes(f.body);
    var t4 := StringBytes(f.clientMessageId) + t5;
    var t3 := HeadBytes(0, f.kind.Code()) + t4;
    var t2 := HeadBytes(0, f.version) + t3;
    var t1 := HeadBytes(0, 1) + t2;
    var p1 := |HeadBytes(4, 6)|;
    var p2 := p1 + |HeadBytes(0, 1)|;
    var p3 := p2 + |HeadBytes(0, f.version)|;
    var p4 := p3 + |HeadBytes(0, f.kind.Code())|;
    var p5 := p4 + |StringBytes(f.clientMessageId)|;
    HasAtSplit(b, 0, HeadBytes(4, 6), t1);
    HasAtSplit(b, p1, HeadBytes(0, 1), t2);
    HasAtSplit(b, p2, HeadBytes(0, f.version), t3);
    HasAtSplit(b, p3, HeadBytes(0, f.kind.Code()), t4);
    HasAtSplit(b, p4, StringBytes(f.clientMessageId), t5);
    HasAtSplit(b, p5, HeadBytes(0, f.ttlSeconds), StringBytes(f.body));
  }

  /** Reading the encoding of a frame gives the frame back when its version is 1, and is refused otherwise. */
  lemma FrameRead(b: Blob, f: TransportFrame)
    requires HasAt(b, 0, FrameBytes(f)) && f.ttlSeconds <= MAX_TTL_SECONDS && |f.body| <= U32_MAX
    ensures FrameAt(b) ==
      if f.version == PROTOCOL_VERSION then Ok(At(f, |FrameBytes(f)|)) else Err(UnsupportedVersion)
  {
    hide HeadBytes, StringBytes, HeadAt, UintAt, StringAt, BigEndian, HasAt;
    FrameLayout(b, f);
    HeadExact(b, 0, 4, 6);
    var p := |HeadBytes(4, 6)|;
    UintExact(b, p, 1);
    p := p + |HeadBytes(0, 1)|;
    UintExact(b, p, f.version);
    p := p + |HeadBytes(0, f.version)|;
    UintExact(b, p, f.kind.Code());
    p := p + |HeadBytes(0, f.kind.Code())|;
    StringExact(b, p, f.clientMessageId);
    p := p + |StringBytes(f.clientMessageId)|;
    UintExact(b, p, f.ttlSeconds);
    p := p + |HeadBytes(0, f.ttlSeconds)|;
    StringExact(b, p, f.body);
  }

  /** Every encodable frame decodes to itself exactly when it is a version-1 frame. */
  lemma FrameRoundTrip(f: TransportFrame)
    requires EncodeFrame(f).Ok?
    ensures DecodeFrame(EncodeFrame(f).value) ==
      if f.version == PROTOCOL_VERSION then Ok(f) else Err(UnsupportedVersion)
  {
    FrameRead(FrameBytes(f), f);
  }

  /** Every accepted byte string is the encoding of the frame it decodes to. */
  lemma FrameBijection(b: Blob)
    requires DecodeFrame(b).Ok?
    ensures DecodeFrame(b).value.version == PROTOCOL_VERSION
    ensures EncodeFrame(DecodeFrame(b).value) == Ok(b)
  {
    FrameCanonical(b);
    var f := DecodeFrame(b).value;
    FrameLayout(b, f);
    assert b == b[0..|FrameBytes(f)|];
  }

  /** Hence one accepted encoding a value (RFC 8949, section 4.2.1). */
  lemma FrameEncodingUnique(b: Blob, c: Blob)
    ensures DecodeFrame(b).Ok? && DecodeFrame(b) == DecodeFrame(c) ==> b == c
  {
    hide FrameAt, FrameBytes;
    if DecodeFrame(b).Ok? && DecodeFrame(b) == DecodeFrame(c) {
      FrameBijection(b);
      FrameBijection(c);
    }
  }

  lemma EnvelopeLayout(b: Blob, e: ApplicationEnvelope)
    ensures
      var p1 := |HeadBytes(4, 5)|;
      var p2 := p1 + |HeadBytes(0, 2)|;
      var p3 := p2 + |HeadBytes(0, e.kind.Code())|;
      var p4 := p3 + |StringBytes(e.eventId)|;
      var p5 := p4 + |StringBytes(e.conversationId)|;
      && |EnvelopeBytes(e)| == p5 + |StringBytes(e.encryptedContent)|
      && (HasAt(b, 0, EnvelopeBytes(e)) <==>
          && HasAt(b, 0, HeadBytes(4, 5)) && HasAt(b, p1, HeadBytes(0, 2))
          && HasAt(b, p2, HeadBytes(0, e.kind.Code())) && HasAt(b, p3, StringBytes(e.eventId))
          && HasAt(b, p4, StringBytes(e.conversationId)) && HasAt(b, p5, StringBytes(e.encryptedContent)))
  {
    hide HeadBytes, StringBytes, HeadAt, UintAt, StringAt, BigEndian, HasAt;
    var t4 := StringBytes(e.conversationId) + StringBytes(e.encryptedContent);
    var t3 := StringBytes(e.eventId) + t4;
    var t2 := HeadBytes(0, e.kind.Code()) + t3;
    var t1 := HeadBytes(0, 2) + t2;
    var p1 := |HeadBytes(4, 5)|;
    var p2 := p1 + |HeadBytes(0, 2)|;
    var p3 := p2 + |HeadBytes(0, e.kind.Code())|;
    var p4 := p3 + |StringBytes(e.eventId)|;
    HasAtSplit(b, 0, HeadBytes(4, 5), t1);
    HasAtSplit(b, p1, HeadBytes(0, 2), t2);
    HasAtSplit(b, p2, HeadBytes(0, e.kind.Code()), t3);
    HasAtSplit(b, p3, StringBytes(e.eventId), t4);
    HasAtSplit(b, p4, StringBytes(e.conversationId), StringBytes(e.encryptedContent));
  }

  lemma EnvelopeRoundTrip(e: ApplicationEnvelope)
    requires EncodeEnvelope(e).Ok?
    ensures DecodeEnvelope(EncodeEnvelope(e).value) == Ok(e)
  {
    hide HeadBytes, StringBytes, HeadAt, UintAt, StringAt, BigEndian, HasAt;
    var b := EnvelopeBytes(e);
    assert HasAt(b, 0, b) by { HasAtWhole(b); }
    EnvelopeLayout(b, e);
    HeadExact(b, 0, 4, 5);
    var p := |HeadBytes(4, 5)|;
    UintExact(b, p, 2);
    p := p + |HeadBytes(0, 2)|;
    UintExact(b, p, e.kind.Code());
    p := p + |HeadBytes(0, e.kind.Code())|;
    StringExact(b, p, e.eventId);
    p := p + |StringBytes(e.eventId)|;
    StringExact(b, p, e.conversationId);
    p := p + |StringBytes(e.conversationId)|;
    StringExact(b, p, e.encryptedContent);
  }

  lemma EnvelopeBijection(b: Blob)
    requires DecodeEnvelope(b).Ok?
    ensures EncodeEnvelope(DecodeEnvelope(b).value) == Ok(b)
  {
    hide HeadBytes, StringBytes, HeadAt, UintAt, StringAt, BigEndian, HasAt;
    HasAtWhole(b);
    var header := ArrayAt(b, 0, 5).value;
    HeadRange(b, 0);
    HeadExact(b, 0, 4, 5);
    var tag := UintAt(b, header.next).value;
    UintRange(b, header.next);
    var code := UintAt(b, tag.next).value;
    UintRange(b, tag.next);
    var event := IdAt(b, code.next).value;
    StringRange(b, code.next);
    var conversation := IdAt(b, event.next).value;
    StringRange(b, event.next);
    StringRange(b, conversation.next);
    var e := DecodeEnvelope(b).value;
    EnvelopeLayout(b, e);
    HasAtWholeIs(b, EnvelopeBytes(e));
  }

  /* ---------- Self-delimiting frames ---------- */

  /** Cutting the input short leaves an item alone or makes reading it run out of octets. */
  lemma HeadCut(b: Blob, c: Blob, p: nat)
    requires p <= |b| && b <= c && HeadAt(c, p).Ok?
    ensures HeadAt(b, p) == if HeadAt(c, p).value.next <= |b| then HeadAt(c, p) else Err(Truncated)
  {
    if p < |b| {
      assert b[p] == c[p];
      var info := b[p] % 32;
      if 24 <= info <= 26 {
        var n := if info == 24 then 1 else if info == 25 then 2 else 4;
        if p + 1 + n <= |b| {
          assert b[p + 1..p + 1 + n] == c[p + 1..p + 1 + n];
        }
      }
    }
  }

  lemma StringCut(b: Blob, c: Blob, p: nat)
    requires p <= |b| && b <= c && StringAt(c, p).Ok?
    ensures StringAt(b, p) == if StringAt(c, p).value.next <= |b| then StringAt(c, p) else Err(Truncated)
  {
    HeadCut(b, c, p);
    var h := HeadAt(c, p).value;
    if h.next + h.value.1 <= |b| {
      assert b[h.next..h.next + h.value.1] == c[h.next..h.next + h.value.1];
    }
  }

  lemma FrameCut(b: Blob, c: Blob)
    requires b <= c && FrameAt(c).Ok?
    ensures FrameAt(b) == if FrameAt(c).value.next <= |b| then FrameAt(c) else Err(Truncated)
  {
    hide HeadAt, StringAt;
    HeadCut(b, c, 0);
    var p := ArrayAt(c, 0, 6).value.next;
    if p <= |b| {
      HeadCut(b, c, p);
      p := UintAt(c, p).value.next;
      if p <= |b| {
        HeadCut(b, c, p);
        p := UintAt(c, p).value.next;
        if p <= |b| {
          HeadCut(b, c, p);
          p := UintAt(c, p).value.next;
          if p <= |b| {
            StringCut(b, c, p);
            p := IdAt(c, p).value.next;
            if p <= |b| {
              HeadCut(b, c, p);
              p := UintAt(c, p).value.next;
              if p <= |b| {
                StringCut(b, c, p);
              }
            }
          }
        }
      }
    }
  }

  /** Every proper prefix of an accepted frame is reported as truncated, and nothing else. */
  lemma PrefixIsTruncated(b: Blob, cut: nat)
    ensures DecodeFrame(b).Ok? && cut < |b| ==> DecodeFrame(b[..cut]) == Err(Truncated)
  {
    hide FrameAt;
    if DecodeFrame(b).Ok? && cut < |b| {
      FrameCut(b[..cut], b);
    }
  }

  /** Every proper extension of an accepted frame is refused for its tail, or for its size. */
  lemma ExtensionIsTrailing(b: Blob, tail: Blob)
    ensures DecodeFrame(b).Ok? && tail != [] ==>
      DecodeFrame(b + tail) == Err(if |b + tail| > MAX_FRAME_SIZE then TooLarge else TrailingBytes)
  {
    hide FrameAt, FrameBytes;
    if DecodeFrame(b).Ok? && tail != [] {
      FrameBijection(b);
      FrameRead(b + tail, DecodeFrame(b).value);
    }
  }
}
