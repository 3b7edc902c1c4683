/** What goes over the wire and what is signed, octet by octet. */
module Layouts {
  import opened Results
  import opened Bytes
  import opened Sequences
  import opened Sorting
  import opened Api
  import P = Protocol
  import F = ServerFrames
  import D = Delivery
  import S = Sessions
  import Dir = Directory
  import W = WireFormats

  /* ---------- Numbers ---------- */

  lemma DivideTwice(n: nat, m: nat)
    requires m > 0
    ensures 256 * m > 0 && n / 256 / m == n / (256 * m)
  {
    var q, r := n / (256 * m), n % (256 * m);
    assert n == 256 * (m * q) + r;
    assert n / 256 == m * q + r / 256;
    assert 0 <= r / 256 < m;
    QuotientIs(n / 256, m, q, r / 256);
  }

  lemma QuotientIs(n: nat, m: nat, q: nat, r: nat)
    requires r < m && n == m * q + r
    ensures n / m == q
  {
    if n / m < q {
      assert m * (n / m) <= m * (q - 1) by { Scale(m, n / m, q - 1); }
    } else if n / m > q {
      assert m * (n / m) >= m * (q + 1) by { Scale(m, q + 1, n / m); }
    }
  }

  lemma Scale(m: nat, a: int, b: int)
    requires a <= b
    ensures m * a <= m * b
  {
  }

  lemma PowerPositive(k: nat)
    ensures Pow256(k) > 0
  {
  }

  /** Octet `i` of a number of the given width, the most significant first. */
  lemma {:induction false} OctetOfNumber(n: nat, width: nat, i: nat)
    requires i < width
    ensures Pow256(width - 1 - i) > 0 && BigEndian(n, width)[i] == n / Pow256(width - 1 - i) % 256
  {
    PowerPositive(width - 1 - i);
    if i < width - 1 {
      OctetOfNumber(n / 256, width - 1, i);
      DivideTwice(n, Pow256(width - 2 - i));
    } else {
      assert Pow256(0) == 1;
    }
  }

  lemma TwoOctets(n: nat)
    requires n < 0x1_0000
    ensures BigEndian(n, 2) == [n / 256, n % 256]
  {
    assert BigEndian(n / 256, 1) == BigEndian(n / 256 / 256, 0) + [n / 256 % 256];
  }

  lemma TwoOctetsRead(a: Byte, b: Byte)
    ensures FromBigEndian([a, b]) == a * 256 + b
  {
    assert [a, b][..1] == [a] && [a][..0] == [];
    assert FromBigEndian([a]) == a;
  }

  /* ---------- Frames and envelopes ---------- */

  /** The codes of frame and application types are their places in these lists. */
  lemma TypeCodes()
    ensures var kinds := [P.ClientHello, P.ServerHello, P.AuthChallenge, P.AuthResponse, P.AuthAccepted,
        P.UploadEnvelope, P.UploadAccepted, P.SyncRequest, P.SyncBatch, P.DeliveryReceiptBatch, P.ReadReceiptBatch,
        P.RelayDirectoryRequest, P.RelayDirectoryResponse, P.Ping, P.Pong, P.RateLimit, P.ErrorFrame];
      forall i :: 0 <= i < |kinds| ==> kinds[i].Code() == i + 1
    ensures var kinds := [P.TextMessage, P.MessageRequest, P.MessageRequestAccepted, P.DeliveryReceipt, P.ReadReceipt,
        P.GroupMetadataUpdate, P.GroupMemberEvent, P.GroupInvite, P.GroupInviteAccepted, P.DeviceLinked,
        P.DeviceRemoved];
      forall i :: 0 <= i < |kinds| ==> kinds[i].Code() == i + 1
  {
  }

  /** A head: three bits of major type, and the shortest form of the argument. */
  lemma HeadOctets(major: nat, n: nat)
    requires major < 8 && n < 0x1_0000_0000
    ensures P.HeadBytes(major, n) ==
      if n < 24 then [32 * major + n]
      else if n < 0x100 then [32 * major + 24, n]
      else if n < 0x1_0000 then [32 * major + 25, n / 256, n % 256]
      else [32 * major + 26, n / 0x100_0000, n / 0x1_0000 % 256, n / 256 % 256, n % 256]
  {
    if 0x100 <= n < 0x1_0000 { TwoOctets(n); }
    if n >= 0x1_0000 {
      assert BigEndian(n / 0x100_0000, 1) == [] + [n / 0x100_0000 % 256];
      assert BigEndian(n / 0x1_0000, 2) == BigEndian(n / 0x100_0000, 1) + [n / 0x1_0000 % 256];
      assert BigEndian(n / 256, 3) == BigEndian(n / 0x1_0000, 2) + [n / 256 % 256];
      assert BigEndian(n, 4) == BigEndian(n / 256, 3) + [n % 256];
    }
  }

  /** A frame is an array of six; its first 21 octets are fixed by type and message id. Lifetime and body
      follow, each with its head. */
  lemma FrameOctets(f: P.TransportFrame)
    requires f.version == 1
    ensures P.EncodeFrame(f) ==
      if f.ttlSeconds > 2592000 then Err(P.FieldOutOfRange)
      else if |P.FrameBytes(f)| > 65536 then Err(P.TooLarge) else Ok(P.FrameBytes(f))
    ensures P.FrameBytes(f) ==
      [0x86, 0x01, 0x01, f.kind.Code(), 0x50] + f.clientMessageId
      + P.HeadBytes(0, f.ttlSeconds) + P.HeadBytes(2, |f.body|) + f.body
  {
    hide BigEndian;
    assert P.HeadBytes(4, 6) == [0x86] && P.HeadBytes(0, 1) == [0x01] && P.HeadBytes(2, 16) == [0x50];
    assert P.HeadBytes(0, f.kind.Code()) == [f.kind.Code()];
    hide P.HeadBytes;
    var id, ttl, size := f.clientMessageId, P.HeadBytes(0, f.ttlSeconds), P.HeadBytes(2, |f.body|);
    JoinFrame([0x86], [0x01], [0x01], [f.kind.Code()], [0x50], id, ttl, size, f.body);
  }

  lemma JoinFrame(a: Blob, b: Blob, c: Blob, d: Blob, e: Blob, id: Blob, ttl: Blob, size: Blob, body: Blob)
    ensures a + (b + (c + (d + ((e + id) + (ttl + (size + body)))))) == a + b + c + d + e + id + ttl + size + body
  {
  }

  lemma EnvelopeOctets(e: P.ApplicationEnvelope)
    ensures P.EncodeEnvelope(e) ==
      if |e.encryptedContent| > 4096 then Err(P.TooLarge) else Ok(P.EnvelopeBytes(e))
    ensures P.EnvelopeBytes(e) ==
      [0x85, 0x02, e.kind.Code(), 0x50] + e.eventId + [0x50] + e.conversationId
      + P.HeadBytes(2, |e.encryptedContent|) + e.encryptedContent
  {
    hide BigEndian;
    assert P.HeadBytes(4, 5) == [0x85] && P.HeadBytes(0, 2) == [0x02] && P.HeadBytes(2, 16) == [0x50];
    assert P.HeadBytes(0, e.kind.Code()) == [e.kind.Code()];
    hide P.HeadBytes;
    JoinEnvelope([0x85], [0x02], [e.kind.Code()], [0x50], e.eventId, e.conversationId,
      P.HeadBytes(2, |e.encryptedContent|), e.encryptedContent);
  }

  /** How a head is refused: beyond the end, of a form other than the five of `HeadOctets`, cut short, or
      longer than it need be. */
  lemma HeadFaults(b: Blob, p: nat)
    requires p <= |b|
    ensures var r := P.HeadAt(b, p); var width := if p == |b| then 0 else Width(b[p] % 32);
      if p == |b| then r == Err(P.Truncated)
      else if b[p] % 32 > 26 then r == Err(P.NonCanonical)
      else if p + 1 + width > |b| then r == Err(P.Truncated)
      else if width == 0 then r == Ok(At((b[p] / 32, b[p] % 32), p + 1))
      else
        var n := FromBigEndian(b[p + 1..p + 1 + width]);
        r == if n < Least(width) then Err(P.NonCanonical) else Ok(At((b[p] / 32, n), p + 1 + width))
  {
    hide FromBigEndian;
  }

  function Width(info: nat): nat {
    if info == 24 then 1 else if info == 25 then 2 else if info == 26 then 4 else 0
  }

  function Least(width: nat): nat {
    if width == 1 then 24 else if width == 2 then 0x100 else 0x1_0000
  }

  /** The first octets of a frame, as far as they are read. */
  function FrameStart(b: Blob, p: nat): Blob
    requires p <= |b| && (p <= 4 || p == 21)
  {
    if p == 0 then [] else if p == 1 then [0x86] else if p == 2 then [0x86, 0x01] else if p == 3 then [0x86, 0x01, 0x01]
    else if p == 4 then [0x86, 0x01, 0x01, b[3]] else [0x86, 0x01, 0x01, b[3], 0x50] + b[5..21]
  }

  lemma OneOctetHead(b: Blob, p: nat)
    requires p < |b| && b[p] % 32 < 24
    ensures P.HeadAt(b, p) == Ok(At((b[p] / 32, b[p] % 32), p + 1))
  {
  }

  /** The opening items of a frame, single octets each: what is reported when one does not fit. */
  lemma OpeningFaults(b: Blob, p: nat)
    requires |b| <= 65536 && p <= 3 && p <= |b| && b[..p] == FrameStart(b, p)
    ensures var head := P.HeadAt(b, p); var r := P.DecodeFrame(b);
      if head.Err? then r == Err(head.error)
      else
        var (major, n) := head.value.value;
        && (p == 0 && (major != 4 || n != 6) ==> r == Err(P.Malformed))
        && (p == 1 && (major != 0 || n != 1) ==> r == Err(P.Malformed))
        && (p == 2 && major != 0 ==> r == Err(P.Malformed))
        && (p == 2 && major == 0 && n != 1 ==> r == Err(P.UnsupportedVersion))
        && (p == 3 && major != 0 ==> r == Err(P.Malformed))
        && (p == 3 && major == 0 && !(1 <= n <= 17) ==> r == Err(P.UnknownFrameType))
  {
    assert forall i :: 0 <= i < p ==> b[i] == b[..p][i];
    if p > 0 { OneOctetHead(b, 0); }
    if p > 1 { OneOctetHead(b, 1); }
    if p > 2 { OneOctetHead(b, 2); }
    hide P.HeadAt;
  }

  lemma Opened(b: Blob)
    requires 4 <= |b| <= 65536 && b[..4] == FrameStart(b, 4) && 1 <= b[3] <= 17
    ensures var r := P.DecodeFrame(b); var id := P.IdAt(b, 4);
      if id.Err? then r == Err(id.error)
      else
        var ttl := P.UintAt(b, id.value.next);
        if ttl.Err? then r == Err(ttl.error)
        else if ttl.value.value > 2592000 then r == Err(P.FieldOutOfRange)
        else
          var body := P.StringAt(b, ttl.value.next);
          if body.Err? then r == Err(body.error)
          else if body.value.next < |b| then r == Err(P.TrailingBytes) else r.Ok?
  {
    assert forall i :: 0 <= i < 4 ==> b[i] == b[..4][i];
    OneOctetHead(b, 0);
    OneOctetHead(b, 1);
    OneOctetHead(b, 2);
    OneOctetHead(b, 3);
    hide P.HeadAt, P.IdAt, P.StringAt;
  }

  /** A string: what is reported for a head of another type, and for one that asks for more than there is. */
  lemma StringFaults(b: Blob, p: nat)
    requires p <= |b|
    ensures var head := P.HeadAt(b, p); var r := P.StringAt(b, p);
      if head.Err? then r == Err(head.error)
      else if head.value.value.0 != 2 then r == Err(P.Malformed)
      else
        var n, q := head.value.value.1, head.value.next;
        r == if q + n > |b| then Err(P.Truncated) else Ok(At(b[q..q + n], q + n))
  {
    hide P.HeadAt;
  }

  /** An id is a string of 16 octets. */
  lemma IdFaults(b: Blob, p: nat)
    requires p <= |b|
    ensures var s := P.StringAt(b, p); var r := P.IdAt(b, p);
      if s.Err? then r == Err(s.error) else if |s.value.value| != 16 then r == Err(P.FieldOutOfRange)
      else r.Ok? && r.value.value == s.value.value && r.value.next == s.value.next
  {
    hide P.StringAt;
  }

  /** The message id of a frame. */
  lemma MessageIdFaults(b: Blob)
    requires 4 <= |b| <= 65536 && b[..4] == FrameStart(b, 4) && 1 <= b[3] <= 17
    ensures P.IdAt(b, 4).Err? ==> P.DecodeFrame(b) == Err(P.IdAt(b, 4).error)
  {
    Opened(b);
    hide P.DecodeFrame, P.IdAt, P.UintAt, P.StringAt;
  }

  lemma IdOpened(b: Blob)
    requires |b| >= 21 && b[..21] == FrameStart(b, 21)
    ensures P.IdAt(b, 4).Ok? && P.IdAt(b, 4).value.next == 21 && b[..4] == FrameStart(b, 4)
  {
    assert forall i :: 0 <= i < 5 ==> b[i] == b[..21][i];
    OneOctetHead(b, 4);
    StringFaults(b, 4);
    hide P.HeadAt, P.StringAt;
  }

  /** Its lifetime, a number up to 30 days. */
  lemma LifetimeFaults(b: Blob)
    requires 21 <= |b| <= 65536 && b[..21] == FrameStart(b, 21) && 1 <= b[3] <= 17
    ensures var head := P.HeadAt(b, 21); var r := P.DecodeFrame(b);
      if head.Err? then r == Err(head.error)
      else
        && (head.value.value.0 != 0 ==> r == Err(P.Malformed))
        && (head.value.value.0 == 0 && head.value.value.1 > 2592000 ==> r == Err(P.FieldOutOfRange))
  {
    IdOpened(b);
    Opened(b);
    hide P.DecodeFrame, P.IdAt, P.HeadAt, P.StringAt;
  }

  /** Its body, a string up to the very end. */
  lemma BodyFaults(b: Blob, p: nat, ttl: nat)
    requires 21 <= |b| <= 65536 && b[..21] == FrameStart(b, 21) && 1 <= b[3] <= 17
    requires p <= |b| && ttl <= 2592000 && P.UintAt(b, 21) == Ok(At(ttl, p))
    ensures var body := P.StringAt(b, p); var r := P.DecodeFrame(b);
      if body.Err? then r == Err(body.error)
      else if body.value.next < |b| then r == Err(P.TrailingBytes) else r.Ok?
  {
    IdOpened(b);
    Opened(b);
    hide P.DecodeFrame, P.IdAt, P.UintAt, P.StringAt;
  }

  lemma SmallHead(b: Blob, p: nat)
    requires p <= |b|
    ensures P.HeadAt(b, p).Ok? && P.HeadAt(b, p).value.value.1 < 24 ==> P.HeadAt(b, p).value.next == p + 1
  {
  }

  /** The opening items of an envelope: what is reported when one does not fit. */
  lemma EnvelopeOpeningFaults(b: Blob)
    ensures var r := P.DecodeEnvelope(b); var header := P.HeadAt(b, 0);
      if header.Err? then r == Err(header.error)
      else if header.value.value != (4, 5) then r == Err(P.Malformed)
      else
        var tag := P.HeadAt(b, 1);
        if tag.Err? then r == Err(tag.error)
        else if tag.value.value != (0, 2) then r == Err(P.Malformed)
        else
          var code := P.HeadAt(b, 2);
          if code.Err? then r == Err(code.error)
          else if code.value.value.0 != 0 then r == Err(P.Malformed)
          else !(1 <= code.value.value.1 <= 11) ==> r == Err(P.UnknownApplicationType)
  {
    SmallHead(b, 0);
    if |b| >= 1 { SmallHead(b, 1); }
    hide P.HeadAt, P.IdAt, P.StringAt;
  }

  /** Its fields, once it is opened: two ids, and a content of at most 4096 octets up to the very end. */
  lemma EnvelopeFieldFaults(b: Blob)
    requires |b| >= 3 && b[0] == 0x85 && b[1] == 0x02 && 1 <= b[2] <= 11
    ensures var r := P.DecodeEnvelope(b);
      var event := P.IdAt(b, 3);
      if event.Err? then r == Err(event.error)
      else
        var conversation := P.IdAt(b, event.value.next);
        if conversation.Err? then r == Err(conversation.error)
        else
          var content := P.StringAt(b, conversation.value.next);
          if content.Err? then r == Err(content.error)
          else if |content.value.value| > 4096 then r == Err(P.TooLarge)
          else if content.value.next < |b| then r == Err(P.TrailingBytes) else r.Ok?
  {
    OneOctetHead(b, 0);
    OneOctetHead(b, 1);
    OneOctetHead(b, 2);
    hide P.HeadAt, P.IdAt, P.StringAt;
  }

  lemma JoinEnvelope(a: Blob, b: Blob, c: Blob, d: Blob, event: Blob, conversation: Blob, size: Blob, content: Blob)
    ensures a + (b + (c + ((d + event) + ((d + conversation) + (size + content)))))
      == a + b + c + d + event + d + conversation + size + content
  {
  }

  /* ---------- Request bodies ---------- */

  /** The two octets at `p` as a signed number. */
  function Signed(b: Blob, p: nat): int
    requires p + 2 <= |b|
  {
    var n := b[p] as int * 256 + b[p + 1] as int;
    if n < 0x8000 then n else n - 0x1_0000
  }

  lemma SignedRead(b: Blob, p: nat)
    requires p + 2 <= |b|
    ensures FromBigEndian(b[p..p + 2]) == b[p] as int * 256 + b[p + 1] as int
  {
    TwoOctetsRead(b[p], b[p + 1]);
    assert b[p..p + 2] == [b[p], b[p + 1]];
  }

  lemma OneRead(b: Blob, p: nat)
    requires p < |b|
    ensures FromBigEndian(b[p..p + 1]) == b[p]
  {
    assert b[p..p + 1] == [b[p]] && [b[p]][..0] == [];
  }

  /** Which upload bodies are read, and what is read where. */
  lemma UploadOctets(b: Blob)
    ensures F.ParseUpload(b).Ok? <==> |b| >= 68 && b[32] == 1 && (b[67] == 0 || (b[67] == 1 && |b| >= 84))
    ensures F.ParseUpload(b).Ok? ==>
      var r := F.ParseUpload(b).value;
      && r.token == b[..32] && r.group == b[33..49] && r.eventId == b[49..65] && r.kind == Signed(b, 65)
      && r.correlation == (if b[67] == 0 then None else Some(b[68..84]))
      && r.ciphertext == if b[67] == 0 then b[68..] else b[84..]
  {
    hide FromBigEndian, BigEndian;
    Pow256Widths();
    if |b| > 32 { OneRead(b, 32); }
    if |b| >= 67 { SignedRead(b, 65); }
    if |b| > 67 { OneRead(b, 67); }
    if |b| >= 32 { assert b[0..32] == b[..32]; }
  }

  /** Which sync bodies are read, and what is read where. */
  lemma SyncOctets(b: Blob)
    ensures W.ParseSync(b).Ok? <==> (|b| == 58 && b[32] == 0) || (|b| == 42 && b[32] == 1)
    ensures W.ParseSync(b).Ok? ==>
      var q := W.ParseSync(b).value; var p := if b[32] == 0 then 49 else 33;
      && q.token == b[..32] && q.group == (if b[32] == 0 then Some(b[33..49]) else None)
      && W.IsI64(q.after) && b[p..p + 8] == BigEndian(W.Unsigned64(q.after), 8) && q.limit == b[p + 8]
  {
    hide FromBigEndian, BigEndian;
    Pow256Widths();
    if |b| > 32 {
      OneRead(b, 32);
      assert b[0..32] == b[..32];
    }
    if |b| == 58 { OneRead(b, 57); }
    if |b| == 42 { OneRead(b, 41); }
    if W.ParseSync(b).Ok? {
      NumberRange(b, if b[32] == 0 then 49 else 33, 8, InvalidInput);
    }
  }

  /** An event on a page. */
  lemma EventOctets(e: D.EventRow)
    ensures var b := F.EventBytes(e); var kind := e.kind % 0x1_0000;
      && |b| == 30 + |e.ciphertext|
      && b[0..8] == BigEndian(e.cursor, 8) && b[8..24] == e.eventId
      && b[24] == kind / 256 && b[25] == kind % 256
      && b[26..30] == BigEndian(|e.ciphertext|, 4) && b[30..] == e.ciphertext
  {
    TwoOctets(e.kind % 0x1_0000);
    hide BigEndian;
  }

  lemma {:induction false} EventsSize(events: seq<D.EventRow>)
    ensures |F.EventsBytes(events)| == Sum(events, F.EventSize())
  {
    if events != [] {
      EventsSize(events[..|events| - 1]);
      EventOctets(events[|events| - 1]);
    }
  }

  /** Where each event of a page stands. */
  lemma {:induction false} EventPlace(events: seq<D.EventRow>, i: nat)
    requires i < |events|
    ensures HasAt(F.EventsBytes(events), Sum(events[..i], F.EventSize()), F.EventBytes(events[i]))
    decreases |events|
  {
    hide F.EventBytes, Sum;
    var n := |events| - 1;
    if i == n {
      EventsSize(events[..n]);
    } else {
      EventPlace(events[..n], i);
      assert events[..n][..i] == events[..i];
    }
  }

  lemma PageOctets(operation: Byte, events: seq<D.EventRow>, i: nat)
    requires |events| <= 0xFF && i < |events|
    ensures var b := F.PageBody(operation, events);
      && b[0] == operation && b[1] == |events|
      && HasAt(b, 2 + Sum(events[..i], F.EventSize()), F.EventBytes(events[i]))
  {
    hide F.EventsBytes, F.EventBytes, Sum;
    EventPlace(events, i);
    var b, p := F.PageBody(operation, events), Sum(events[..i], F.EventSize());
    var e := F.EventBytes(events[i]);
    assert b[2..] == F.EventsBytes(events);
    assert b[2 + p..2 + p + |e|] == b[2..][p..p + |e|];
  }

  /* ---------- What is signed ---------- */

  lemma ChallengeOctets(id: Id, challenge: Blob)
    requires |challenge| == 32
    ensures var b := S.ChallengePayload(id, challenge);
      |b| == 75 && b[..27] == Ascii("resilient/auth-challenge/v1") && b[27..43] == id && b[43..] == challenge
  {
    hide Ascii;
  }

  lemma ProofOctets(token: Blob)
    requires |token| == 32
    ensures var b := S.ProofPayload(token);
      |b| == 58 && b[..26] == Ascii("resilient/refresh-proof/v1") && b[26..] == token
  {
    hide Ascii;
  }

  lemma OperationOctets(o: D.Membership)
    requires 0 <= o.role <= 2
    ensures var b := D.Payload(o);
      && |b| == 100 && b[..33] == Ascii("resilient/membership-operation/v1")
      && b[33..49] == o.correlation && b[49..65] == o.group && b[65..81] == o.author && b[81..97] == o.target
      && b[97] == 0 && b[98] == o.role && b[99] == if o.remove then 1 else 0
  {
    TwoOctets(o.role);
    hide Ascii, BigEndian;
    var b := D.Payload(o);
    assert b[97..99] == BigEndian(o.role, 2);
    assert b[97] == b[97..99][0] && b[98] == b[97..99][1];
  }

  /** The octets of a directory that are signed: a domain, three numbers, a count and the endpoints. */
  lemma DirectoryOctets(d: Dir.RelayDirectory)
    ensures var b := Dir.DirectoryBytes(d, []);
      && |b| == 54 + |Dir.EndpointsBytes(d.endpoints)|
      && b[..28] == Ascii("resilient/relay-directory/v1")
      && b[28..36] == BigEndian(d.version, 8) && b[36..44] == BigEndian(d.issuedAt, 8)
      && b[44..52] == BigEndian(d.expiresAt, 8)
      && b[52..54] == BigEndian(|d.endpoints|, 2) && b[54..] == Dir.EndpointsBytes(d.endpoints)
  {
    hide Ascii, BigEndian, Dir.EndpointsBytes;
  }

  lemma EndpointOctets(e: Dir.Endpoint)
    requires Dir.ShortUrls(e)
    ensures var b := Dir.EndpointBytes(e); var ws, https := e.websocketUrl, e.httpsUrl;
      b == e.id + [e.priority / 256, e.priority % 256] + [|ws| / 256, |ws| % 256] + ws
        + [|https| / 256, |https| % 256] + https
  {
    TwoOctets(e.priority);
    TwoOctets(|e.websocketUrl|);
    TwoOctets(|e.httpsUrl|);
    hide BigEndian;
  }

  /** The addresses of an endpoint that is accepted begin with wss:// or ws:// and with https:// or http://. */
  lemma UrlOctets(e: Dir.Endpoint)
    ensures Dir.AcceptableUrls(e) <==>
      && ([0x77, 0x73, 0x73, 0x3A, 0x2F, 0x2F] <= e.websocketUrl || [0x77, 0x73, 0x3A, 0x2F, 0x2F] <= e.websocketUrl)
      && ([0x68, 0x74, 0x74, 0x70, 0x73, 0x3A, 0x2F, 0x2F] <= e.httpsUrl
          || [0x68, 0x74, 0x74, 0x70, 0x3A, 0x2F, 0x2F] <= e.httpsUrl)
  {
    assert Ascii("wss://") == [0x77, 0x73, 0x73, 0x3A, 0x2F, 0x2F];
    assert Ascii("ws://") == [0x77, 0x73, 0x3A, 0x2F, 0x2F];
    assert Ascii("https://") == [0x68, 0x74, 0x74, 0x70, 0x73, 0x3A, 0x2F, 0x2F];
    assert Ascii("http://") == [0x68, 0x74, 0x74, 0x70, 0x3A, 0x2F, 0x2F];
  }

  /** Signed and encoded endpoints stand by priority, then by id, and are the endpoints given. */
  lemma CanonicalOrder(endpoints: seq<Dir.Endpoint>)
    ensures var s := Dir.Sorted(endpoints);
      && multiset(s) == multiset(endpoints)
      && forall i, j :: 0 <= i < j < |s| ==>
          s[i].priority < s[j].priority || (s[i].priority == s[j].priority && LexLeq(s[i].id, s[j].id))
  {
    Dir.EndpointOrder();
    SortPermutes(endpoints, Dir.Leq());
    SortOrders(endpoints, Dir.Leq());
    hide StableSort, LexLeq;
  }

  /** The order of ids of one length: by the first octet in which they differ. */
  lemma {:induction false} LexMeaning(a: seq<int>, b: seq<int>)
    requires |a| == |b|
    ensures LexLeq(a, b) <==> a == b || exists k :: 0 <= k < |a| && a[..k] == b[..k] && a[k] < b[k]
  {
    if a != [] {
      LexMeaning(a[1..], b[1..]);
      assert a == [a[0]] + a[1..] && b == [b[0]] + b[1..];
      if a[0] == b[0] {
        forall k | 0 <= k < |a| - 1 && a[1..][..k] == b[1..][..k] && a[1..][k] < b[1..][k]
          ensures a[..k + 1] == b[..k + 1] && a[k + 1] < b[k + 1]
        {
          assert a[..k + 1] == [a[0]] + a[1..][..k] && b[..k + 1] == [b[0]] + b[1..][..k];
        }
        forall k | 0 <= k < |a| && a[..k] == b[..k] && a[k] < b[k]
          ensures k > 0 && a[1..][..k - 1] == b[1..][..k - 1] && a[1..][k - 1] < b[1..][k - 1]
        {
          assert a[1..][..k - 1] == a[..k][1..] && b[1..][..k - 1] == b[..k][1..];
        }
      } else {
        assert a[..0] == b[..0];
        forall k | 0 < k < |a|
          ensures a[..k] != b[..k]
        {
          assert a[..k][0] != b[..k][0];
        }
      }
    }
  }
}
