/** The encoder that grows an octet buffer and the decoding steps that move a reader over their
    input, proved to compute the functions of module Protocol. */
module ProtocolCodec {
  import opened Results
  import opened Bytes
  import opened Protocol
  import opened Readers

  class Encoder {
    var out: Blob

    constructor ()
      ensures out == []
    {
      out := [];
    }

    method Major(major: nat, n: nat)
      requires major < 8
      modifies this
      ensures out == old(out) + HeadBytes(major, n)
    {
      if n < 24 {
        out := out + [major * 32 + n];
      } else if n <= 0xFF {
        out := out + [major * 32 + 24, n];
      } else if n <= 0xFFFF {
        out := out + [major * 32 + 25];
        out := out + BigEndian(n, 2);
      } else {
        out := out + [major * 32 + 26];
        out := out + BigEndian(n, 4);
      }
    }

    method Octets(b: Blob)
      modifies this
      ensures out == old(out) + StringBytes(b)
    {
      Major(2, |b|);
      out := out + b;
    }
  }

  method Encode(frame: TransportFrame) returns (r: Result<Blob, Error>)
    ensures r == EncodeFrame(frame)
  {
    hide HeadBytes;
    if frame.ttlSeconds > MAX_TTL_SECONDS {
      return Err(FieldOutOfRange);
    }
    if |frame.body| > MAX_FRAME_SIZE {
      return Err(TooLarge);
    }
    var e := new Encoder();
    e.Major(4, 6);
    e.Major(0, 1);
    e.Major(0, frame.version);
    e.Major(0, frame.kind.Code());
    e.Octets(frame.clientMessageId);
    e.Major(0, frame.ttlSeconds);
    e.Octets(frame.body);
    assert e.out == FrameBytes(frame);
    r := if |e.out| > MAX_FRAME_SIZE then Err(TooLarge) else Ok(e.out);
  }

  method EncodeApplication(envelope: ApplicationEnvelope) returns (r: Result<Blob, Error>)
    ensures r == EncodeEnvelope(envelope)
  {
    hide HeadBytes;
    if |envelope.encryptedContent| > MAX_ENCRYPTED_TEXT_EVENT_SIZE {
      return Err(TooLarge);
    }
    var e := new Encoder();
    e.Major(4, 5);
    e.Major(0, 2);
    e.Major(0, envelope.kind.Code());
    e.Octets(envelope.eventId);
    e.Octets(envelope.conversationId);
    e.Octets(envelope.encryptedContent);
    assert e.out == EnvelopeBytes(envelope);
    r := Ok(e.out);
  }

  /* ---------- Decoding ---------- */

  method ReadHead(reader: Reader<Error>) returns (r: Result<(nat, nat), Error>)
    requires reader.Valid() && reader.short == Truncated
    modifies reader
    ensures reader.Steps(HeadAt(reader.bytes, old(reader.position)), r)
  {
    var octet :- reader.Take(1);
    var first := octet[0];
    var info := first % 32;
    var n: nat;
    if info < 24 {
      n := info;
    } else if info > 26 {
      return Err(NonCanonical);
    } else {
      n :- reader.Number(if info == 24 then 1 else if info == 25 then 2 else 4);
    }
    if (info == 24 && n < 24) || (info == 25 && n <= 0xFF) || (info == 26 && n <= 0xFFFF) {
      return Err(NonCanonical);
    }
    r := Ok((first / 32, n));
  }

  method ReadUint(reader: Reader<Error>) returns (r: Result<nat, Error>)
    requires reader.Valid() && reader.short == Truncated
    modifies reader
    ensures reader.Steps(UintAt(reader.bytes, old(reader.position)), r)
  {
    var h :- ReadHead(reader);
    r := if h.0 == 0 then Ok(h.1) else Err(Malformed);
  }

  method ReadArray(reader: Reader<Error>, n: nat) returns (r: Result<(), Error>)
    requires reader.Valid() && reader.short == Truncated
    modifies reader
    ensures reader.Steps(ArrayAt(reader.bytes, old(reader.position), n), r)
  {
    var h :- ReadHead(reader);
    r := if h.0 == 4 && h.1 == n then Ok(()) else Err(Malformed);
  }

  method ReadOctets(reader: Reader<Error>) returns (r: Result<Blob, Error>)
    requires reader.Valid() && reader.short == Truncated
    modifies reader
    ensures reader.Steps(StringAt(reader.bytes, old(reader.position)), r)
  {
    var h :- ReadHead(reader);
    if h.0 != 2 {
      return Err(Malformed);
    }
    r := reader.Take(h.1);
  }

  method ReadId(reader: Reader<Error>) returns (r: Result<Id, Error>)
    requires reader.Valid() && reader.short == Truncated
    modifies reader
    ensures reader.Steps(IdAt(reader.bytes, old(reader.position)), r)
  {
    var b :- ReadOctets(reader);
    r := if |b| != 16 then Err(FieldOutOfRange) else Ok(b);
  }

  method Decode(input: Blob) returns (r: Result<TransportFrame, Error>)
    ensures r == DecodeFrame(input)
  {
    hide HeadAt, StringAt;
    if |input| > MAX_FRAME_SIZE {
      return Err(TooLarge);
    }
    var reader := new Reader(input, Truncated);
    var _ :- ReadArray(reader, 6);
    var tag :- ReadUint(reader);
    if tag != 1 {
      return Err(Malformed);
    }
    var version :- ReadUint(reader);
    if version != PROTOCOL_VERSION {
      return Err(UnsupportedVersion);
    }
    var code :- ReadUint(reader);
    var kind :- FrameType.Parse(code);
    var id :- ReadId(reader);
    var ttl :- ReadUint(reader);
    if ttl > MAX_TTL_SECONDS {
      return Err(FieldOutOfRange);
    }
    var body :- ReadOctets(reader);
    var _ :- reader.Finish(TrailingBytes);
    r := Ok(TransportFrame(version, kind, id, ttl, body));
  }

  method DecodeApplication(input: Blob) returns (r: Result<ApplicationEnvelope, Error>)
    ensures r == DecodeEnvelope(input)
  {
    hide HeadAt, StringAt;
    var reader := new Reader(input, Truncated);
    var _ :- ReadArray(reader, 5);
    var tag :- ReadUint(reader);
    if tag != 2 {
      return Err(Malformed);
    }
    var code :- ReadUint(reader);
    var kind :- ApplicationType.Parse(code);
    var event :- ReadId(reader);
    var conversation :- ReadId(reader);
    var content :- ReadOctets(reader);
    if |content| > MAX_ENCRYPTED_TEXT_EVENT_SIZE {
      return Err(TooLarge);
    }
    var _ :- reader.Finish(TrailingBytes);
    r := Ok(ApplicationEnvelope(kind, event, conversation, content));
  }
}
