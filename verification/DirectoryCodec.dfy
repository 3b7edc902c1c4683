/** The loops that write and read a relay directory, proved to compute module Directory. */
module DirectoryCodec {
  import opened Results
  import opened Bytes
  import opened Readers
  import opened Directory

  method PutString(out: Blob, value: Text) returns (r: Result<Blob, TransportError>)
    ensures r == if |value| <= MAX_URL then Ok(out + TextBytes(value)) else Err(InvalidResponse)
  {
    if |value| > MAX_URL {
      return Err(InvalidResponse);
    }
    r := Ok(out + BigEndian(|value|, 2) + value);
    assert r.value == out + TextBytes(value);
  }

  lemma {:induction false} EndpointsBytesAppend(endpoints: seq<Endpoint>, e: Endpoint)
    ensures EndpointsBytes(endpoints + [e]) == EndpointsBytes(endpoints) + EndpointBytes(e)
  {
    hide EndpointBytes;
    if endpoints == [] {
      assert ([] + [e])[1..] == [];
      assert EndpointBytes(e) + [] == EndpointBytes(e);
    } else {
      EndpointsBytesAppend(endpoints[1..], e);
      assert (endpoints + [e])[1..] == endpoints[1..] + [e];
    }
  }

  /** The header, then one endpoint a turn in canonical order; the first long URL stops it. */
  method SigningOctets(d: RelayDirectory) returns (r: Result<Blob, TransportError>)
    ensures r == SigningBytes(d)
  {
    hide BigEndian, Ascii, Sorted, EndpointsBytes, TextBytes;
    if |d.endpoints| > MAX_ENDPOINTS {
      return Err(InvalidResponse);
    }
    var header := Ascii(DOMAIN) + BigEndian(d.version, 8) + BigEndian(d.issuedAt, 8)
      + BigEndian(d.expiresAt, 8) + BigEndian(|d.endpoints|, 2);
    var out := header;
    var endpoints := Sorted(d.endpoints);
    SortedMembers(d.endpoints);
    NoEndpoints();
    for i := 0 to |endpoints|
      invariant out == header + EndpointsBytes(endpoints[..i])
      invariant forall e :: e in endpoints[..i] ==> ShortUrls(e)
    {
      var e := endpoints[i];
      assert e in d.endpoints;
      var start := out;
      out := out + e.id;
      out := out + BigEndian(e.priority, 2);
      out :- PutString(out, e.websocketUrl);
      out :- PutString(out, e.httpsUrl);
      assert out == start + EndpointBytes(e);
      EndpointsBytesAppend(endpoints[..i], e);
      assert endpoints[..i + 1] == endpoints[..i] + [e];
    }
    assert endpoints[..|endpoints|] == endpoints;
    AssociateLeft(Ascii(DOMAIN), BigEndian(d.version, 8), BigEndian(d.issuedAt, 8), BigEndian(d.expiresAt, 8),
                  BigEndian(|d.endpoints|, 2), EndpointsBytes(endpoints));
    r := Ok(out);
  }

  lemma NoEndpoints()
    ensures EndpointsBytes([]) == []
  {
  }

  lemma AssociateLeft(a: Blob, b: Blob, c: Blob, d: Blob, e: Blob, f: Blob)
    ensures a + b + c + d + e + f == a + (b + (c + (d + (e + (f + [])))))
  {
  }

  method EncodeDirectory(d: RelayDirectory) returns (r: Result<Blob, TransportError>)
    ensures r == Encode(d)
  {
    var value :- SigningOctets(d);
    r := Ok(value + d.signature);
  }

  method ReadText(reader: Reader<TransportError>) returns (r: Result<Text, TransportError>)
    requires reader.Valid() && reader.short == InvalidResponse
    modifies reader
    ensures reader.Steps(TextAt(reader.bytes, old(reader.position)), r)
  {
    var length :- reader.Number(2);
    if length > MAX_URL {
      return Err(InvalidResponse);
    }
    var s :- reader.Take(length);
    r := if ValidUtf8(s) then Ok(s) else Err(InvalidResponse);
  }

  method ReadU64(reader: Reader<TransportError>) returns (r: Result<U64, TransportError>)
    requires reader.Valid() && reader.short == InvalidResponse
    modifies reader
    ensures reader.Steps(U64At(reader.bytes, old(reader.position)), r)
  {
    Pow256Widths();
    ghost var start := reader.position;
    var n :- reader.Number(8);
    NumberRange(reader.bytes, start, 8, InvalidResponse);
    r := Ok(n);
  }

  method ReadEndpoint(reader: Reader<TransportError>) returns (r: Result<Endpoint, TransportError>)
    requires reader.Valid() && reader.short == InvalidResponse
    modifies reader
    ensures reader.Steps(EndpointAt(reader.bytes, old(reader.position)), r)
  {
    hide TextAt;
    var id :- reader.Take(16);
    Pow256Widths();
    ghost var start := reader.position;
    var priority :- reader.Number(2);
    NumberRange(reader.bytes, start, 2, InvalidResponse);
    var websocket :- ReadText(reader);
    var https :- ReadText(reader);
    var e := Endpoint(id, websocket, https, priority);
    r := if AcceptableUrls(e) then Ok(e) else Err(InvalidResponse);
  }

  /** Reading `count` endpoints is reading some, then the rest. */
  lemma {:induction false} EndpointsAtStep(b: Blob, p: nat, done: nat, count: nat)
    requires p <= |b| && done < count
    ensures EndpointsAt(b, p, done).Ok? ==>
      var first := EndpointsAt(b, p, done).value;
      match EndpointAt(b, first.next)
      case Err(e) => EndpointsAt(b, p, count) == Err(e)
      case Ok(x) => EndpointsAt(b, p, done + 1) == Ok(At(first.value + [x.value], x.next))
    decreases done
  {
    hide EndpointAt;
    if done == 0 && EndpointAt(b, p).Ok? {
      var e := EndpointAt(b, p).value;
      assert EndpointsAt(b, e.next, 0) == Ok(At([], e.next));
      assert [e.value] + [] == [] + [e.value];
    } else if EndpointAt(b, p).Ok? {
      var e := EndpointAt(b, p).value;
      EndpointsAtStep(b, e.next, done - 1, count - 1);
      var rest := EndpointsAt(b, e.next, done - 1);
      if rest.Ok? && EndpointAt(b, rest.value.next).Ok? {
        var x := EndpointAt(b, rest.value.next).value.value;
        assert [e.value] + (rest.value.value + [x]) == ([e.value] + rest.value.value) + [x];
      }
    }
  }

  method DecodeDirectory(value: Blob) returns (r: Result<RelayDirectory, TransportError>)
    ensures r == Decode(value)
  {
    hide U64At, NumberAt, EndpointAt;
    var reader := new Reader(value, InvalidResponse);
    var domain :- reader.Take(|DOMAIN|);
    if domain != Ascii(DOMAIN) {
      return Err(InvalidResponse);
    }
    var version :- ReadU64(reader);
    var issuedAt :- ReadU64(reader);
    var expiresAt :- ReadU64(reader);
    var count :- reader.Number(2);
    if count > MAX_ENDPOINTS {
      return Err(InvalidResponse);
    }
    ghost var start := reader.position;
    var endpoints: seq<Endpoint> := [];
    for i := 0 to count
      invariant reader.Valid() && EndpointsAt(value, start, i) == Ok(At(endpoints, reader.position))
    {
      EndpointsAtStep(value, start, i, count);
      var e :- ReadEndpoint(reader);
      endpoints := endpoints + [e];
    }
    var signature :- reader.Take(64);
    var _ :- reader.Finish(InvalidResponse);
    r := Ok(RelayDirectory(version, issuedAt, expiresAt, endpoints, signature));
  }
}
