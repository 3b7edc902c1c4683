/** The signed relay directory: canonical signing octets, its codec and its acceptance. */
module Directory {
  import opened Results
  import opened Bytes
  import opened Sorting

  const MAX_ENDPOINTS := 32
  const MAX_URL := 2048
  const CLOCK_SKEW := 300

  datatype TransportError =
    | InvalidDirectorySignature | ExpiredDirectory | DirectoryRollback
    | FrameTooLarge | Unavailable | InvalidResponse

  type Text = s: Blob | ValidUtf8(s) witness []

  datatype Endpoint = Endpoint(id: Id, websocketUrl: Text, httpsUrl: Text, priority: U16)

  datatype RelayDirectory = RelayDirectory(
    version: U64, issuedAt: U64, expiresAt: U64, endpoints: seq<Endpoint>, signature: Signature)

  /** The octets of the 32-byte key name a curve point or not; if so, the key accepts some signatures. */
  datatype VerifyingKey = NotAKey | Key(accepts: (Blob, Signature) -> bool)

  /* ---------- Text ---------- */

  /** Well-formed UTF-8 (Unicode 15, table 3-7), the strings of the source language. */
  predicate ValidUtf8(b: Blob) {
    b == [] ||
    match Utf8Length(b)
    case None => false
    case Some(n) => ValidUtf8(b[n..])
  }

  function Utf8Length(b: Blob): (r: Option<nat>)
    requires b != []
    ensures r.Some? ==> 1 <= r.value <= |b|
  {
    if b[0] < 0x80 then Some(1)
    else if 0xC2 <= b[0] <= 0xDF then
      if |b| >= 2 && Continues(b[1]) then Some(2) else None
    else if 0xE0 <= b[0] <= 0xEF then
      if |b| >= 3 && Continues(b[1]) && Continues(b[2]) && (b[0] == 0xE0 ==> b[1] >= 0xA0)
        && (b[0] == 0xED ==> b[1] < 0xA0)
      then Some(3) else None
    else if 0xF0 <= b[0] <= 0xF4 then
      if |b| >= 4 && Continues(b[1]) && Continues(b[2]) && Continues(b[3]) && (b[0] == 0xF0 ==> b[1] >= 0x90)
        && (b[0] == 0xF4 ==> b[1] < 0x90)
      then Some(4) else None
    else None
  }

  predicate Continues(x: Byte) {
    0x80 <= x < 0xC0
  }

  predicate StartsWith(b: Blob, prefix: string)
    requires forall i :: 0 <= i < |prefix| ==> prefix[i] as int < 0x80
  {
    Ascii(prefix) <= b
  }

  predicate AcceptableUrls(e: Endpoint) {
    && (StartsWith(e.websocketUrl, "wss://") || StartsWith(e.websocketUrl, "ws://"))
    && (StartsWith(e.httpsUrl, "https://") || StartsWith(e.httpsUrl, "http://"))
  }

  /* ---------- Canonical order ---------- */

  predicate EndpointLeq(a: Endpoint, b: Endpoint) {
    a.priority < b.priority || (a.priority == b.priority && LexLeq(a.id, b.id))
  }

  function Leq(): (Endpoint, Endpoint) -> bool {
    (a: Endpoint, b: Endpoint) => EndpointLeq(a, b)
  }

  function Sorted(endpoints: seq<Endpoint>): seq<Endpoint> {
    StableSort(endpoints, Leq())
  }

  lemma EndpointOrder()
    ensures TotalPreorder(Leq())
    ensures forall a, b :: EndpointLeq(a, b) && EndpointLeq(b, a) ==> a.priority == b.priority && a.id == b.id
  {
    forall a: Endpoint, b: Endpoint
      ensures EndpointLeq(a, b) || EndpointLeq(b, a)
      ensures EndpointLeq(a, b) && EndpointLeq(b, a) ==> a.priority == b.priority && a.id == b.id
    {
      LexTotal(a.id, b.id);
    }
    forall a: Endpoint, b: Endpoint, c: Endpoint | EndpointLeq(a, b) && EndpointLeq(b, c)
      ensures EndpointLeq(a, c)
    {
      if a.priority == b.priority == c.priority {
        LexTransitive(a.id, b.id, c.id);
      }
    }
  }

  /* ---------- Encoding ---------- */

  const DOMAIN := "resilient/relay-directory/v1"

  function TextBytes(s: Blob): Blob {
    BigEndian(|s|, 2) + s
  }

  function EndpointBytes(e: Endpoint): Blob {
    e.id + (BigEndian(e.priority, 2) + (TextBytes(e.websocketUrl) + TextBytes(e.httpsUrl)))
  }

  function EndpointsBytes(endpoints: seq<Endpoint>): Blob {
    if endpoints == [] then [] else EndpointBytes(endpoints[0]) + EndpointsBytes(endpoints[1..])
  }

  function DirectoryBytes(d: RelayDirectory, tail: Blob): Blob {
    Ascii(DOMAIN) + (BigEndian(d.version, 8) + (BigEndian(d.issuedAt, 8) + (BigEndian(d.expiresAt, 8)
    + (BigEndian(|d.endpoints|, 2) + (EndpointsBytes(d.endpoints) + tail)))))
  }

  predicate ShortUrls(e: Endpoint) {
    |e.websocketUrl| <= MAX_URL && |e.httpsUrl| <= MAX_URL
  }

  predicate Encodable(d: RelayDirectory) {
    |d.endpoints| <= MAX_ENDPOINTS && forall e :: e in d.endpoints ==> ShortUrls(e)
  }

  function Canonical(d: RelayDirectory): RelayDirectory {
    d.(endpoints := Sorted(d.endpoints))
  }

  function SigningBytes(d: RelayDirectory): Result<Blob, TransportError> {
    if Encodable(d) then Ok(DirectoryBytes(Canonical(d), [])) else Err(InvalidResponse)
  }

  function Encode(d: RelayDirectory): Result<Blob, TransportError> {
    var value :- SigningBytes(d);
    Ok(value + d.signature)
  }

  /* ---------- Decoding ---------- */

  function TextAt(b: Blob, p: nat): (r: Result<At<Text>, TransportError>)
    requires p <= |b|
    ensures r.Ok? ==> p <= r.value.next <= |b|
  {
    var length :- NumberAt(b, p, 2, InvalidResponse);
    if length.value > MAX_URL then Err(InvalidResponse) else
    var s :- TakeAt(b, length.next, length.value, InvalidResponse);
    if ValidUtf8(s.value) then Ok(At(s.value, s.next)) else Err(InvalidResponse)
  }

  function EndpointAt(b: Blob, p: nat): (r: Result<At<Endpoint>, TransportError>)
    requires p <= |b|
    ensures r.Ok? ==> p <= r.value.next <= |b|
  {
    var id :- TakeAt(b, p, 16, InvalidResponse);
    var priority :- NumberAt(b, id.next, 2, InvalidResponse);
    Pow256Widths();
    NumberRange(b, id.next, 2, InvalidResponse);
    var websocket :- TextAt(b, priority.next);
    var https :- TextAt(b, websocket.next);
    var e := Endpoint(id.value, websocket.value, https.value, priority.value);
    if AcceptableUrls(e) then Ok(At(e, https.next)) else Err(InvalidResponse)
  }

  function EndpointsAt(b: Blob, p: nat, count: nat): (r: Result<At<seq<Endpoint>>, TransportError>)
    requires p <= |b|
    ensures r.Ok? ==> p <= r.value.next <= |b| && |r.value.value| == count
    decreases count
  {
    if count == 0 then Ok(At([], p)) else
    var e :- EndpointAt(b, p);
    var rest :- EndpointsAt(b, e.next, count - 1);
    Ok(At([e.value] + rest.value, rest.next))
  }

  function U64At(b: Blob, p: nat): (r: Result<At<U64>, TransportError>)
    requires p <= |b|
    ensures r.Ok? ==> p <= r.value.next <= |b|
  {
    var n :- NumberAt(b, p, 8, InvalidResponse);
    Pow256Widths();
    NumberRange(b, p, 8, InvalidResponse);
    Ok(At(n.value, n.next))
  }

  function Decode(b: Blob): Result<RelayDirectory, TransportError> {
    var domain :- TakeAt(b, 0, |DOMAIN|, InvalidResponse);
    if domain.value != Ascii(DOMAIN) then Err(InvalidResponse) else
    var version :- U64At(b, domain.next);
    var issuedAt :- U64At(b, version.next);
    var expiresAt :- U64At(b, issuedAt.next);
    var count :- NumberAt(b, expiresAt.next, 2, InvalidResponse);
    if count.value > MAX_ENDPOINTS then Err(InvalidResponse) else
    var endpoints :- EndpointsAt(b, count.next, count.value);
    var signature :- TakeAt(b, endpoints.next, 64, InvalidResponse);
    if signature.next != |b| then Err(InvalidResponse) else
    Ok(RelayDirectory(version.value, issuedAt.value, expiresAt.value, endpoints.value, signature.value))
  }

  /* ---------- Acceptance ---------- */

  function Verify(d: RelayDirectory, key: VerifyingKey, now: U64, minimumVersion: U64): Result<(), TransportError> {
    if d.version < minimumVersion then Err(DirectoryRollback)
    else if d.issuedAt > SaturatingAdd(now, CLOCK_SKEW) || d.expiresAt <= now || d.issuedAt >= d.expiresAt
      then Err(ExpiredDirectory)
    else if key.NotAKey? then Err(InvalidDirectorySignature)
    else
      var octets :- SigningBytes(d);
      if key.accepts(octets, d.signature) then Ok(()) else Err(InvalidDirectorySignature)
  }

  /** At this time the directory was issued, give or take five minutes, and has not expired. */
  predicate Current(d: RelayDirectory, now: U64) {
    d.issuedAt <= now + 300 && d.issuedAt < d.expiresAt && now < d.expiresAt
  }

  /** The key accepts the signature over the canonical octets, which must not be too many. */
  predicate SignedUnder(d: RelayDirectory, key: VerifyingKey) {
    && |d.endpoints| <= 32
    && (forall e :: e in d.endpoints ==> |e.websocketUrl| <= 2048 && |e.httpsUrl| <= 2048)
    && key.Key? && key.accepts(DirectoryBytes(Canonical(d), []), d.signature)
  }

  /** What verification demands, and how it fails. */
  lemma VerifyMeans(d: RelayDirectory, key: VerifyingKey, now: U64, minimumVersion: U64)
    ensures var r := Verify(d, key, now, minimumVersion);
      && (r.Ok? <==> d.version >= minimumVersion && Current(d, now) && SignedUnder(d, key))
      && (d.version < minimumVersion ==> r == Err(DirectoryRollback))
      && (d.version >= minimumVersion && !Current(d, now) ==> r == Err(ExpiredDirectory))
      && (d.version >= minimumVersion && Current(d, now) && Encodable(d) && !SignedUnder(d, key) ==>
          r == Err(InvalidDirectorySignature))
  {
    hide DirectoryBytes, Canonical;
  }

  /* ---------- Items read exactly as written ---------- */

  lemma TextExact(b: Blob, p: nat, s: Text)
    requires p <= |b| && |s| <= MAX_URL
    ensures TextAt(b, p) == Ok(At(s, p + |TextBytes(s)|)) <==> HasAt(b, p, TextBytes(s))
  {
    hide BigEndian, FromBigEndian, ValidUtf8;
    Pow256Widths();
    HasAtSplit(b, p, BigEndian(|s|, 2), s);
    NumberExact(b, p, |s|, 2, InvalidResponse);
    if TextAt(b, p).Ok? {
      NumberRange(b, p, 2, InvalidResponse);
    }
  }

  lemma TextRange(b: Blob, p: nat)
    requires p <= |b| && TextAt(b, p).Ok?
    ensures var t := TextAt(b, p).value;
      |t.value| <= MAX_URL && t.next == p + |TextBytes(t.value)| && HasAt(b, p, TextBytes(t.value))
  {
    hide BigEndian, FromBigEndian, ValidUtf8;
    NumberRange(b, p, 2, InvalidResponse);
    TextExact(b, p, TextAt(b, p).value.value);
  }

  lemma EndpointLayout(b: Blob, p: nat, e: Endpoint)
    ensures
      var p1 := p + 16;
      var p2 := p1 + 2;
      var p3 := p2 + |TextBytes(e.websocketUrl)|;
      && p + |EndpointBytes(e)| == p3 + |TextBytes(e.httpsUrl)|
      && (HasAt(b, p, EndpointBytes(e)) <==>
          && HasAt(b, p, e.id) && HasAt(b, p1, BigEndian(e.priority, 2))
          && HasAt(b, p2, TextBytes(e.websocketUrl)) && HasAt(b, p3, TextBytes(e.httpsUrl)))
  {
    hide BigEndian, HasAt, TextBytes;
    var t2 := TextBytes(e.websocketUrl) + TextBytes(e.httpsUrl);
    HasAtSplit(b, p, e.id, BigEndian(e.priority, 2) + t2);
    HasAtSplit(b, p + 16, BigEndian(e.priority, 2), t2);
    HasAtSplit(b, p + 18, TextBytes(e.websocketUrl), TextBytes(e.httpsUrl));
  }

  lemma EndpointExact(b: Blob, p: nat, e: Endpoint)
    requires p <= |b| && ShortUrls(e) && HasAt(b, p, EndpointBytes(e))
    ensures p + |EndpointBytes(e)| <= |b|
    ensures EndpointAt(b, p) == if AcceptableUrls(e) then Ok(At(e, p + |EndpointBytes(e)|)) else Err(InvalidResponse)
  {
    EndpointLayout(b, p, e);
    hide BigEndian, TextBytes, TextAt, NumberAt, AcceptableUrls;
    Pow256Widths();
    TakeExact(b, p, e.id, InvalidResponse);
    NumberExact(b, p + 16, e.priority, 2, InvalidResponse);
    TextExact(b, p + 18, e.websocketUrl);
    TextExact(b, p + 18 + |TextBytes(e.websocketUrl)|, e.httpsUrl);
  }

  lemma EndpointRange(b: Blob, p: nat)
    requires p <= |b| && EndpointAt(b, p).Ok?
    ensures var e := EndpointAt(b, p).value;
      && ShortUrls(e.value) && AcceptableUrls(e.value)
      && e.next == p + |EndpointBytes(e.value)| && HasAt(b, p, EndpointBytes(e.value))
  {
    hide BigEndian, TextBytes, TextAt, NumberAt, AcceptableUrls, EndpointBytes;
    var e := EndpointAt(b, p).value;
    EndpointLayout(b, p, e.value);
    NumberRange(b, p + 16, 2, InvalidResponse);
    TextRange(b, p + 18);
    TextRange(b, TextAt(b, p + 18).value.next);
  }

  lemma {:induction false} EndpointsExact(b: Blob, p: nat, endpoints: seq<Endpoint>)
    requires p <= |b| && HasAt(b, p, EndpointsBytes(endpoints))
    requires forall e :: e in endpoints ==> ShortUrls(e)
    ensures EndpointsAt(b, p, |endpoints|) ==
      if forall e :: e in endpoints ==> AcceptableUrls(e)
      then Ok(At(endpoints, p + |EndpointsBytes(endpoints)|)) else Err(InvalidResponse)
    decreases |endpoints|
  {
    hide EndpointBytes, EndpointAt, AcceptableUrls, ShortUrls;
    if endpoints != [] {
      HasAtSplit(b, p, EndpointBytes(endpoints[0]), EndpointsBytes(endpoints[1..]));
      EndpointExact(b, p, endpoints[0]);
      assert endpoints == [endpoints[0]] + endpoints[1..];
      EndpointsExact(b, p + |EndpointBytes(endpoints[0])|, endpoints[1..]);
    }
  }

  lemma {:induction false} EndpointsRange(b: Blob, p: nat, count: nat)
    requires p <= |b| && EndpointsAt(b, p, count).Ok?
    ensures var es := EndpointsAt(b, p, count).value;
      && (forall e :: e in es.value ==> ShortUrls(e) && AcceptableUrls(e))
      && es.next == p + |EndpointsBytes(es.value)| && HasAt(b, p, EndpointsBytes(es.value))
    decreases count
  {
    hide EndpointBytes, EndpointAt, AcceptableUrls, ShortUrls;
    if count > 0 {
      EndpointRange(b, p);
      var e := EndpointAt(b, p).value;
      EndpointsRange(b, e.next, count - 1);
      var rest := EndpointsAt(b, e.next, count - 1).value.value;
      assert ([e.value] + rest)[1..] == rest;
      HasAtSplit(b, p, EndpointBytes(e.value), EndpointsBytes(rest));
    }
  }

  lemma U64Exact(b: Blob, p: nat, n: U64)
    requires p <= |b|
    ensures U64At(b, p) == Ok(At(n, p + 8)) <==> HasAt(b, p, BigEndian(n, 8))
  {
    Pow256Widths();
    hide BigEndian;
    NumberExact(b, p, n, 8, InvalidResponse);
  }

  lemma U64Range(b: Blob, p: nat)
    requires p <= |b| && U64At(b, p).Ok?
    ensures U64At(b, p).value.next == p + 8 && HasAt(b, p, BigEndian(U64At(b, p).value.value, 8))
  {
    hide BigEndian;
    NumberRange(b, p, 8, InvalidResponse);
  }

  /** A directory's fields stand one after the other; `size` is where its endpoints end. */
  lemma DirectoryLayout(b: Blob, d: RelayDirectory, tail: Blob)
    ensures
      var size := 54 + |EndpointsBytes(d.endpoints)|;
      && |DirectoryBytes(d, tail)| == size + |tail|
      && (HasAt(b, 0, DirectoryBytes(d, tail)) <==>
          && HasAt(b, 0, Ascii(DOMAIN)) && HasAt(b, 28, BigEndian(d.version, 8))
          && HasAt(b, 36, BigEndian(d.issuedAt, 8)) && HasAt(b, 44, BigEndian(d.expiresAt, 8))
          && HasAt(b, 52, BigEndian(|d.endpoints|, 2)) && HasAt(b, 54, EndpointsBytes(d.endpoints))
          && HasAt(b, size, tail))
  {
    hide BigEndian, HasAt, EndpointsBytes, Ascii;
    var t4 := EndpointsBytes(d.endpoints) + tail;
    var t3 := BigEndian(|d.endpoints|, 2) + t4;
    var t2 := BigEndian(d.expiresAt, 8) + t3;
    var t1 := BigEndian(d.issuedAt, 8) + t2;
    HasAtSplit(b, 0, Ascii(DOMAIN), BigEndian(d.version, 8) + t1);
    HasAtSplit(b, 28, BigEndian(d.version, 8), t1);
    HasAtSplit(b, 36, BigEndian(d.issuedAt, 8), t2);
    HasAtSplit(b, 44, BigEndian(d.expiresAt, 8), t3);
    HasAtSplit(b, 52, BigEndian(|d.endpoints|, 2), t4);
    HasAtSplit(b, 54, EndpointsBytes(d.endpoints), tail);
  }

  lemma DecodeExact(b: Blob, d: RelayDirectory)
    requires Encodable(d) && b == DirectoryBytes(d, d.signature)
    ensures Decode(b) ==
      if forall e :: e in d.endpoints ==> AcceptableUrls(e) then Ok(d) else Err(InvalidResponse)
  {
    hide DirectoryBytes, EndpointsBytes, BigEndian, U64At, NumberAt, AcceptableUrls, EndpointsAt;
    HasAtWhole(b);
    DirectoryLayout(b, d, d.signature);
    Pow256Widths();
    TakeExact(b, 0, Ascii(DOMAIN), InvalidResponse);
    U64Exact(b, 28, d.version);
    U64Exact(b, 36, d.issuedAt);
    U64Exact(b, 44, d.expiresAt);
    NumberExact(b, 52, |d.endpoints|, 2, InvalidResponse);
    EndpointsExact(b, 54, d.endpoints);
    TakeExact(b, 54 + |EndpointsBytes(d.endpoints)|, d.signature, InvalidResponse);
  }

  lemma DecodedBytes(b: Blob)
    requires Decode(b).Ok?
    ensures var d := Decode(b).value;
      && Encodable(d) && (forall e :: e in d.endpoints ==> AcceptableUrls(e))
      && b == DirectoryBytes(d, d.signature)
  {
    hide DirectoryBytes, EndpointsBytes, BigEndian, U64At, NumberAt, AcceptableUrls, EndpointsAt, ShortUrls;
    var d := Decode(b).value;
    TakeExact(b, 0, Ascii(DOMAIN), InvalidResponse);
    U64Range(b, 28);
    U64Range(b, 36);
    U64Range(b, 44);
    NumberRange(b, 52, 2, InvalidResponse);
    EndpointsRange(b, 54, |d.endpoints|);
    TakeExact(b, 54 + |EndpointsBytes(d.endpoints)|, d.signature, InvalidResponse);
    DirectoryLayout(b, d, d.signature);
    HasAtWholeIs(b, DirectoryBytes(d, d.signature));
  }

  /* ---------- Main results ---------- */

  lemma SortedMembers(endpoints: seq<Endpoint>)
    ensures |Sorted(endpoints)| == |endpoints|
    ensures forall e :: e in Sorted(endpoints) <==> e in endpoints
  {
    SortPermutes(endpoints, Leq());
    forall e: Endpoint
      ensures e in Sorted(endpoints) <==> e in endpoints
    {
      assert e in Sorted(endpoints) <==> e in multiset(Sorted(endpoints));
      assert e in endpoints <==> e in multiset(endpoints);
    }
  }

  lemma EncodedBytes(d: RelayDirectory)
    requires Encodable(d)
    ensures Encode(d) == Ok(DirectoryBytes(Canonical(d), d.signature))
    ensures Encodable(Canonical(d))
  {
    SortedMembers(d.endpoints);
    hide Sorted, ShortUrls, BigEndian, Ascii;
    var c := Canonical(d);
    var a := DirectoryBytes(c, d.signature);
    DirectoryLayout(a, c, d.signature);
    DirectoryLayout(DirectoryBytes(c, []) + d.signature, c, []);
    assert EndpointsBytes(c.endpoints) + [] == EndpointsBytes(c.endpoints);
    var domain := Ascii(DOMAIN);
    Associate6(domain, BigEndian(d.version, 8), BigEndian(d.issuedAt, 8), BigEndian(d.expiresAt, 8),
               BigEndian(|c.endpoints|, 2), EndpointsBytes(c.endpoints), d.signature);
  }

  lemma Associate6(a: Blob, b: Blob, c: Blob, d: Blob, e: Blob, f: Blob, tail: Blob)
    ensures (a + (b + (c + (d + (e + (f + [])))))) + tail == a + (b + (c + (d + (e + (f + tail)))))
  {
    assert f + [] == f;
  }

  /** Encoding then decoding puts the endpoints in canonical order and changes nothing else; it is
      refused exactly when some URL lacks a web scheme. */
  lemma DirectoryRoundTrip(d: RelayDirectory)
    requires Encodable(d)
    ensures Encode(d).Ok? && Decode(Encode(d).value) ==
      if forall e :: e in d.endpoints ==> AcceptableUrls(e) then Ok(Canonical(d)) else Err(InvalidResponse)
  {
    hide DirectoryBytes, AcceptableUrls, ShortUrls, Decode, Sorted;
    EncodedBytes(d);
    SortedMembers(d.endpoints);
    DecodeExact(DirectoryBytes(Canonical(d), d.signature), Canonical(d));
  }

  /** Accepted octets are reproduced by encoding exactly when their endpoints are already in order. */
  lemma DirectoryReencode(b: Blob)
    ensures Decode(b).Ok? ==> (Encode(Decode(b).value) == Ok(b) <==> Ordered(Decode(b).value.endpoints, Leq()))
  {
    hide DirectoryBytes, AcceptableUrls, ShortUrls, Sorted, Decode;
    if Decode(b).Ok? {
      DecodedBytes(b);
      var d := Decode(b).value;
      EncodedBytes(d);
      DirectoryRoundTrip(d);
      SortIsFixed(d.endpoints);
    }
  }

  lemma SortIsFixed(endpoints: seq<Endpoint>)
    ensures Sorted(endpoints) == endpoints <==> Ordered(endpoints, Leq())
  {
    EndpointOrder();
    SortFixes(endpoints, Leq());
  }

  lemma SortTwice(endpoints: seq<Endpoint>)
    ensures Sorted(Sorted(endpoints)) == Sorted(endpoints)
  {
    EndpointOrder();
    SortOrders(endpoints, Leq());
    SortIsFixed(Sorted(endpoints));
  }

  /** Two endpoints never share both priority and id. */
  ghost predicate DistinctEndpoints(endpoints: seq<Endpoint>) {
    forall a, b :: a in endpoints && b in endpoints && a.priority == b.priority && a.id == b.id ==> a == b
  }

  /** What is signed does not depend on the order in which distinct endpoints are listed. */
  lemma SigningIgnoresOrder(d: RelayDirectory, endpoints: seq<Endpoint>)
    requires multiset(d.endpoints) == multiset(endpoints) && DistinctEndpoints(d.endpoints)
    ensures SigningBytes(d.(endpoints := endpoints)) == SigningBytes(d)
  {
    EndpointOrder();
    SortIgnoresOrder(d.endpoints, endpoints, Leq());
    SortedMembers(d.endpoints);
    SortedMembers(endpoints);
  }

  lemma {:induction false} EndpointsInjective(b: Blob, p: nat, x: seq<Endpoint>, y: seq<Endpoint>)
    requires HasAt(b, p, EndpointsBytes(x)) && HasAt(b, p, EndpointsBytes(y)) && |x| == |y|
    requires forall i :: 0 <= i < |x| ==> ShortUrls(x[i]) && ShortUrls(y[i])
    ensures x == y
    decreases |x|
  {
    hide EndpointBytes, HasAt, ShortUrls;
    if x != [] {
      HasAtSplit(b, p, EndpointBytes(x[0]), EndpointsBytes(x[1..]));
      HasAtSplit(b, p, EndpointBytes(y[0]), EndpointsBytes(y[1..]));
      EndpointInjective(b, p, x[0], y[0]);
      EndpointsInjective(b, p + |EndpointBytes(x[0])|, x[1..], y[1..]);
      assert x == [x[0]] + x[1..] && y == [y[0]] + y[1..];
    }
  }

  lemma EndpointInjective(b: Blob, p: nat, x: Endpoint, y: Endpoint)
    requires HasAt(b, p, EndpointBytes(x)) && HasAt(b, p, EndpointBytes(y))
    requires ShortUrls(x) && ShortUrls(y)
    ensures x == y
  {
    EndpointLayout(b, p, x);
    EndpointLayout(b, p, y);
    hide EndpointBytes, BigEndian, TextBytes, TextAt;
    Pow256Widths();
    NumberExact(b, p + 16, x.priority, 2, InvalidResponse);
    NumberExact(b, p + 16, y.priority, 2, InvalidResponse);
    TextExact(b, p + 18, x.websocketUrl);
    TextExact(b, p + 18, y.websocketUrl);
    var q := p + 18 + |TextBytes(x.websocketUrl)|;
    TextExact(b, q, x.httpsUrl);
    TextExact(b, q, y.httpsUrl);
  }

  /** Directories with the same signing octets differ at most in the order of their endpoints and
      in their signature. */
  lemma SigningInjective(d: RelayDirectory, e: RelayDirectory)
    requires Encodable(d) && SigningBytes(d) == SigningBytes(e)
    ensures Canonical(d).(signature := e.signature) == Canonical(e)
  {
    hide DirectoryBytes, EndpointsBytes, BigEndian, ShortUrls, Sorted;
    var b := SigningBytes(d).value;
    HasAtWhole(b);
    SortedMembers(d.endpoints);
    SortedMembers(e.endpoints);
    DirectoryLayout(b, Canonical(d), []);
    DirectoryLayout(b, Canonical(e), []);
    U64Exact(b, 28, d.version);
    U64Exact(b, 28, e.version);
    U64Exact(b, 36, d.issuedAt);
    U64Exact(b, 36, e.issuedAt);
    U64Exact(b, 44, d.expiresAt);
    U64Exact(b, 44, e.expiresAt);
    Pow256Widths();
    NumberExact(b, 52, |d.endpoints|, 2, InvalidResponse);
    NumberExact(b, 52, |e.endpoints|, 2, InvalidResponse);
    forall i | 0 <= i < |d.endpoints|
      ensures ShortUrls(Sorted(d.endpoints)[i]) && ShortUrls(Sorted(e.endpoints)[i])
    {
      assert Sorted(d.endpoints)[i] in d.endpoints && Sorted(e.endpoints)[i] in e.endpoints;
    }
    EndpointsInjective(b, 54, Sorted(d.endpoints), Sorted(e.endpoints));
  }

  /** A directory that went over the wire is accepted or refused as the one that was sent. */
  lemma VerifyAfterRoundTrip(d: RelayDirectory, key: VerifyingKey, now: U64, minimumVersion: U64)
    requires Encodable(d) && forall e :: e in d.endpoints ==> AcceptableUrls(e)
    ensures Encode(d).Ok? && Decode(Encode(d).value).Ok?
    ensures var back := Decode(Encode(d).value).value;
      && Verify(back, key, now, minimumVersion) == Verify(d, key, now, minimumVersion)
      && (Current(back, now) <==> Current(d, now)) && (SignedUnder(back, key) <==> SignedUnder(d, key))
  {
    hide DirectoryBytes, AcceptableUrls, ShortUrls, Decode, Encode, Sorted;
    DirectoryRoundTrip(d);
    SortTwice(d.endpoints);
    SortedMembers(d.endpoints);
  }
}
