/** Whole runs of the transport manager: any sequence of calls over any network. */
module TransportRuns {
  import opened Results
  import opened Bytes
  import opened Sequences
  import opened Directory
  import opened Transport
  import Protocol

  datatype Call =
    | EnqueueFrame(frame: Protocol.TransportFrame)
    | FlushAt(now: U64)
    | NetworkChange
    | NewDirectory(next: RelayDirectory, now: U64)

  /** A manager starts with a directory that verifies, of any version. */
  function Create(directory: RelayDirectory, key: VerifyingKey, now: U64): Result<Manager, TransportError> {
    match Verify(directory, key, now, 0)
    case Err(e) => Err(e)
    case Ok(_) => Ok(New(directory, key))
  }

  /** A frame joins the outbox unless it does not encode or its message id is already waiting. */
  function Enqueue(m: Manager, frame: Protocol.TransportFrame): (Manager, Result<(), TransportError>) {
    match Protocol.EncodeFrame(frame)
    case Err(_) => (m, Err(FrameTooLarge))
    case Ok(bytes) =>
      if Waiting(m.outbox, frame.clientMessageId) then (m, Ok(()))
      else (m.(outbox := m.outbox + [Queued(frame.clientMessageId, bytes)]), Ok(()))
  }

  predicate Waiting(outbox: seq<Queued>, id: Id) {
    exists i :: 0 <= i < |outbox| && outbox[i].clientMessageId == id
  }

  /** A network change allows one immediate retry everywhere. */
  function NotifyNetworkChange(m: Manager): Manager {
    m.(health := map id | id in m.health :: Health(m.health[id].failures, 0))
  }

  function UpdateDirectory(m: Manager, next: RelayDirectory, now: U64): (Manager, Result<(), TransportError>) {
    match Verify(next, m.key, now, m.directory.version)
    case Err(e) => (m, Err(e))
    case Ok(_) => (m.(directory := next), Ok(()))
  }

  function Step(m: Manager, call: Call, net: Network): Manager {
    match call
    case EnqueueFrame(frame) => Enqueue(m, frame).0
    case FlushAt(now) => Flush(m, now, net).0
    case NetworkChange => NotifyNetworkChange(m)
    case NewDirectory(next, now) => UpdateDirectory(m, next, now).0
  }

  function Run(m: Manager, calls: seq<Call>, net: Network): Manager
    decreases |calls|
  {
    if calls == [] then m else Step(Run(m, calls[..|calls| - 1], net), calls[|calls| - 1], net)
  }

  /** The frame that a call puts into the outbox, if it does. */
  function Joined(m: Manager, call: Call, net: Network): seq<Queued> {
    var n := Step(m, call, net);
    if |n.outbox| > |m.outbox| then n.outbox[|m.outbox|..] else []
  }

  /** The frames that a run put into the outbox, in order. */
  function Taken(m: Manager, calls: seq<Call>, net: Network): seq<Queued>
    decreases |calls|
  {
    if calls == [] then [] else
    var before := calls[..|calls| - 1];
    Taken(m, before, net) + Joined(Run(m, before, net), calls[|calls| - 1], net)
  }

  /** Frames answered, then frames waiting: all that the manager ever took. */
  function Carried(m: Manager): seq<Queued> {
    Frames(Deliveries(m.log)) + m.outbox
  }

  lemma {:induction false} TakenGrows(m: Manager, calls: seq<Call>, n: nat, net: Network)
    requires n <= |calls|
    ensures Taken(m, calls[..n], net) <= Taken(m, calls, net)
    decreases |calls| - n
  {
    hide Joined, Run;
    if n == |calls| {
      assert calls[..n] == calls;
    } else {
      assert calls[..n + 1][..n] == calls[..n];
      TakenGrows(m, calls, n + 1, net);
    }
  }

  /** No frame with this message id waits. */
  ghost predicate NotWaiting(m: Manager, id: Id) {
    forall q :: q in m.outbox ==> q.clientMessageId != id
  }

  /** A frame that does not encode, or whose id waits already, changes nothing; the first is an error. */
  lemma EnqueueIgnores(m: Manager, frame: Protocol.TransportFrame)
    ensures Protocol.EncodeFrame(frame).Err? ==> Enqueue(m, frame) == (m, Err(FrameTooLarge))
    ensures Protocol.EncodeFrame(frame).Ok? && !NotWaiting(m, frame.clientMessageId) ==>
      Enqueue(m, frame) == (m, Ok(()))
  {
    hide Protocol.EncodeFrame;
  }

  /** A frame that is enqueued, encodes and does not wait already is taken, as what it encodes to. */
  lemma EnqueuedIsTaken(m: Manager, calls: seq<Call>, k: nat, net: Network)
    requires k < |calls| && calls[k].EnqueueFrame? && Protocol.EncodeFrame(calls[k].frame).Ok?
    ensures var f := calls[k].frame; var position := |Taken(m, calls[..k], net)|;
      NotWaiting(Run(m, calls[..k], net), f.clientMessageId) ==>
        && position < |Taken(m, calls, net)|
        && Taken(m, calls, net)[position] == Queued(f.clientMessageId, Protocol.EncodeFrame(f).value)
  {
    hide Run, Protocol.EncodeFrame, Flush;
    assert calls[..k + 1][..k] == calls[..k];
    TakenGrows(m, calls, k + 1, net);
  }

  ghost predicate Invariant(m: Manager) {
    Consistent(m) && DistinctIds(m.outbox)
  }

  lemma NewInvariant(directory: RelayDirectory, key: VerifyingKey)
    ensures Invariant(New(directory, key))
  {
  }

  lemma FlushInvariant(m: Manager, now: U64, net: Network)
    requires Invariant(m)
    ensures var n := Flush(m, now, net).0;
      && Invariant(n) && m.log <= n.log && n.key == m.key && n.directory == m.directory
      && |n.outbox| <= |m.outbox| && Carried(n) == Carried(m)
  {
    FlushHistory(m, now, net);
    hide Flush, Deliveries, FailedIds, Consistent;
    var n := Flush(m, now, net).0;
    var ds := Deliveries(Since(m, n));
    LogConcat(m.log, Since(m, n));
    assert n.log == m.log + Since(m, n);
    assert Frames(Deliveries(m.log) + ds) == Frames(Deliveries(m.log)) + Frames(ds);
    assert m.outbox == m.outbox[..|ds|] + m.outbox[|ds|..];
  }

  /** One call keeps the invariant, never forgets history, and moves frames only from the end of the
      outbox, where they join, to its front, where they are answered. */
  lemma StepInvariant(m: Manager, call: Call, net: Network)
    requires Invariant(m)
    ensures var n := Step(m, call, net);
      && Invariant(n) && m.log <= n.log && n.key == m.key && n.directory.version >= m.directory.version
      && Carried(n) == Carried(m) + Joined(m, call, net)
  {
    match call
    case FlushAt(now) =>
      FlushInvariant(m, now, net);
      hide Flush, Carried, Invariant;
      assert Carried(m) + [] == Carried(m);
    case EnqueueFrame(frame) =>
      EnqueueInvariant(m, frame);
      hide Enqueue, Carried, Invariant;
    case NetworkChange =>
      hide Deliveries;
      assert Carried(m) + [] == Carried(m);
    case NewDirectory(_, _) =>
      hide Deliveries, Verify;
      assert Carried(m) + [] == Carried(m);
  }

  lemma EnqueueInvariant(m: Manager, frame: Protocol.TransportFrame)
    requires Invariant(m)
    ensures var n := Enqueue(m, frame).0; var joined := if |n.outbox| > |m.outbox| then n.outbox[|m.outbox|..] else [];
      && Invariant(n) && n.log == m.log && n.key == m.key && n.directory == m.directory
      && Carried(n) == Carried(m) + joined
  {
    hide Deliveries, Frames, Protocol.EncodeFrame;
    var n := Enqueue(m, frame).0;
    if |n.outbox| > |m.outbox| {
      var joined := n.outbox[|m.outbox|..];
      assert n.outbox == m.outbox + joined;
      assert Carried(n) == Carried(m) + joined;
    } else {
      assert Carried(m) + [] == Carried(m);
    }
  }

  /** Over every run nothing is lost, invented or reordered: the frames answered followed by the
      frames still waiting are the frames taken. */
  lemma {:induction false} RunHistory(m: Manager, calls: seq<Call>, net: Network)
    requires Invariant(m)
    ensures var n := Run(m, calls, net);
      && Invariant(n) && m.log <= n.log && n.directory.version >= m.directory.version
      && Carried(n) == Carried(m) + Taken(m, calls, net)
    decreases |calls|
  {
    hide Invariant, Carried, Step, Joined;
    if calls == [] {
      assert Carried(m) + [] == Carried(m);
    } else {
      RunHistory(m, calls[..|calls| - 1], net);
      StepInvariant(Run(m, calls[..|calls| - 1], net), calls[|calls| - 1], net);
    }
  }

  /** The laws of a manager's life, from its creation: first in, first out without loss, and counters
      that agree with what was sent, answered and refused. */
  lemma LifeOfAManager(directory: RelayDirectory, key: VerifyingKey, calls: seq<Call>, net: Network)
    ensures var n := Run(New(directory, key), calls, net); var c := n.counters; var ds := Deliveries(n.log);
      && DistinctIds(n.outbox)
      && Frames(ds) + n.outbox == Taken(New(directory, key), calls, net)
      && c.attempts == |n.log| == |ds| + c.websocketFailures + c.httpsFailures
      && c.sent == Sum(n.log, FrameSize())
      && c.received == Sum(n.log, ReplySize())
      && c.relaySwitches == Switches(ds)
      && n.directory.version >= directory.version
  {
    hide Run, Taken, Switches, Sum;
    NewInvariant(directory, key);
    RunHistory(New(directory, key), calls, net);
    AttemptsPartition(Run(New(directory, key), calls, net).log);
    NothingCarried(directory, key);
  }

  lemma NothingCarried(directory: RelayDirectory, key: VerifyingKey)
    ensures Carried(New(directory, key)) == []
  {
  }

  /** Head of the line: while the frame at the head of the outbox is never answered, no frame is. */
  lemma HeadOfLine(m: Manager, calls: seq<Call>, net: Network)
    requires Invariant(m) && m.outbox != []
    ensures var n := Run(m, calls, net);
      m.log <= n.log && ((forall a :: a in Since(m, n) && a.frame == m.outbox[0] ==> a.reply.None?)
        ==> forall a :: a in Since(m, n) ==> a.reply.None?)
  {
    hide Run, Invariant, Taken, Deliveries, Carried;
    RunHistory(m, calls, net);
    var n := Run(m, calls, net);
    var ds := Deliveries(Since(m, n));
    DeliveredAttempts(Since(m, n));
    FirstAnswered(m, n, Taken(m, calls, net));
    if ds != [] {
      assert ds[0] in ds;
    }
  }

  /** The first frame answered from a state on is the one that headed its outbox. */
  lemma FirstAnswered(m: Manager, n: Manager, taken: seq<Queued>)
    requires m.log <= n.log && m.outbox != [] && Carried(n) == Carried(m) + taken
    ensures Deliveries(Since(m, n)) != [] ==> Deliveries(Since(m, n))[0].frame == m.outbox[0]
  {
    hide Deliveries;
    assert n.log == m.log + Since(m, n);
    LogConcat(m.log, Since(m, n));
    var ds := Deliveries(Since(m, n));
    if ds != [] {
      var before := |Deliveries(m.log)|;
      assert Carried(n)[before] == ds[0].frame;
      assert (Carried(m) + taken)[before] == m.outbox[0];
    }
  }

  /** After a network change a non-empty outbox is offered at once, whatever failed before. */
  lemma NetworkChangeRetries(m: Manager, now: U64, net: Network)
    requires m.outbox != [] && m.directory.endpoints != []
    ensures |m.log| < |Flush(NotifyNetworkChange(m), now, net).0.log|
  {
    var n := NotifyNetworkChange(m);
    FlushSendsIff(n, now, net);
    assert !Blocked(n, n.directory.endpoints[0].id, now);
  }

  /* ---------- Retry times after a new directory ---------- */

  lemma AsciiIsText(s: string)
    requires forall i :: 0 <= i < |s| ==> s[i] as int < 0x80
    ensures ValidUtf8(Ascii(s))
    decreases |s|
  {
    if s != "" {
      AsciiIsText(s[1..]);
      assert Ascii(s)[1..] == Ascii(s[1..]);
    }
  }

  function AsciiText(s: string): (r: Text)
    requires forall i :: 0 <= i < |s| ==> s[i] as int < 0x80
    ensures r == Ascii(s)
  {
    AsciiIsText(s);
    Ascii(s)
  }

  const WEBSOCKET_URL := "wss://relay.example/ws"
  const HTTPS_URL := "https://relay.example/sync"

  function Relay(number: Byte): Endpoint {
    Endpoint(seq(16, _ => number), AsciiText(WEBSOCKET_URL), AsciiText(HTTPS_URL), 0)
  }

  function Listing(version: U64, e: Endpoint): RelayDirectory {
    RelayDirectory(version, 0, 1000, [e], seq(64, _ => 0))
  }

  function AcceptAll(): VerifyingKey {
    Key((octets: Blob, signature: Signature) => true)
  }

  function DeadNetwork(): Network {
    (log: seq<Attempt>, e: Endpoint, channel: Channel, queued: Queued) => None
  }

  lemma UrlsAcceptable(number: Byte)
    ensures AcceptableUrls(Relay(number)) && ShortUrls(Relay(number))
  {
    hide ValidUtf8;
    var ws, https := Ascii(WEBSOCKET_URL), Ascii(HTTPS_URL);
    assert ws[..6] == Ascii("wss://") && https[..8] == Ascii("https://");
  }

  /** The directories of these runs come back from the wire as they are. */
  lemma ListingTravels(version: U64, number: Byte)
    ensures Encode(Listing(version, Relay(number))).Ok?
    ensures Decode(Encode(Listing(version, Relay(number))).value) == Ok(Listing(version, Relay(number)))
  {
    hide Relay, Decode, Encode, Sorted, AcceptableUrls, ShortUrls;
    UrlsAcceptable(number);
    SortedOne(Relay(number));
    DirectoryRoundTrip(Listing(version, Relay(number)));
  }

  lemma SortedOne(e: Endpoint)
    ensures Sorted([e]) == [e]
  {
    SortedMembers([e]);
    assert Sorted([e])[0] in [e];
  }

  /** The reported time may be too early. Endpoint 1 fails at second 0, the directory moves to endpoint 2,
      which fails at second 100: the reported time is then second 3, in the past, when nothing can be sent. */
  lemma StaleHealthWakesEarly(frame: Protocol.TransportFrame)
    requires Protocol.EncodeFrame(frame).Ok?
    ensures
      var created := Create(Listing(1, Relay(1)), AcceptAll(), 0);
      var calls := [EnqueueFrame(frame), FlushAt(0), NewDirectory(Listing(2, Relay(2)), 50), FlushAt(100)];
      && created.Ok?
      && var m := Run(created.value, calls, DeadNetwork());
      && m.outbox != [] && IsNextRetry(m.health, Some(3)) && Flush(m, 3, DeadNetwork()) == (m, Err(Unavailable))
  {
    hide Protocol.EncodeFrame, Flush, Verify, Listing, DeadNetwork, AcceptAll, Run, Relay;
    var net := DeadNetwork();
    var calls := [EnqueueFrame(frame), FlushAt(0), NewDirectory(Listing(2, Relay(2)), 50), FlushAt(100)];
    Created();
    var m0 := New(Listing(1, Relay(1)), AcceptAll());
    var m1 := Step(m0, calls[0], net);
    var m2 := Step(m1, calls[1], net);
    RelayIds();
    SoleEndpointFails(m1, 1, Relay(1), 0);
    var m3 := Step(m2, calls[2], net);
    AcceptedUpdate(m2, 50);
    var m4 := Step(m3, calls[3], net);
    SoleEndpointFails(m3, 2, Relay(2), 100);
    assert m4.health == map[Relay(1).id := Health(1, 3)][Relay(2).id := Health(1, 102)];
    assert m4.health[Relay(1).id] == Health(1, 3) && m4.health[Relay(2).id] == Health(1, 102);
    UnrollRun(m0, calls[..3], net);
    assert calls[..3][0] == calls[0] && calls[..3][1] == calls[1] && calls[..3][2] == calls[2];
    assert Run(m0, calls, net) == m4 by { UnrollLast(m0, calls, net); }
    SoleEndpointBlocked(m4, 2, Relay(2), 3);
  }

  /** The reported time may be too late. Endpoint 1 fails at second 0 and the directory moves to endpoint 2
      at second 1: the reported time is still second 3, but a flush sends at once. */
  lemma NewEndpointWakesLate(frame: Protocol.TransportFrame)
    requires Protocol.EncodeFrame(frame).Ok?
    ensures
      var created := Create(Listing(1, Relay(1)), AcceptAll(), 0);
      var calls := [EnqueueFrame(frame), FlushAt(0), NewDirectory(Listing(2, Relay(2)), 1)];
      && created.Ok?
      && var m := Run(created.value, calls, DeadNetwork());
      && m.outbox != [] && IsNextRetry(m.health, Some(3)) && |m.log| < |Flush(m, 1, DeadNetwork()).0.log|
  {
    hide Protocol.EncodeFrame, Flush, Verify, Listing, DeadNetwork, AcceptAll, Run, Relay;
    var net := DeadNetwork();
    var calls := [EnqueueFrame(frame), FlushAt(0), NewDirectory(Listing(2, Relay(2)), 1)];
    Created();
    var m0 := New(Listing(1, Relay(1)), AcceptAll());
    var m1 := Step(m0, calls[0], net);
    var m2 := Step(m1, calls[1], net);
    RelayIds();
    SoleEndpointFails(m1, 1, Relay(1), 0);
    var m3 := Step(m2, calls[2], net);
    AcceptedUpdate(m2, 1);
    assert m3.health == map[Relay(1).id := Health(1, 3)];
    assert m3.health[Relay(1).id] == Health(1, 3);
    UnrollRun(m0, calls, net);
    SoleEndpointFree(m3, 2, Relay(2), 1);
  }

  lemma RelayIds()
    ensures Relay(1).id != Relay(2).id && Relay(1).id[0] == 1 && Relay(2).id[0] == 2
  {
    assert Relay(1).id[0] == 1 && Relay(2).id[0] == 2;
  }

  lemma Created()
    ensures Create(Listing(1, Relay(1)), AcceptAll(), 0) == Ok(New(Listing(1, Relay(1)), AcceptAll()))
  {
    ListingSigned(1, 1);
  }

  lemma ListingSigned(version: U64, number: Byte)
    ensures SigningBytes(Listing(version, Relay(number))).Ok?
  {
  }

  lemma SoleEndpointFree(m: Manager, version: U64, e: Endpoint, now: U64)
    requires m.outbox != [] && m.directory == Listing(version, e) && !Blocked(m, e.id, now)
    ensures |m.log| < |Flush(m, now, DeadNetwork()).0.log|
  {
    FlushSendsIff(m, now, DeadNetwork());
    assert e in m.directory.endpoints;
  }

  lemma SoleEndpointBlocked(m: Manager, version: U64, e: Endpoint, now: U64)
    requires m.outbox != [] && m.directory == Listing(version, e) && Blocked(m, e.id, now)
    ensures Flush(m, now, DeadNetwork()) == (m, Err(Unavailable))
  {
    FlushSendsIff(m, now, DeadNetwork());
  }

  lemma AcceptedUpdate(m: Manager, now: U64)
    requires m.directory == Listing(1, Relay(1)) && m.key == AcceptAll() && now <= 100
    ensures UpdateDirectory(m, Listing(2, Relay(2)), now).0 == m.(directory := Listing(2, Relay(2)))
  {
    hide SigningBytes, Relay;
    ListingSigned(2, 2);
  }

  lemma SoleEndpointFails(m: Manager, version: U64, e: Endpoint, now: U64)
    requires m.outbox != [] && m.directory == Listing(version, e) && e.id !in m.health && now <= 100
    ensures var n := Flush(m, now, DeadNetwork()).0;
      && n.outbox == m.outbox && n.directory == m.directory && n.key == m.key
      && n.health == m.health[e.id := Health(1, now + 2 + e.id[0] % 2)]
  {
    assert Order(m) == [e] by { OrderMembers(m); assert Order(m)[0] in Order(m); }
    assert TryAll(m, [e], m.outbox[0], e.id, now, DeadNetwork()) ==
        Try(m, e, m.outbox[0], e.id, now, DeadNetwork()) by {
      assert [e][1..] == [];
    }
    assert Pow2(1) == 2;
  }

  lemma UnrollRun(m: Manager, calls: seq<Call>, net: Network)
    requires |calls| == 3
    ensures Run(m, calls, net) == Step(Step(Step(m, calls[0], net), calls[1], net), calls[2], net)
  {
    hide Step;
    assert calls[..2][..1] == calls[..1] && calls[..1][..0] == [];
    assert Run(m, calls[..1], net) == Step(m, calls[0], net);
    assert Run(m, calls[..2], net) == Step(Run(m, calls[..1], net), calls[1], net);
  }

  lemma UnrollLast(m: Manager, calls: seq<Call>, net: Network)
    requires |calls| == 4
    ensures Run(m, calls, net) == Step(Run(m, calls[..3], net), calls[3], net)
  {
    hide Step;
  }
}
