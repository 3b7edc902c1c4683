/** The retry machine of the transport manager as a function of its state and of the network,
    and what holds of one flush. The network is a parameter: any function of everything sent so
    far. The state carries that history, the log of attempts. */
module Transport {
  import opened Results
  import opened Bytes
  import opened Sorting
  import opened Sequences
  import opened Directory

  datatype Queued = Queued(clientMessageId: Id, bytes: Blob)
  datatype Health = Health(failures: U32, retryAfter: U64)
  datatype Counters = Counters(
    sent: nat, received: nat, attempts: nat, websocketFailures: nat, httpsFailures: nat, relaySwitches: nat)

  datatype Channel = Websocket | Https

  /** One send: over which endpoint and channel, of which frame, which endpoint headed the order
      then, and the reply if there was one. */
  datatype Attempt = Attempt(endpoint: Endpoint, channel: Channel, frame: Queued, leader: Id, reply: Option<Blob>)

  type Network = (seq<Attempt>, Endpoint, Channel, Queued) -> Option<Blob>

  datatype Manager = Manager(
    directory: RelayDirectory, key: VerifyingKey, outbox: seq<Queued>, health: map<Id, Health>,
    counters: Counters, preferred: Option<Id>, log: seq<Attempt>)

  const DEFAULT_HEALTH := Health(0, 0)
  const ZERO_COUNTERS := Counters(0, 0, 0, 0, 0, 0)

  function New(directory: RelayDirectory, key: VerifyingKey): Manager {
    Manager(directory, key, [], map[], ZERO_COUNTERS, None, [])
  }

  /* ---------- Endpoint order and health ---------- */

  /** The preferred endpoint first, then by priority. */
  function FlushLeq(preferred: Option<Id>): (Endpoint, Endpoint) -> bool {
    (a: Endpoint, b: Endpoint) =>
      if (preferred == Some(a.id)) == (preferred == Some(b.id)) then a.priority <= b.priority
        else preferred == Some(a.id)
  }

  function Order(m: Manager): seq<Endpoint> {
    StableSort(m.directory.endpoints, FlushLeq(m.preferred))
  }

  function HealthOf(m: Manager, id: Id): Health {
    if id in m.health then m.health[id] else DEFAULT_HEALTH
  }

  /** Exponential backoff with a jitter taken from the endpoint id. */
  function AfterFailure(h: Health, e: Endpoint, now: U64): Health {
    var failures := if h.failures == U32_MAX then U32_MAX else h.failures + 1;
    var base := Pow2(if failures < 8 then failures else 8);
    BackoffRange(failures);
    Health(failures, SaturatingAdd(now, base + e.id[0] % base))
  }

  lemma BackoffRange(failures: nat)
    requires failures > 0
    ensures 2 <= Pow2(if failures < 8 then failures else 8) <= 256
  {
    assert Pow2(3) == 8;
    assert Pow2(6) == 64;
    assert Pow2(8) == 256;
  }

  predicate Blocked(m: Manager, id: Id, now: U64) {
    HealthOf(m, id).retryAfter > now
  }

  /* ---------- One endpoint, all endpoints, one flush ---------- */

  function Sent(m: Manager, a: Attempt): Manager {
    m.(log := m.log + [a],
       counters := m.counters.(attempts := m.counters.attempts + 1, sent := m.counters.sent + |a.frame.bytes|))
  }

  function Delivered(m: Manager, e: Endpoint, leader: Id, reply: Blob): Manager {
    var switched := m.preferred != Some(e.id) && (m.preferred.Some? || leader != e.id);
    m.(health := m.health[e.id := DEFAULT_HEALTH],
       preferred := Some(e.id),
       counters := m.counters.(
         received := m.counters.received + |reply|,
         relaySwitches := m.counters.relaySwitches + if switched then 1 else 0))
  }

  function Try(m: Manager, e: Endpoint, frame: Queued, leader: Id, now: U64, net: Network): (Manager, Option<Blob>) {
    if Blocked(m, e.id, now) then (m, None) else
    var ws := net(m.log, e, Websocket, frame);
    var m1 := Sent(m, Attempt(e, Websocket, frame, leader, ws));
    if ws.Some? then (Delivered(m1, e, leader, ws.value), ws) else
    var m2 := m1.(counters := m1.counters.(websocketFailures := m1.counters.websocketFailures + 1));
    var https := net(m2.log, e, Https, frame);
    var m3 := Sent(m2, Attempt(e, Https, frame, leader, https));
    if https.Some? then (Delivered(m3, e, leader, https.value), https) else
    (m3.(health := m3.health[e.id := AfterFailure(HealthOf(m, e.id), e, now)],
         counters := m3.counters.(httpsFailures := m3.counters.httpsFailures + 1)), None)
  }

  function TryAll(m: Manager, es: seq<Endpoint>, frame: Queued, leader: Id, now: U64,
      net: Network): (r: (Manager, Option<Blob>))
    ensures r.0.outbox == m.outbox
    decreases |es|
  {
    if es == [] then (m, None) else
    var (m1, reply) := Try(m, es[0], frame, leader, now, net);
    if reply.Some? then (m1, reply) else TryAll(m1, es[1..], frame, leader, now, net)
  }

  function Leader(es: seq<Endpoint>): Id {
    if es == [] then seq(16, _ => 0) else es[0].id
  }

  /** Offer the head of the outbox to the endpoints in order. */
  function Offer(m: Manager, now: U64, net: Network): (r: (Manager, Option<Blob>))
    requires m.outbox != []
    ensures r.0.outbox == m.outbox
  {
    TryAll(m, Order(m), m.outbox[0], Leader(Order(m)), now, net)
  }

  function Pop(m: Manager): Manager
    requires m.outbox != []
  {
    m.(outbox := m.outbox[1..])
  }

  function Flush(m: Manager, now: U64, net: Network): (Manager, Result<seq<Blob>, TransportError>)
    decreases |m.outbox|
  {
    if m.outbox == [] then (m, Ok([])) else
    var (m1, reply) := Offer(m, now, net);
    match reply
    case None => (m1, Err(Unavailable))
    case Some(v) =>
      var (m2, rest) := Flush(Pop(m1), now, net);
      (m2, match rest case Ok(vs) => Ok([v] + vs) case Err(e) => Err(e))
  }

  /* ---------- Reading the log ---------- */

  function Answered(): Attempt -> Option<Attempt> {
    (a: Attempt) => if a.reply.Some? then Some(a) else None
  }

  function HttpsFailure(): Attempt -> Option<Id> {
    (a: Attempt) => if a.channel.Https? && a.reply.None? then Some(a.endpoint.id) else None
  }

  /** The attempts that were answered. */
  function Deliveries(log: seq<Attempt>): seq<Attempt> {
    Collect(log, Answered())
  }

  /** The endpoints whose second channel failed too, one entry a failure. */
  function FailedIds(log: seq<Attempt>): seq<Id> {
    Collect(log, HttpsFailure())
  }

  function Frames(log: seq<Attempt>): (r: seq<Queued>)
    ensures |r| == |log|
  {
    seq(|log|, i requires 0 <= i < |log| => log[i].frame)
  }

  function Deliverers(deliveries: seq<Attempt>): (r: seq<Id>)
    ensures |r| == |deliveries|
  {
    seq(|deliveries|, i requires 0 <= i < |deliveries| => deliveries[i].endpoint.id)
  }

  /** Changes of the delivering endpoint, and one more if the first deliverer did not head the order. */
  function Switches(deliveries: seq<Attempt>): nat {
    if deliveries == [] then 0
    else Changes(Deliverers(deliveries)) + if deliveries[0].endpoint.id != deliveries[0].leader then 1 else 0
  }

  function FrameSize(): Attempt -> nat {
    (a: Attempt) => |a.frame.bytes|
  }

  function ReplySize(): Attempt -> nat {
    (a: Attempt) => if a.reply.Some? then |a.reply.value| else 0
  }

  function WebsocketFailure(): Attempt -> nat {
    (a: Attempt) => if a.channel.Websocket? && a.reply.None? then 1 else 0
  }

  function LastDeliverer(log: seq<Attempt>): Option<Id> {
    var ds := Deliveries(log);
    if ds == [] then None else Some(ds[|ds| - 1].endpoint.id)
  }

  /** The counters and the sticky endpoint are what the history says. */
  ghost predicate Consistent(m: Manager) {
    && m.counters.attempts == |m.log|
    && m.counters.sent == Sum(m.log, FrameSize())
    && m.counters.received == Sum(m.log, ReplySize())
    && m.counters.websocketFailures == Sum(m.log, WebsocketFailure())
    && m.counters.httpsFailures == |FailedIds(m.log)|
    && m.counters.relaySwitches == Switches(Deliveries(m.log))
    && m.preferred == LastDeliverer(m.log)
  }

  lemma Append(log: seq<Attempt>, a: Attempt)
    ensures Deliveries(log + [a]) == if a.reply.Some? then Deliveries(log) + [a] else Deliveries(log)
    ensures FailedIds(log + [a]) ==
      if a.channel.Https? && a.reply.None? then FailedIds(log) + [a.endpoint.id] else FailedIds(log)
  {
    hide Collect;
    CollectAppend(log, a, Answered());
    CollectAppend(log, a, HttpsFailure());
  }

  lemma LogConcat(a: seq<Attempt>, b: seq<Attempt>)
    ensures Deliveries(a + b) == Deliveries(a) + Deliveries(b)
    ensures FailedIds(a + b) == FailedIds(a) + FailedIds(b)
  {
    hide Collect;
    CollectConcat(a, b, Answered());
    CollectConcat(a, b, HttpsFailure());
  }

  lemma SwitchesAppend(ds: seq<Attempt>, a: Attempt)
    ensures Switches(ds + [a]) == Switches(ds)
      + if a.endpoint.id != (if ds == [] then a.leader else ds[|ds| - 1].endpoint.id) then 1 else 0
  {
    hide Changes;
    assert ds == [] ==> Deliverers(ds + [a]) == [a.endpoint.id];
    assert Deliverers(ds + [a]) == Deliverers(ds) + [a.endpoint.id];
    ChangesAppend(Deliverers(ds), a.endpoint.id);
    assert Changes([a.endpoint.id]) == 0 by { OneNeverChanges(a.endpoint.id); }
  }

  lemma OneNeverChanges(id: Id)
    ensures Changes([id]) == 0
  {
  }

  /** Every attempt was answered, or failed over WebSocket, or failed over HTTPS. */
  lemma {:induction false} AttemptsPartition(log: seq<Attempt>)
    ensures |log| == |Deliveries(log)| + Sum(log, WebsocketFailure()) + |FailedIds(log)|
  {
    if log != [] {
      var n := |log| - 1;
      AttemptsPartition(log[..n]);
      assert log == log[..n] + [log[n]];
      hide Collect, Sum;
      Append(log[..n], log[n]);
      SumAppend(log[..n], log[n], WebsocketFailure());
    }
  }

  /* ---------- What offering a frame does ---------- */

  function EndpointIds(es: seq<Endpoint>): set<Id> {
    set e | e in es :: e.id
  }

  /** What was sent between two states. */
  function Since(m: Manager, n: Manager): seq<Attempt>
    requires m.log <= n.log
  {
    n.log[|m.log|..]
  }

  /** `n` follows from `m` by attempts at time `now`: history only grows, and a blocked endpoint is
      left alone. */
  ghost predicate Grows(m: Manager, n: Manager, now: U64) {
    && m.log <= n.log
    && n.directory == m.directory && n.key == m.key
    && (Consistent(m) ==> Consistent(n))
    && (forall id :: Blocked(m, id, now) ==> id in n.health && n.health[id] == m.health[id])
    && n.health.Keys <= m.health.Keys + EndpointIds(m.directory.endpoints)
    && |Since(m, n)| <= 2 * (|Deliveries(Since(m, n))| + |FailedIds(Since(m, n))|)
  }

  /** An endpoint that fails was not blocked and becomes blocked for 2 to 511 seconds, so it fails once. */
  ghost predicate FailsOnce(m: Manager, n: Manager, failed: seq<Id>, now: U64) {
    && (forall id :: id in failed ==> id in EndpointIds(m.directory.endpoints))
    && (now < U64_MAX ==>
        Distinct(failed) && forall id :: id in failed ==> !Blocked(m, id, now) && FreshlyBlocked(n, id, now))
  }

  predicate FreshlyBlocked(n: Manager, id: Id, now: U64) {
    && Blocked(n, id, now) && id in n.health
    && SaturatingAdd(now, 2) <= n.health[id].retryAfter <= SaturatingAdd(now, 511)
  }

  ghost predicate Advances(m: Manager, n: Manager, now: U64) {
    Grows(m, n, now) && FailsOnce(m, n, FailedIds(Since(m, n)), now)
  }

  lemma GrowsTrans(a: Manager, b: Manager, c: Manager, now: U64)
    requires Grows(a, b, now) && Grows(b, c, now)
    ensures Grows(a, c, now)
    ensures Deliveries(Since(a, c)) == Deliveries(Since(a, b)) + Deliveries(Since(b, c))
    ensures FailedIds(Since(a, c)) == FailedIds(Since(a, b)) + FailedIds(Since(b, c))
  {
    hide Consistent, EndpointIds, Deliveries, FailedIds;
    assert Since(a, c) == Since(a, b) + Since(b, c);
    LogConcat(Since(a, b), Since(b, c));
  }

  lemma FailsOnceTrans(a: Manager, b: Manager, c: Manager, x: seq<Id>, y: seq<Id>, now: U64)
    requires Grows(a, b, now) && Grows(b, c, now)
    requires FailsOnce(a, b, x, now) && FailsOnce(b, c, y, now)
    ensures FailsOnce(a, c, x + y, now)
  {
    hide Consistent, EndpointIds, Deliveries, FailedIds;
    if now < U64_MAX {
      forall i, j | 0 <= i < |x| && 0 <= j < |y|
        ensures x[i] != y[j]
      {
        assert x[i] in x && y[j] in y;
      }
      forall id | id in x + y
        ensures !Blocked(a, id, now) && FreshlyBlocked(c, id, now)
      {
        assert id in x || id in y;
      }
    }
  }

  lemma AdvancesTrans(a: Manager, b: Manager, c: Manager, now: U64)
    requires Advances(a, b, now) && Advances(b, c, now)
    ensures Advances(a, c, now)
    ensures Deliveries(Since(a, c)) == Deliveries(Since(a, b)) + Deliveries(Since(b, c))
    ensures FailedIds(Since(a, c)) == FailedIds(Since(a, b)) + FailedIds(Since(b, c))
  {
    GrowsTrans(a, b, c, now);
    hide Grows, FailsOnce, FailedIds, Deliveries;
    FailsOnceTrans(a, b, c, FailedIds(Since(a, b)), FailedIds(Since(b, c)), now);
  }

  lemma SentConsistent(m: Manager, a: Attempt)
    requires Consistent(m)
    ensures var n := Sent(m, a);
      && n.counters.attempts == |n.log| && n.counters.sent == Sum(n.log, FrameSize())
      && n.counters.received == Sum(n.log, ReplySize()) - ReplySize()(a)
      && n.counters.websocketFailures == Sum(n.log, WebsocketFailure()) - WebsocketFailure()(a)
      && (a.reply.None? ==>
        n.preferred == LastDeliverer(n.log) && n.counters.relaySwitches == Switches(Deliveries(n.log)))
      && (a.channel.Websocket? ==> n.counters.httpsFailures == |FailedIds(n.log)|)
  {
    Append(m.log, a);
    SumAppend(m.log, a, FrameSize());
    SumAppend(m.log, a, ReplySize());
    SumAppend(m.log, a, WebsocketFailure());
  }

  lemma DeliveredConsistent(m: Manager, e: Endpoint, channel: Channel, frame: Queued, leader: Id, reply: Blob)
    requires Consistent(m)
    ensures Consistent(Delivered(Sent(m, Attempt(e, channel, frame, leader, Some(reply))), e, leader, reply))
  {
    var a := Attempt(e, channel, frame, leader, Some(reply));
    SentConsistent(m, a);
    Append(m.log, a);
    SwitchesAppend(Deliveries(m.log), a);
  }

  /** Offering `frame` leads from `m` to `n`: exactly one attempt is answered, by `reply`, or none is. */
  ghost predicate Tried(m: Manager, n: Manager, frame: Queued, reply: Option<Blob>, now: U64) {
    && Advances(m, n, now)
    && n.outbox == m.outbox
    && (reply.None? ==> Deliveries(Since(m, n)) == [] && n.preferred == m.preferred)
    && (reply.Some? ==> (var ds := Deliveries(Since(m, n)); |ds| == 1 && ds[0].frame == frame && ds[0].reply == reply))
  }

  lemma HttpsConsistent(m: Manager, e: Endpoint, frame: Queued, leader: Id, now: U64, net: Network)
    requires Consistent(m) && !Blocked(m, e.id, now) && net(m.log, e, Websocket, frame).None?
    ensures Consistent(Try(m, e, frame, leader, now, net).0)
  {
    hide Deliveries, FailedIds, Switches;
    var a := Attempt(e, Websocket, frame, leader, None);
    SentConsistent(m, a);
    var m1 := Sent(m, a);
    var m2 := m1.(counters := m1.counters.(websocketFailures := m1.counters.websocketFailures + 1));
    assert Consistent(m2);
    var https := net(m2.log, e, Https, frame);
    var b := Attempt(e, Https, frame, leader, https);
    if https.Some? {
      DeliveredConsistent(m2, e, Https, frame, leader, https.value);
    } else {
      SentConsistent(m2, b);
      Append(m2.log, b);
    }
  }

  /** A state that differs from `m` by attempts on one endpoint that was not blocked. */
  lemma TriedBy(m: Manager, n: Manager, e: Endpoint, h: Health, frame: Queued, sent: seq<Attempt>,
      reply: Option<Blob>, now: U64)
    requires e in m.directory.endpoints && !Blocked(m, e.id, now)
    requires n.directory == m.directory && n.key == m.key && n.outbox == m.outbox
    requires n.health == m.health[e.id := h] && n.log == m.log + sent && 1 <= |sent| <= 2
    requires Consistent(m) ==> Consistent(n)
    requires match reply
      case Some(v) => |Deliveries(sent)| == 1 && Deliveries(sent)[0].frame == frame
        && Deliveries(sent)[0].reply == reply && FailedIds(sent) == []
      case None => Deliveries(sent) == [] && FailedIds(sent) == [e.id] && n.preferred == m.preferred
                   && SaturatingAdd(now, 2) <= h.retryAfter <= SaturatingAdd(now, 511)
    ensures Tried(m, n, frame, reply, now) && |m.log| < |n.log|
    ensures reply.None? && now < U64_MAX ==> Blocked(n, e.id, now)
  {
    hide Consistent, Deliveries, FailedIds;
    assert Since(m, n) == sent;
    assert e.id in EndpointIds(m.directory.endpoints);
  }

  /** One endpoint: nothing happens when it is blocked, and it is blocked once it has failed. */
  lemma TryAdvances(m: Manager, e: Endpoint, frame: Queued, leader: Id, now: U64, net: Network)
    requires e in m.directory.endpoints
    ensures var (n, reply) := Try(m, e, frame, leader, now, net);
      && Tried(m, n, frame, reply, now)
      && (reply.None? && now < U64_MAX ==> Blocked(n, e.id, now))
      && (if Blocked(m, e.id, now) then n == m && reply.None? else |m.log| < |n.log|)
  {
    if Blocked(m, e.id, now) {
      TriedNothing(m, frame, now);
    } else {
      hide Tried, Consistent, Deliveries, FailedIds, EndpointIds;
      var (n, reply) := Try(m, e, frame, leader, now, net);
      var ws := net(m.log, e, Websocket, frame);
      var a := Attempt(e, Websocket, frame, leader, ws);
      if ws.Some? {
        SingleRead(a);
        if Consistent(m) { DeliveredConsistent(m, e, Websocket, frame, leader, ws.value); }
        TriedBy(m, n, e, DEFAULT_HEALTH, frame, [a], reply, now);
      } else {
        var b := Attempt(e, Https, frame, leader, net(m.log + [a], e, Https, frame));
        PairRead(a, b);
        if Consistent(m) { HttpsConsistent(m, e, frame, leader, now, net); }
        var failures := HealthOf(m, e.id).failures;
        BackoffRange(if failures == U32_MAX then U32_MAX else failures + 1);
        assert m.log + [a] + [b] == m.log + [a, b];
        TriedBy(m, n, e, if b.reply.Some? then DEFAULT_HEALTH
          else AfterFailure(HealthOf(m, e.id), e, now), frame, [a, b], reply, now);
      }
    }
  }

  lemma TriedNothing(m: Manager, frame: Queued, now: U64)
    ensures Tried(m, m, frame, None, now)
  {
  }

  lemma SingleRead(a: Attempt)
    requires a.reply.Some?
    ensures Deliveries([a]) == [a] && FailedIds([a]) == []
  {
    assert [] + [a] == [a];
    Append([], a);
  }

  lemma PairRead(a: Attempt, b: Attempt)
    requires a.channel.Websocket? && a.reply.None? && b.channel.Https?
    ensures Deliveries([a, b]) == if b.reply.Some? then [b] else []
    ensures FailedIds([a, b]) == if b.reply.None? then [b.endpoint.id] else []
  {
    assert [] + [a] == [a] && [a] + [b] == [a, b];
    Append([], a);
    Append([a], b);
  }

  /** All endpoints: the first that answers ends it; if none does, every one is blocked afterwards. */
  lemma {:induction false} TryAllAdvances(m: Manager, es: seq<Endpoint>, frame: Queued, leader: Id, now: U64,
      net: Network)
    requires forall e :: e in es ==> e in m.directory.endpoints
    ensures var (n, reply) := TryAll(m, es, frame, leader, now, net);
      && Tried(m, n, frame, reply, now)
      && (reply.None? && now < U64_MAX ==> forall e :: e in es ==> Blocked(n, e.id, now))
      && (if forall e :: e in es ==> Blocked(m, e.id, now) then n == m && reply.None? else |m.log| < |n.log|)
    decreases |es|
  {
    hide Deliveries, FailedIds, Try, Consistent, EndpointIds;
    if es == [] {
      TriedNothing(m, frame, now);
    } else {
      TryAdvances(m, es[0], frame, leader, now, net);
      var (m1, reply) := Try(m, es[0], frame, leader, now, net);
      if reply.None? {
        TryAllAdvances(m1, es[1..], frame, leader, now, net);
        var n := TryAll(m1, es[1..], frame, leader, now, net).0;
        AdvancesTrans(m, m1, n, now);
        assert es == [es[0]] + es[1..];
      }
    }
  }

  /* ---------- One flush ---------- */

  lemma OrderMembers(m: Manager)
    ensures |Order(m)| == |m.directory.endpoints|
    ensures forall e :: e in Order(m) <==> e in m.directory.endpoints
  {
    var leq := FlushLeq(m.preferred);
    SortPermutes(m.directory.endpoints, leq);
    forall e: Endpoint
      ensures e in Order(m) <==> e in m.directory.endpoints
    {
      assert e in Order(m) <==> e in multiset(Order(m));
      assert e in m.directory.endpoints <==> e in multiset(m.directory.endpoints);
    }
  }

  lemma PopAdvances(m: Manager, n: Manager, now: U64)
    requires Advances(m, n, now) && n.outbox != []
    ensures Advances(m, Pop(n), now) && Since(m, Pop(n)) == Since(m, n)
  {
    hide Deliveries, FailedIds, EndpointIds, Switches;
  }

  /** What a flush from `m` to `n` did to the outbox. */
  ghost predicate Flushed(m: Manager, n: Manager, r: Result<seq<Blob>, TransportError>, now: U64)
    requires m.log <= n.log
  {
    var ds := Deliveries(Since(m, n));
    && |ds| <= |m.outbox| && Frames(ds) == m.outbox[..|ds|] && n.outbox == m.outbox[|ds|..]
    && match r
       case Ok(vs) => n.outbox == [] && |vs| == |ds| && forall i :: 0 <= i < |vs| ==> ds[i].reply == Some(vs[i])
       case Err(e) => n.outbox != [] && e == Unavailable
                      && (now < U64_MAX ==> forall x :: x in n.directory.endpoints ==> Blocked(n, x.id, now))
  }

  /** One frame answered, then the rest. */
  lemma FlushedCons(m: Manager, p: Manager, n: Manager, reply: Blob, r: Result<seq<Blob>, TransportError>, now: U64)
    requires Advances(m, p, now) && Advances(p, n, now) && m.outbox != [] && p.outbox == m.outbox[1..]
    requires var ds := Deliveries(Since(m, p)); |ds| == 1 && ds[0].frame == m.outbox[0] && ds[0].reply == Some(reply)
    requires Flushed(p, n, r, now)
    ensures Advances(m, n, now)
    ensures Flushed(m, n, match r case Ok(vs) => Ok([reply] + vs) case Err(e) => Err(e), now)
  {
    hide Deliveries, FailedIds, Consistent, EndpointIds, FailsOnce;
    AdvancesTrans(m, p, n, now);
    var first, rest := Deliveries(Since(m, p)), Deliveries(Since(p, n));
    assert Frames(first + rest) == [m.outbox[0]] + Frames(rest);
    assert m.outbox == [m.outbox[0]] + p.outbox;
  }

  /** FIFO: the frames answered are exactly those that left the front of the outbox, in order. Success
      empties the outbox with one reply a frame; failure leaves the head with every endpoint blocked. */
  lemma {:induction false} FlushHistory(m: Manager, now: U64, net: Network)
    ensures var (n, r) := Flush(m, now, net); Advances(m, n, now) && Flushed(m, n, r, now)
    decreases |m.outbox|
  {
    if m.outbox == [] {
      TriedNothing(m, Queued(seq(16, _ => 0), []), now);
      assert Since(m, m) == [];
    } else {
      hide Deliveries, FailedIds, TryAll, Order, Consistent, EndpointIds;
      OrderMembers(m);
      TryAllAdvances(m, Order(m), m.outbox[0], Leader(Order(m)), now, net);
      var (m1, reply) := Offer(m, now, net);
      if reply.Some? {
        var p := Pop(m1);
        PopAdvances(m, m1, now);
        FlushHistory(p, now, net);
        hide Flushed, Advances;
        FlushedCons(m, p, Flush(p, now, net).0, reply.value, Flush(p, now, net).1, now);
      }
    }
  }

  lemma DeliveredAttempts(log: seq<Attempt>)
    ensures forall a :: a in Deliveries(log) <==> a in log && a.reply.Some?
  {
    CollectMembers(log, Answered());
  }

  ghost predicate DistinctIds(outbox: seq<Queued>) {
    forall i, j :: 0 <= i < j < |outbox| ==> outbox[i].clientMessageId != outbox[j].clientMessageId
  }

  /** A failed flush means that no endpoint accepted the frame that now heads the outbox. */
  lemma FailedFlushHead(m: Manager, now: U64, net: Network)
    requires DistinctIds(m.outbox) && Flush(m, now, net).1.Err?
    ensures var n := Flush(m, now, net).0;
      && m.log <= n.log && n.outbox != []
      && forall a :: a in Since(m, n) && a.frame == n.outbox[0] ==> a.reply.None?
  {
    FlushHistory(m, now, net);
    hide Flush, Deliveries, FailedIds, Consistent;
    var n := Flush(m, now, net).0;
    var ds := Deliveries(Since(m, n));
    DeliveredAttempts(Since(m, n));
    forall a | a in Since(m, n) && a.reply.Some?
      ensures a.frame != n.outbox[0]
    {
      var i :| 0 <= i < |ds| && ds[i] == a;
      assert Frames(ds)[i] == m.outbox[i];
    }
  }

  /** Within one flush an endpoint fails at most once, over all frames and however often the directory
      lists it. So the sends are at most twice the frames delivered plus the distinct endpoints. */
  lemma FlushWork(m: Manager, now: U64, net: Network)
    requires now < U64_MAX
    ensures var n := Flush(m, now, net).0;
      && m.log <= n.log
      && Distinct(FailedIds(Since(m, n)))
      && |n.log| - |m.log| <= 2 * ((|m.outbox| - |n.outbox|) + |EndpointIds(m.directory.endpoints)|)
  {
    FlushHistory(m, now, net);
    hide Flush, Deliveries, FailedIds, EndpointIds;
    var n := Flush(m, now, net).0;
    DistinctFits(FailedIds(Since(m, n)), EndpointIds(m.directory.endpoints));
  }

  /* ---------- When to flush again ---------- */

  /** The earliest retry time of any endpoint that has one. */
  ghost predicate IsNextRetry(health: map<Id, Health>, next: Option<U64>) {
    match next
    case None => forall id :: id in health ==> health[id].retryAfter == 0
    case Some(t) =>
      && t > 0
      && (exists id :: id in health && health[id].retryAfter == t)
      && (forall id :: id in health && health[id].retryAfter > 0 ==> t <= health[id].retryAfter)
  }

  /** A flush sends something exactly when some listed endpoint is not blocked; otherwise it changes nothing. */
  lemma FlushSendsIff(m: Manager, now: U64, net: Network)
    requires m.outbox != []
    ensures if forall e :: e in m.directory.endpoints ==> Blocked(m, e.id, now)
      then Flush(m, now, net) == (m, Err(Unavailable))
      else |m.log| < |Flush(m, now, net).0.log|
  {
    OrderMembers(m);
    TryAllAdvances(m, Order(m), m.outbox[0], Leader(Order(m)), now, net);
    hide Deliveries, FailedIds, TryAll, Order, Blocked, Consistent, EndpointIds;
    var (m1, reply) := Offer(m, now, net);
    if reply.Some? {
      FlushHistory(Pop(m1), now, net);
    }
  }

  ghost predicate AnswersAll(net: Network) {
    forall log: seq<Attempt>, e: Endpoint, channel: Channel, frame: Queued :: net(log, e, channel, frame).Some?
  }

  ghost predicate SomeFree(m: Manager, es: seq<Endpoint>, now: U64) {
    exists e :: e in es && !Blocked(m, e.id, now)
  }

  lemma {:induction false} TryAllAnswers(m: Manager, es: seq<Endpoint>, frame: Queued, leader: Id, now: U64,
    net: Network)
    requires AnswersAll(net) && SomeFree(m, es, now)
    ensures var (n, reply) := TryAll(m, es, frame, leader, now, net);
      reply.Some? && n.directory == m.directory && SomeFree(n, es, now)
    decreases |es|
  {
    assert es == [es[0]] + es[1..];
    if Blocked(m, es[0].id, now) {
      TryAllAnswers(m, es[1..], frame, leader, now, net);
    } else {
      assert !Blocked(Try(m, es[0], frame, leader, now, net).0, es[0].id, now);
    }
  }

  /** A flush succeeds when one listed endpoint may be tried and the network answers every send. */
  lemma {:induction false} FlushSucceeds(m: Manager, now: U64, net: Network)
    requires AnswersAll(net) && SomeFree(m, m.directory.endpoints, now)
    ensures var (n, r) := Flush(m, now, net); n.outbox == [] && r.Ok? && |r.value| == |m.outbox|
    decreases |m.outbox|
  {
    hide TryAll, Order, AnswersAll, Leader, Blocked;
    if m.outbox != [] {
      OrderMembers(m);
      TryAllAnswers(m, Order(m), m.outbox[0], Leader(Order(m)), now, net);
      var m1 := Offer(m, now, net).0;
      FreeAfterPop(m1, Order(m), now);
      FlushSucceeds(Pop(m1), now, net);
    }
  }

  lemma FreeAfterPop(m: Manager, es: seq<Endpoint>, now: U64)
    requires SomeFree(m, es, now) && m.outbox != [] && forall e :: e in es ==> e in m.directory.endpoints
    ensures SomeFree(Pop(m), m.directory.endpoints, now)
  {
    var e :| e in es && !Blocked(m, e.id, now);
    assert !Blocked(Pop(m), e.id, now);
  }

  /** Flushes send from `next` on, over any network, and not before. */
  ghost predicate WakesAt(m: Manager, next: U64) {
    forall later: U64, net: Network :: |m.log| < |Flush(m, later, net).0.log| <==> next <= later
  }

  ghost predicate ListedAt(m: Manager, time: U64) {
    exists e :: e in m.directory.endpoints && HealthOf(m, e.id).retryAfter == time
  }

  ghost predicate NoneBefore(m: Manager, time: U64) {
    forall e :: e in m.directory.endpoints ==> HealthOf(m, e.id).retryAfter >= time
  }

  lemma SendsAtIff(m: Manager, now: U64, net: Network)
    requires m.outbox != []
    ensures |m.log| < |Flush(m, now, net).0.log| <==>
      exists e :: e in m.directory.endpoints && HealthOf(m, e.id).retryAfter <= now
  {
    FlushSendsIff(m, now, net);
    hide Flush;
    if e :| e in m.directory.endpoints && HealthOf(m, e.id).retryAfter <= now {
      assert !Blocked(m, e.id, now);
    } else {
      assert forall e :: e in m.directory.endpoints ==> Blocked(m, e.id, now);
    }
  }

  /** When exactly flushes send from a given time on and not before: no listed endpoint may be tried
      earlier, and one may be tried then. */
  lemma WakesAtIff(m: Manager, next: U64)
    requires m.outbox != [] && next > 0
    ensures WakesAt(m, next) <==> NoneBefore(m, next) && ListedAt(m, next)
  {
    hide Flush, HealthOf;
    forall later: U64, net: Network
      ensures |m.log| < |Flush(m, later, net).0.log| <==>
        exists e :: e in m.directory.endpoints && HealthOf(m, e.id).retryAfter <= later
    {
      SendsAtIff(m, later, net);
    }
    var net: Network := (log: seq<Attempt>, e: Endpoint, channel: Channel, queued: Queued) => None;
    if WakesAt(m, next) {
      assert |m.log| < |Flush(m, next, net).0.log|;
      forall e | e in m.directory.endpoints
        ensures HealthOf(m, e.id).retryAfter >= next
      {
        assert |m.log| < |Flush(m, HealthOf(m, e.id).retryAfter, net).0.log|;
      }
    }
  }

  /** The reported retry time is the time from which flushes send, and not before, exactly when no
      listed endpoint may be tried at once and the time is that of a listed one. It need not be: an
      endpoint that left the directory keeps its entry, and one that joined it has none. */
  lemma ReportedTimeExactIff(m: Manager, next: U64)
    requires m.outbox != [] && IsNextRetry(m.health, Some(next))
    ensures WakesAt(m, next) <==> NoneBefore(m, 1) && ListedAt(m, next)
  {
    hide WakesAt;
    WakesAtIff(m, next);
    if NoneBefore(m, 1) {
      forall e | e in m.directory.endpoints
        ensures HealthOf(m, e.id).retryAfter >= next
      {
        assert HealthOf(m, e.id).retryAfter >= 1;
      }
    }
  }

  /** After any failed flush the reported time is never too late: a flush before it changes nothing.
      It is exact just when it is the time of a listed endpoint; otherwise a flush then changes nothing. */
  lemma FailedFlushReport(m: Manager, now: U64, net: Network, next: U64)
    requires Flush(m, now, net).1.Err? && now < U64_MAX && IsNextRetry(Flush(m, now, net).0.health, Some(next))
    ensures var n := Flush(m, now, net).0;
      && (forall later: U64, net': Network :: later < next ==> Flush(n, later, net') == (n, Err(Unavailable)))
      && (forall net': Network ::
          if ListedAt(n, next) then |n.log| < |Flush(n, next, net').0.log|
            else Flush(n, next, net') == (n, Err(Unavailable)))
      && (WakesAt(n, next) <==> ListedAt(n, next))
  {
    FlushHistory(m, now, net);
    hide Flush, Deliveries, FailedIds, Consistent, WakesAt;
    var n := Flush(m, now, net).0;
    forall e | e in n.directory.endpoints
      ensures HealthOf(n, e.id).retryAfter >= next
    {
      assert Blocked(n, e.id, now);
    }
    ReportedTimeExactIff(n, next);
    forall later: U64, net': Network | later < next
      ensures Flush(n, later, net') == (n, Err(Unavailable))
    {
      FlushSendsIff(n, later, net');
    }
    forall net': Network
      ensures if ListedAt(n, next) then |n.log| < |Flush(n, next, net').0.log|
        else Flush(n, next, net') == (n, Err(Unavailable))
    {
      FlushSendsIff(n, next, net');
    }
  }

  /** After a failed flush the reported retry time is exact: it lies ahead, a flush before it sends and
      changes nothing, and a flush from then on sends. */
  lemma ExactWakeUp(m: Manager, now: U64, net: Network, next: Option<U64>)
    requires Flush(m, now, net).1.Err? && m.directory.endpoints != []
    requires m.health.Keys <= EndpointIds(m.directory.endpoints)
    requires now + 511 <= U64_MAX
    requires IsNextRetry(Flush(m, now, net).0.health, next)
    ensures var n := Flush(m, now, net).0;
      && m.log <= n.log
      && next.Some? && now < next.value
      && ((forall e :: e in n.directory.endpoints ==> e.id in FailedIds(Since(m, n))) ==>
        now + 2 <= next.value <= now + 511)
      && forall later: U64, net': Network ::
          if later < next.value then Flush(n, later, net') == (n, Err(Unavailable))
          else |n.log| < |Flush(n, later, net').0.log|
  {
    FlushHistory(m, now, net);
    hide Flush, Deliveries, FailedIds, Consistent;
    var n := Flush(m, now, net).0;
    var e := n.directory.endpoints[0];
    assert Blocked(n, e.id, now) && e.id in n.health;
    var first :| first in n.health && n.health[first].retryAfter == next.value;
    assert first in EndpointIds(n.directory.endpoints);
    var source :| source in n.directory.endpoints && source.id == first;
    assert Blocked(n, first, now);
    forall later: U64, net': Network
      ensures if later < next.value then Flush(n, later, net') == (n, Err(Unavailable))
              else |n.log| < |Flush(n, later, net').0.log|
    {
      FlushSendsIff(n, later, net');
      if later < next.value {
        forall x | x in n.directory.endpoints
          ensures Blocked(n, x.id, later)
        {
          assert Blocked(n, x.id, now);
        }
      } else {
        assert !Blocked(n, source.id, later);
      }
    }
  }
}
