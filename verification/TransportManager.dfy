/** The transport manager as the object it is: its loops update the outbox, the endpoint health,
    the counters and the sticky endpoint, and are proved to compute modules Transport and TransportRuns. */
module TransportManager {
  import opened Results
  import opened Bytes
  import opened Sorting
  import opened Directory
  import Protocol
  import ProtocolCodec
  import T = Transport
  import R = TransportRuns
  import H = TransportHistory

  /** The network: each send is recorded and answered, or not, as `network` decides from what went before. */
  class EndpointSender {
    const network: T.Network
    var log: seq<T.Attempt>

    constructor (network: T.Network)
      ensures this.network == network && log == []
    {
      this.network := network;
      log := [];
    }

    method Send(e: Endpoint, channel: T.Channel, frame: T.Queued, leader: Id) returns (reply: Option<Blob>)
      modifies this
      ensures reply == network(old(log), e, channel, frame)
      ensures log == old(log) + [T.Attempt(e, channel, frame, leader, reply)]
    {
      reply := network(log, e, channel, frame);
      log := log + [T.Attempt(e, channel, frame, leader, reply)];
    }
  }

  class TransportManager {
    const sender: EndpointSender
    const key: VerifyingKey
    var directory: RelayDirectory
    var outbox: seq<T.Queued>
    var health: map<Id, T.Health>
    var counters: T.Counters
    var preferred: Option<Id>

    ghost function Model(): T.Manager
      reads this, sender
    {
      T.Manager(directory, key, outbox, health, counters, preferred, sender.log)
    }

    constructor (sender: EndpointSender, directory: RelayDirectory, key: VerifyingKey)
      requires sender.log == []
      ensures Model() == T.New(directory, key) && this.sender == sender
    {
      this.sender := sender;
      this.key := key;
      this.directory := directory;
      outbox := [];
      health := map[];
      counters := T.ZERO_COUNTERS;
      preferred := None;
    }

    static method Create(sender: EndpointSender, directory: RelayDirectory, key: VerifyingKey,
        now: U64) returns (r: Result<TransportManager, TransportError>)
      requires sender.log == []
      ensures match R.Create(directory, key, now)
        case Ok(m) => r.Ok? && fresh(r.value) && r.value.sender == sender && r.value.Model() == m
        case Err(e) => r == Err(e)
    {
      var accepted := Verify(directory, key, now, 0);
      if accepted.Err? {
        return Err(accepted.error);
      }
      var manager := new TransportManager(sender, directory, key);
      r := Ok(manager);
    }

    method Enqueue(frame: Protocol.TransportFrame) returns (r: Result<(), TransportError>)
      modifies this
      ensures (Model(), r) == R.Enqueue(old(Model()), frame)
    {
      hide Protocol.EncodeFrame;
      var encoded := ProtocolCodec.Encode(frame);
      if encoded.Err? {
        return Err(FrameTooLarge);
      }
      for i := 0 to |outbox|
        invariant Model() == old(Model())
        invariant forall k :: 0 <= k < i ==> outbox[k].clientMessageId != frame.clientMessageId
      {
        if outbox[i].clientMessageId == frame.clientMessageId {
          return Ok(());
        }
      }
      outbox := outbox + [T.Queued(frame.clientMessageId, encoded.value)];
      r := Ok(());
    }

    method UpdateDirectory(next: RelayDirectory, now: U64) returns (r: Result<(), TransportError>)
      modifies this`directory
      ensures (Model(), r) == R.UpdateDirectory(old(Model()), next, now)
    {
      var accepted := Verify(next, key, now, directory.version);
      if accepted.Err? {
        return Err(accepted.error);
      }
      directory := next;
      r := Ok(());
    }

    method NotifyNetworkChange()
      modifies this`health
      ensures Model() == R.NotifyNetworkChange(old(Model()))
    {
      var ids := health.Keys;
      while ids != {}
        invariant ids <= health.Keys == old(health).Keys
        invariant forall id :: id in health ==>
          health[id] == if id in ids then old(health)[id] else T.Health(old(health)[id].failures, 0)
        decreases ids
      {
        var id :| id in ids;
        health := health[id := health[id].(retryAfter := 0)];
        ids := ids - {id};
      }
    }

    /** The least positive retry time of any endpoint. */
    method NextRetryAt() returns (next: Option<U64>)
      ensures T.IsNextRetry(health, next)
    {
      next := None;
      var ids := health.Keys;
      while ids != {}
        invariant ids <= health.Keys
        invariant T.IsNextRetry(health - ids, next)
        decreases ids
      {
        var id :| id in ids;
        assert health - (ids - {id}) == (health - ids)[id := health[id]];
        NextRetryStep(health - ids, id, health[id], next);
        if health[id].retryAfter > 0 && (next.None? || health[id].retryAfter < next.value) {
          next := Some(health[id].retryAfter);
        }
        ids := ids - {id};
      }
      assert health - {} == health;
    }

    /** One pass over the endpoints for the head of the outbox. */
    method Offer(now: U64) returns (delivered: Option<Blob>)
      requires outbox != []
      modifies this, sender
      ensures (Model(), delivered) == T.Offer(old(Model()), now, sender.network)
    {
      hide T.Try, T.TryAll;
      var frame := outbox[0];
      var endpoints := StableSort(directory.endpoints, T.FlushLeq(preferred));
      var leader := T.Leader(endpoints);
      delivered := None;
      var i := 0;
      while i < |endpoints| && delivered.None?
        invariant 0 <= i <= |endpoints| && outbox == old(outbox)
        invariant T.TryAll(old(Model()), endpoints, frame, leader, now, sender.network)
          == if delivered.Some? then (Model(), delivered)
             else T.TryAll(Model(), endpoints[i..], frame, leader, now, sender.network)
      {
        H.TryAllUnfold(Model(), endpoints[i..], frame, leader, now, sender.network);
        assert endpoints[i..][1..] == endpoints[i + 1..];
        delivered := TryEndpoint(endpoints[i], frame, leader, now);
        i := i + 1;
      }
      H.TryAllUnfold(Model(), [], frame, leader, now, sender.network);
    }

    /** A blocked endpoint is passed over; an endpoint seen for the first time gets a health entry. */
    method TryEndpoint(e: Endpoint, frame: T.Queued, leader: Id, now: U64) returns (delivered: Option<Blob>)
      modifies this, sender
      ensures (Model(), delivered) == T.Try(old(Model()), e, frame, leader, now, sender.network)
    {
      TryWithEntry(Model(), e, frame, leader, now, sender.network);
      hide T.Try;
      if e.id !in health {
        health := health[e.id := T.DEFAULT_HEALTH];
      }
      if health[e.id].retryAfter > now {
        return None;
      }
      delivered := SendToEndpoint(e, frame, leader, now);
    }

    /** WebSocket first, then HTTPS; the outcome settles the endpoint's health. */
    method SendToEndpoint(e: Endpoint, frame: T.Queued, leader: Id, now: U64) returns (delivered: Option<Blob>)
      requires e.id in health && health[e.id].retryAfter <= now
      modifies this, sender
      ensures (Model(), delivered) == T.Try(old(Model()), e, frame, leader, now, sender.network)
    {
      hide T.AfterFailure;
      delivered := SendFrame(e, T.Websocket, frame, leader);
      if delivered.None? {
        counters := counters.(websocketFailures := counters.websocketFailures + 1);
        delivered := SendFrame(e, T.Https, frame, leader);
      }
      match delivered {
        case Some(value) =>
          RecordDelivery(e, leader, value);
        case None =>
          counters := counters.(httpsFailures := counters.httpsFailures + 1);
          health := health[e.id := T.AfterFailure(health[e.id], e, now)];
      }
    }

    method SendFrame(e: Endpoint, channel: T.Channel, frame: T.Queued, leader: Id) returns (reply: Option<Blob>)
      modifies this`counters, sender
      ensures reply == sender.network(old(sender.log), e, channel, frame)
      ensures Model() == T.Sent(old(Model()), T.Attempt(e, channel, frame, leader, reply))
    {
      counters := counters.(attempts := counters.attempts + 1, sent := counters.sent + |frame.bytes|);
      reply := sender.Send(e, channel, frame, leader);
    }

    method RecordDelivery(e: Endpoint, leader: Id, reply: Blob)
      modifies this`health, this`counters, this`preferred
      ensures Model() == T.Delivered(old(Model()), e, leader, reply)
    {
      health := health[e.id := T.DEFAULT_HEALTH];
      counters := counters.(received := counters.received + |reply|);
      if preferred != Some(e.id) && (preferred.Some? || leader != e.id) {
        counters := counters.(relaySwitches := counters.relaySwitches + 1);
      }
      preferred := Some(e.id);
    }

    method Flush(now: U64) returns (r: Result<seq<Blob>, TransportError>)
      modifies this, sender
      ensures (Model(), r) == T.Flush(old(Model()), now, sender.network)
    {
      hide T.Offer;
      var responses: seq<Blob> := [];
      ResumedNothing(T.Flush(Model(), now, sender.network));
      while outbox != []
        invariant T.Flush(old(Model()), now, sender.network) ==
          Resumed(responses, T.Flush(Model(), now, sender.network))
        decreases |outbox|
      {
        var delivered := Offer(now);
        if delivered.None? {
          return Err(Unavailable);
        }
        outbox := outbox[1..];
        responses := responses + [delivered.value];
        ResumedStep(responses[..|responses| - 1], delivered.value, T.Flush(Model(), now, sender.network));
      }
      assert responses + [] == responses;
      r := Ok(responses);
    }
  }

  /** Giving an unseen endpoint its default entry beforehand changes nothing that is sent. */
  lemma TryWithEntry(m: T.Manager, e: Endpoint, frame: T.Queued, leader: Id, now: U64, net: T.Network)
    ensures T.Blocked(m, e.id, now) ==> e.id in m.health && T.Try(m, e, frame, leader, now, net) == (m, None)
    ensures e.id !in m.health ==>
      T.Try(m.(health := m.health[e.id := T.DEFAULT_HEALTH]), e, frame, leader, now, net) ==
        T.Try(m, e, frame, leader, now, net)
  {
    hide T.AfterFailure;
    var n := m.(health := m.health[e.id := T.DEFAULT_HEALTH]);
    assert T.HealthOf(m, e.id) == if e.id in m.health then m.health[e.id] else T.DEFAULT_HEALTH;
    if e.id !in m.health {
      assert n.health[e.id := T.DEFAULT_HEALTH] == m.health[e.id := T.DEFAULT_HEALTH];
      var failed := T.AfterFailure(T.DEFAULT_HEALTH, e, now);
      assert n.health[e.id := failed] == m.health[e.id := failed];
    }
  }

  lemma NextRetryStep(health: map<Id, T.Health>, id: Id, h: T.Health, next: Option<U64>)
    requires T.IsNextRetry(health, next) && id !in health
    ensures T.IsNextRetry(health[id := h], if h.retryAfter > 0 && (next.None? || h.retryAfter < next.value)
      then Some(h.retryAfter) else next)
  {
    var all := health[id := h];
    assert all[id] == h;
    if next.Some? {
      var other :| other in health && health[other].retryAfter == next.value;
      assert all[other].retryAfter == next.value;
    }
  }

  lemma ResumedNothing(rest: (T.Manager, Result<seq<Blob>, TransportError>))
    ensures Resumed([], rest) == rest
  {
    if rest.1.Ok? {
      assert [] + rest.1.value == rest.1.value;
    }
  }

  /** The end of a flush that had already collected some responses. */
  ghost function Resumed(responses: seq<Blob>, rest: (T.Manager, Result<seq<Blob>, TransportError>))
    : (T.Manager, Result<seq<Blob>, TransportError>)
  {
    (rest.0, match rest.1 case Ok(vs) => Ok(responses + vs) case Err(e) => Err(e))
  }

  lemma ResumedStep(responses: seq<Blob>, v: Blob, rest: (T.Manager, Result<seq<Blob>, TransportError>))
    ensures Resumed(responses, Resumed([v], rest)) == Resumed(responses + [v], rest)
  {
    if rest.1.Ok? {
      assert responses + ([v] + rest.1.value) == responses + [v] + rest.1.value;
    }
  }
}
