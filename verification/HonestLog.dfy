/** The log of a manager is honest: each recorded reply is what the network answered to that send,
    given what had been sent before. */
module HonestLog {
  import opened Results
  import opened Bytes
  import opened Directory
  import opened Transport
  import opened TransportRuns

  ghost predicate Honest(log: seq<Attempt>, net: Network) {
    forall i :: 0 <= i < |log| ==> log[i].reply == net(log[..i], log[i].endpoint, log[i].channel, log[i].frame)
  }

  lemma HonestAppend(log: seq<Attempt>, a: Attempt, net: Network)
    requires Honest(log, net) && a.reply == net(log, a.endpoint, a.channel, a.frame)
    ensures Honest(log + [a], net)
  {
    var longer := log + [a];
    forall i | 0 <= i < |longer|
      ensures longer[i].reply == net(longer[..i], longer[i].endpoint, longer[i].channel, longer[i].frame)
    {
      assert longer[..i] == log[..i];
      assert log[..|log|] == log;
    }
  }

  lemma TryHonest(m: Manager, e: Endpoint, frame: Queued, leader: Id, now: U64, net: Network)
    requires Honest(m.log, net)
    ensures Honest(Try(m, e, frame, leader, now, net).0.log, net)
  {
    if !Blocked(m, e.id, now) {
      hide Honest;
      var a := Attempt(e, Websocket, frame, leader, net(m.log, e, Websocket, frame));
      HonestAppend(m.log, a, net);
      HonestAppend(m.log + [a], Attempt(e, Https, frame, leader, net(m.log + [a], e, Https, frame)), net);
    }
  }

  lemma {:induction false} TryAllHonest(m: Manager, es: seq<Endpoint>, frame: Queued, leader: Id, now: U64,
      net: Network)
    requires Honest(m.log, net)
    ensures Honest(TryAll(m, es, frame, leader, now, net).0.log, net)
    decreases |es|
  {
    hide Honest, Try;
    if es != [] {
      TryHonest(m, es[0], frame, leader, now, net);
      TryAllHonest(Try(m, es[0], frame, leader, now, net).0, es[1..], frame, leader, now, net);
    }
  }

  lemma {:induction false} FlushHonest(m: Manager, now: U64, net: Network)
    requires Honest(m.log, net)
    ensures Honest(Flush(m, now, net).0.log, net)
    decreases |m.outbox|
  {
    hide Honest, TryAll, Order, Leader;
    if m.outbox != [] {
      TryAllHonest(m, Order(m), m.outbox[0], Leader(Order(m)), now, net);
      var (m1, reply) := Offer(m, now, net);
      if reply.Some? {
        FlushHonest(Pop(m1), now, net);
      }
    }
  }

  lemma {:induction false} RunHonest(m: Manager, calls: seq<Call>, net: Network)
    requires Honest(m.log, net)
    ensures Honest(Run(m, calls, net).log, net)
    decreases |calls|
  {
    hide Honest, Flush, Enqueue, NotifyNetworkChange, UpdateDirectory;
    if calls != [] {
      var before := Run(m, calls[..|calls| - 1], net);
      RunHonest(m, calls[..|calls| - 1], net);
      OthersSendNothing(before, calls[|calls| - 1], net);
      if calls[|calls| - 1].FlushAt? {
        FlushHonest(before, calls[|calls| - 1].now, net);
      }
    }
  }

  lemma OthersSendNothing(m: Manager, call: Call, net: Network)
    ensures !call.FlushAt? ==> Step(m, call, net).log == m.log
  {
  }
}
