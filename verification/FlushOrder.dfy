/** To whom a flush sends what, attempt by attempt, read from its log, the directory as listed, the health
    table and the sticky endpoint before it. */
module FlushOrder {
  import opened Results
  import opened Bytes
  import opened Sorting
  import opened Sequences
  import opened Directory
  import opened Transport

  /* ---------- The law of an attempt ---------- */

  /** The sticky endpoint after some attempts. */
  function StickyAfter(m: Manager, since: seq<Attempt>): Option<Id> {
    var ds := Deliveries(since);
    if ds == [] then m.preferred else Some(ds[|ds| - 1].endpoint.id)
  }

  /** The endpoint may be tried: its retry time is over, and it did not fail in these attempts. */
  predicate OpenAfter(m: Manager, since: seq<Attempt>, id: Id, now: U64) {
    (id in m.health ==> m.health[id].retryAfter <= now) && id !in FailedIds(since)
  }

  /** The sticky endpoint comes first, then the lower priority number, then the earlier place. */
  predicate Precedes(es: seq<Endpoint>, sticky: Option<Id>, k: nat, j: nat)
    requires k < |es| && j < |es|
  {
    var stickyK, stickyJ := sticky == Some(es[k].id), sticky == Some(es[j].id);
    if stickyK != stickyJ then stickyK
    else if es[k].priority != es[j].priority then es[k].priority < es[j].priority
    else k < j
  }

  /** The endpoint at place `k` may be tried and precedes every other one that may be. */
  ghost predicate NextPlace(m: Manager, since: seq<Attempt>, k: nat, now: U64) {
    var es := m.directory.endpoints;
    && k < |es| && OpenAfter(m, since, es[k].id, now)
    && forall j :: 0 <= j < |es| && j != k && OpenAfter(m, since, es[j].id, now) ==>
        Precedes(es, StickyAfter(m, since), k, j)
  }

  /** The endpoint at place `k` precedes every other one, open or not. */
  ghost predicate TopPlace(m: Manager, since: seq<Attempt>, k: nat) {
    var es := m.directory.endpoints;
    k < |es| && forall j :: 0 <= j < |es| && j != k ==> Precedes(es, StickyAfter(m, since), k, j)
  }

  ghost predicate SentTo(m: Manager, since: seq<Attempt>, e: Endpoint, now: U64) {
    exists k: nat :: NextPlace(m, since, k, now) && m.directory.endpoints[k] == e
  }

  ghost predicate LedBy(m: Manager, since: seq<Attempt>, leader: Id) {
    exists k: nat :: TopPlace(m, since, k) && m.directory.endpoints[k].id == leader
  }

  /** Attempt `t`: it carries the first frame not answered yet. Over WebSocket it goes to the next endpoint
      that may be tried; over HTTPS it repeats the attempt before it, which failed. Its record names the
      endpoint that heads the order. */
  ghost predicate Lawful(m: Manager, log: seq<Attempt>, t: nat, now: U64)
    requires |m.log| <= t < |log|
  {
    var since, a := log[|m.log|..t], log[t];
    && |Deliveries(since)| < |m.outbox| && a.frame == m.outbox[|Deliveries(since)|]
    && LedBy(m, since, a.leader)
    && match a.channel
       case Websocket => SentTo(m, since, a.endpoint, now)
       case Https => t > |m.log| && log[t - 1] == Attempt(a.endpoint, Websocket, a.frame, a.leader, None)
  }

  ghost predicate AllLawful(m: Manager, log: seq<Attempt>, now: U64) {
    forall t: nat :: |m.log| <= t < |log| ==> Lawful(m, log, t, now)
  }

  /* ---------- In the middle of a flush ---------- */

  /** `x` is the state after some attempts of a flush that began at `m`. */
  ghost predicate Within(m: Manager, x: Manager, now: U64) {
    && x.directory == m.directory && m.log <= x.log
    && var since := Since(m, x);
      && x.preferred == StickyAfter(m, since)
      && (forall id: Id :: Blocked(x, id, now) <==> !OpenAfter(m, since, id, now))
      && |Deliveries(since)| <= |m.outbox| && x.outbox == m.outbox[|Deliveries(since)|..]
      && AllLawful(m, x.log, now)
  }

  lemma WithinStart(m: Manager, now: U64)
    ensures Within(m, m, now)
  {
    assert Since(m, m) == [];
  }

  lemma LawfulLater(m: Manager, log: seq<Attempt>, longer: seq<Attempt>, t: nat, now: U64)
    requires |m.log| <= t < |log| && log <= longer && Lawful(m, log, t, now)
    ensures Lawful(m, longer, t, now)
  {
    assert longer[|m.log|..t] == log[|m.log|..t];
  }

  lemma AllLawfulAppend(m: Manager, log: seq<Attempt>, a: Attempt, now: U64)
    requires |m.log| <= |log| && AllLawful(m, log, now) && Lawful(m, log + [a], |log|, now)
    ensures AllLawful(m, log + [a], now)
  {
    forall t: nat | |m.log| <= t < |log + [a]|
      ensures Lawful(m, log + [a], t, now)
    {
      if t < |log| { LawfulLater(m, log, log + [a], t, now); }
    }
  }

  /** One attempt to the next endpoint, over WebSocket. */
  lemma FirstLawful(m: Manager, x: Manager, a: Attempt, now: U64)
    requires Within(m, x, now) && x.outbox != [] && a.channel.Websocket? && a.frame == x.outbox[0]
    requires SentTo(m, Since(m, x), a.endpoint, now) && LedBy(m, Since(m, x), a.leader)
    ensures AllLawful(m, x.log + [a], now)
  {
    hide Deliveries, SentTo, LedBy, AllLawful, StickyAfter, OpenAfter;
    assert (x.log + [a])[|m.log|..|x.log|] == Since(m, x);
    AllLawfulAppend(m, x.log, a, now);
  }

  /** And its repetition over HTTPS. */
  lemma SecondLawful(m: Manager, x: Manager, a: Attempt, b: Attempt, now: U64)
    requires Within(m, x, now) && x.outbox != [] && a.channel.Websocket? && a.reply.None? && a.frame == x.outbox[0]
    requires SentTo(m, Since(m, x), a.endpoint, now) && LedBy(m, Since(m, x), a.leader)
    requires b == Attempt(a.endpoint, Https, a.frame, a.leader, b.reply)
    ensures AllLawful(m, x.log + [a] + [b], now)
  {
    FirstLawful(m, x, a, now);
    var log := x.log + [a];
    assert log[|m.log|..] == Since(m, x) + [a];
    Append(Since(m, x), a);
    hide Deliveries, SentTo, AllLawful, FailedIds;
    assert LedBy(m, Since(m, x) + [a], a.leader) by { SameLeader(m, Since(m, x), a); }
    assert (log + [b])[|m.log|..|log|] == Since(m, x) + [a];
    AllLawfulAppend(m, log, b, now);
  }

  lemma SameLeader(m: Manager, since: seq<Attempt>, a: Attempt)
    requires LedBy(m, since, a.leader) && Deliveries(since + [a]) == Deliveries(since)
    ensures LedBy(m, since + [a], a.leader)
  {
    hide Deliveries;
    var k: nat :| TopPlace(m, since, k) && m.directory.endpoints[k].id == a.leader;
    assert StickyAfter(m, since + [a]) == StickyAfter(m, since);
    assert forall j :: 0 <= j < |m.directory.endpoints| && j != k ==>
      Precedes(m.directory.endpoints, StickyAfter(m, since + [a]), k, j);
  }

  /** What an endpoint's failure or answer changes. */
  lemma WithinFailed(m: Manager, x: Manager, n: Manager, a: Attempt, b: Attempt, now: U64)
    requires Within(m, x, now) && a.channel.Websocket? && a.reply.None? && b.channel.Https? && b.reply.None?
    requires n.log == x.log + [a] + [b] && AllLawful(m, n.log, now)
    requires n.directory == x.directory && n.preferred == x.preferred && n.outbox == x.outbox
    requires forall id: Id :: Blocked(n, id, now) <==> Blocked(x, id, now) || id == b.endpoint.id
    ensures Within(m, n, now)
  {
    var since := Since(m, x);
    assert Since(m, n) == since + [a] + [b];
    Append(since, a);
    Append(since + [a], b);
    hide AllLawful, Deliveries, FailedIds, Blocked;
    forall id: Id
      ensures Blocked(n, id, now) <==> !OpenAfter(m, Since(m, n), id, now)
    {
      assert Blocked(x, id, now) <==> !OpenAfter(m, since, id, now);
    }
  }

  lemma WithinAnswered(m: Manager, x: Manager, n: Manager, sent: seq<Attempt>, now: U64)
    requires Within(m, x, now) && x.outbox != [] && n.log == x.log + sent && AllLawful(m, n.log, now)
    requires |Deliveries(sent)| == 1 && FailedIds(sent) == []
    requires n.directory == x.directory && n.preferred == Some(Deliveries(sent)[0].endpoint.id) && n.outbox == x.outbox
    requires forall id: Id :: Blocked(n, id, now) <==> Blocked(x, id, now)
    ensures Within(m, Pop(n), now)
  {
    var since := Since(m, x);
    assert Since(m, Pop(n)) == since + sent;
    LogConcat(since, sent);
    hide AllLawful, Deliveries, FailedIds;
    forall id: Id
      ensures Blocked(Pop(n), id, now) <==> !OpenAfter(m, Since(m, Pop(n)), id, now)
    {
      assert Blocked(x, id, now) <==> !OpenAfter(m, since, id, now);
      assert Blocked(Pop(n), id, now) <==> Blocked(n, id, now);
    }
  }

  lemma TryLawful(m: Manager, x: Manager, e: Endpoint, leader: Id, now: U64, net: Network)
    requires now < U64_MAX && Within(m, x, now) && x.outbox != [] && !Blocked(x, e.id, now)
    requires SentTo(m, Since(m, x), e, now) && LedBy(m, Since(m, x), leader)
    ensures var (n, reply) := Try(x, e, x.outbox[0], leader, now, net);
      && n.outbox == x.outbox
      && (reply.None? ==> Within(m, n, now))
      && (reply.None? ==> forall id: Id :: Blocked(n, id, now) <==> Blocked(x, id, now) || id == e.id)
      && (reply.Some? ==> Within(m, Pop(n), now))
  {
    hide Within, SentTo, LedBy, AllLawful, Deliveries, FailedIds, Pow2;
    var frame := x.outbox[0];
    var (n, reply) := Try(x, e, frame, leader, now, net);
    var a := Attempt(e, Websocket, frame, leader, net(x.log, e, Websocket, frame));
    if a.reply.Some? {
      FirstLawful(m, x, a, now);
      SingleRead(a);
      WithinAnswered(m, x, n, [a], now);
    } else {
      var b := Attempt(e, Https, frame, leader, net(x.log + [a], e, Https, frame));
      SecondLawful(m, x, a, b, now);
      if b.reply.Some? {
        PairRead(a, b);
        assert x.log + [a] + [b] == x.log + [a, b];
        WithinAnswered(m, x, n, [a, b], now);
      } else {
        FailureBlocks(x, e, frame, leader, now, net);
        WithinFailed(m, x, n, a, b, now);
      }
    }
  }

  lemma FailureBlocks(x: Manager, e: Endpoint, frame: Queued, leader: Id, now: U64, net: Network)
    requires now < U64_MAX && !Blocked(x, e.id, now) && Try(x, e, frame, leader, now, net).1.None?
    ensures var n := Try(x, e, frame, leader, now, net).0;
      forall id: Id :: Blocked(n, id, now) <==> Blocked(x, id, now) || id == e.id
  {
    var failures := HealthOf(x, e.id).failures;
    BackoffRange(if failures == U32_MAX then U32_MAX else failures + 1);
    hide Pow2;
  }

  /* ---------- The order ---------- */

  lemma PrecedesIs(es: seq<Endpoint>, sticky: Option<Id>, k: nat, j: nat)
    requires k < |es| && j < |es| && k != j
    ensures var leq := FlushLeq(sticky);
      leq(es[k], es[j]) && (leq(es[j], es[k]) ==> k < j) <==> Precedes(es, sticky, k, j)
  {
  }

  lemma OrderTotal(sticky: Option<Id>)
    ensures TotalPreorder(FlushLeq(sticky))
  {
  }

  /** The first endpoint of the order that is not blocked is the next one. */
  lemma FirstIsNext(m: Manager, x: Manager, i: nat, now: U64)
    requires Within(m, x, now) && i < |Order(x)| && !Blocked(x, Order(x)[i].id, now)
    requires forall h :: 0 <= h < i ==> Blocked(x, Order(x)[h].id, now)
    ensures SentTo(m, Since(m, x), Order(x)[i], now)
  {
    var since, es := Since(m, x), m.directory.endpoints;
    var open := (e: Endpoint) => OpenAfter(m, since, e.id, now);
    OrderTotal(x.preferred);
    hide StableSort, Deliveries, FailedIds, AllLawful, TotalPreorder, FlushLeq;
    var k := FirstOpenIsLeast(es, FlushLeq(x.preferred), open, i);
    forall j | 0 <= j < |es| && j != k && OpenAfter(m, since, es[j].id, now)
      ensures Precedes(es, x.preferred, k, j)
    {
      assert open(es[j]);
      PrecedesIs(es, x.preferred, k, j);
    }
    assert NextPlace(m, since, k, now);
  }

  lemma HeadLeads(m: Manager, x: Manager, now: U64)
    requires Within(m, x, now) && Order(x) != []
    ensures LedBy(m, Since(m, x), Leader(Order(x)))
  {
    var since, es := Since(m, x), m.directory.endpoints;
    OrderTotal(x.preferred);
    hide StableSort, Deliveries, FailedIds, AllLawful, TotalPreorder, FlushLeq;
    var k := FirstOpenIsLeast(es, FlushLeq(x.preferred), (e: Endpoint) => true, 0);
    forall j | 0 <= j < |es| && j != k
      ensures Precedes(es, x.preferred, k, j)
    {
      PrecedesIs(es, x.preferred, k, j);
    }
    assert TopPlace(m, since, k);
  }

  /* ---------- One frame, all frames ---------- */

  lemma {:induction false} TryAllLawful(m: Manager, x: Manager, i: nat, now: U64, net: Network)
    requires now < U64_MAX && Within(m, x, now) && x.outbox != [] && i <= |Order(x)|
    requires forall h :: 0 <= h < i ==> Blocked(x, Order(x)[h].id, now)
    ensures var (n, reply) := TryAll(x, Order(x)[i..], x.outbox[0], Leader(Order(x)), now, net);
      && (reply.None? ==> Within(m, n, now) && forall e :: e in Order(x) ==> Blocked(n, e.id, now))
      && (reply.Some? ==> Within(m, Pop(n), now))
    decreases |Order(x)| - i
  {
    hide Within, Try, StableSort, Blocked, FlushLeq, Leader;
    var es, leader := Order(x), Leader(Order(x));
    if i < |es| {
      assert es[i..][1..] == es[i + 1..];
      if Blocked(x, es[i].id, now) {
        BlockedTry(x, es[i], x.outbox[0], leader, now, net);
        TryAllLawful(m, x, i + 1, now, net);
      } else {
        FirstIsNext(m, x, i, now);
        HeadLeads(m, x, now);
        TryLawful(m, x, es[i], leader, now, net);
        var (y, reply) := Try(x, es[i], x.outbox[0], leader, now, net);
        if reply.None? {
          SameOrder(m, x, y, es[i], x.outbox[0], leader, now, net);
          TryAllLawful(m, y, i + 1, now, net);
        }
      }
    }
  }

  lemma BlockedTry(x: Manager, e: Endpoint, frame: Queued, leader: Id, now: U64, net: Network)
    requires Blocked(x, e.id, now)
    ensures Try(x, e, frame, leader, now, net) == (x, None)
  {
  }

  lemma SameOrder(m: Manager, x: Manager, y: Manager, e: Endpoint, frame: Queued, leader: Id, now: U64, net: Network)
    requires Try(x, e, frame, leader, now, net) == (y, None)
    ensures Order(y) == Order(x) && y.outbox == x.outbox
  {
    hide StableSort, FlushLeq;
  }

  lemma {:induction false} FlushWithin(m: Manager, x: Manager, now: U64, net: Network)
    requires now < U64_MAX && Within(m, x, now)
    ensures var (n, r) := Flush(x, now, net);
      Within(m, n, now) && (r.Err? ==> forall e :: e in m.directory.endpoints ==> Blocked(n, e.id, now))
    decreases |x.outbox|
  {
    hide Within, TryAll, Order, Leader, Blocked;
    if x.outbox != [] {
      TryAllLawful(m, x, 0, now, net);
      assert Order(x)[0..] == Order(x);
      OrderMembers(x);
      SameEndpoints(m, x, now);
      var (n, reply) := Offer(x, now, net);
      if reply.Some? {
        FlushWithin(m, Pop(n), now, net);
      }
    }
  }

  lemma SameEndpoints(m: Manager, x: Manager, now: U64)
    requires Within(m, x, now)
    ensures x.directory == m.directory
  {
  }

  /** Every attempt of a flush is lawful, and a flush fails only when no listed endpoint may be tried. */
  lemma FlushLaw(m: Manager, now: U64, net: Network)
    requires now < U64_MAX
    ensures var (n, r) := Flush(m, now, net);
      && m.log <= n.log && AllLawful(m, n.log, now)
      && (r.Err? ==> forall e :: e in m.directory.endpoints ==> !OpenAfter(m, Since(m, n), e.id, now))
  {
    WithinStart(m, now);
    FlushWithin(m, m, now, net);
    hide Flush, AllLawful;
    var (n, r) := Flush(m, now, net);
    if r.Err? {
      forall e | e in m.directory.endpoints
        ensures !OpenAfter(m, Since(m, n), e.id, now)
      {
        assert Blocked(n, e.id, now);
      }
    }
  }
}
