/** What the log of a manager says about its choices: endpoints are offered a frame in a fixed order,
    HTTPS only after WebSocket failed, and an endpoint's backoff counts its failures since it last answered. */
module TransportHistory {
  import opened Results
  import opened Bytes
  import opened Sorting
  import opened Directory
  import opened Transport
  import R = TransportRuns

  /* ---------- The order of endpoints ---------- */

  lemma FlushLeqTotal(preferred: Option<Id>)
    ensures TotalPreorder(FlushLeq(preferred))
  {
  }

  /** The endpoints are offered a frame in one order: the sticky endpoint first, then by priority, then
      as the directory lists them. No other sequence has these properties. */
  lemma OrderLaw(m: Manager, es: seq<Endpoint>)
    ensures var leq := FlushLeq(m.preferred);
      es == Order(m) <==> Ordered(es, leq) && SameClasses(es, m.directory.endpoints, leq)
  {
    FlushLeqTotal(m.preferred);
    SortLaw(m.directory.endpoints, es, FlushLeq(m.preferred));
  }

  /** While the sticky endpoint is listed it is offered the frame first, whatever its priority. */
  lemma StickyFirst(m: Manager)
    requires exists e :: e in m.directory.endpoints && m.preferred == Some(e.id)
    ensures Order(m) != [] && m.preferred == Some(Order(m)[0].id)
  {
    OrderMembers(m);
    FlushLeqTotal(m.preferred);
    SortOrders(m.directory.endpoints, FlushLeq(m.preferred));
    var e :| e in m.directory.endpoints && m.preferred == Some(e.id);
    assert e in Order(m);
    var i :| 0 <= i < |Order(m)| && Order(m)[i] == e;
    hide Order;
    assert i > 0 ==> FlushLeq(m.preferred)(Order(m)[0], Order(m)[i]);
  }

  /** The frame is answered by the first endpoint in the order that may be tried and accepts it: all
      before it are blocked when it answers. */
  lemma {:induction false} FirstAccepting(m: Manager, es: seq<Endpoint>, frame: Queued, leader: Id, now: U64,
      net: Network) returns (k: nat)
    requires forall e :: e in es ==> e in m.directory.endpoints
    requires TryAll(m, es, frame, leader, now, net).1.Some? && now < U64_MAX
    ensures var n := TryAll(m, es, frame, leader, now, net).0;
      && k < |es| && n.preferred == Some(es[k].id) && n.log != [] && n.log[|n.log| - 1].endpoint == es[k]
      && forall i :: 0 <= i < k && es[i].id != es[k].id ==> Blocked(n, es[i].id, now)
    decreases |es|
  {
    hide Tried, Blocked, Order, Try, TryAll;
    TryAllUnfold(m, es, frame, leader, now, net);
    TryAdvances(m, es[0], frame, leader, now, net);
    var (m1, reply) := Try(m, es[0], frame, leader, now, net);
    if reply.Some? {
      k := 0;
      AnsweredLast(m, es[0], frame, leader, now, net);
    } else {
      var rest := es[1..];
      SameDirectory(m, m1, frame, now);
      var j := FirstAccepting(m1, rest, frame, leader, now, net);
      k := j + 1;
      TryAllAdvances(m1, rest, frame, leader, now, net);
      var n := TryAll(m1, rest, frame, leader, now, net).0;
      StaysBlocked(m1, n, frame, TryAll(m1, rest, frame, leader, now, net).1, es[0].id, now);
      forall i | 0 <= i < k && es[i].id != es[k].id
        ensures Blocked(n, es[i].id, now)
      {
        if i > 0 { assert es[i] == rest[i - 1]; }
      }
    }
  }

  lemma SameDirectory(m: Manager, n: Manager, frame: Queued, now: U64)
    requires Tried(m, n, frame, None, now)
    ensures n.directory == m.directory
  {
  }

  lemma TryAllUnfold(m: Manager, es: seq<Endpoint>, frame: Queued, leader: Id, now: U64, net: Network)
    ensures es == [] ==> TryAll(m, es, frame, leader, now, net) == (m, None)
    ensures es != [] ==>
      var (n, reply) := Try(m, es[0], frame, leader, now, net);
      TryAll(m, es, frame, leader, now, net) == if reply.Some? then (n, reply)
        else TryAll(n, es[1..], frame, leader, now, net)
  {
  }

  lemma AnsweredLast(m: Manager, e: Endpoint, frame: Queued, leader: Id, now: U64, net: Network)
    requires Try(m, e, frame, leader, now, net).1.Some?
    ensures var n := Try(m, e, frame, leader, now, net).0;
      n.preferred == Some(e.id) && n.log != [] && n.log[|n.log| - 1].endpoint == e
  {
  }

  lemma StaysBlocked(m: Manager, n: Manager, frame: Queued, reply: Option<Blob>, id: Id, now: U64)
    requires Tried(m, n, frame, reply, now) && Blocked(m, id, now)
    ensures Blocked(n, id, now)
  {
  }

  /* ---------- Failover between the channels ---------- */

  predicate FailedOver(a: Attempt, b: Attempt) {
    && a.channel.Websocket? && a.reply.None? && b.channel.Https?
    && a.endpoint == b.endpoint && a.frame == b.frame
  }

  /** A send over HTTPS directly follows the failed send of the same frame to the same endpoint over
      WebSocket, and every such failure is followed by one. */
  ghost predicate Paired(log: seq<Attempt>) {
    && (forall i :: 0 <= i < |log| && log[i].channel.Https? ==> i > 0 && FailedOver(log[i - 1], log[i]))
    && (forall i :: 0 <= i < |log| && log[i].channel.Websocket? && log[i].reply.None? ==>
      i + 1 < |log| && FailedOver(log[i], log[i + 1]))
  }

  /* ---------- Backoff ---------- */

  /** How often the endpoint failed on both channels since it last answered. */
  function FailuresSince(log: seq<Attempt>, id: Id): nat {
    if log == [] then 0 else
    var a := log[|log| - 1];
    var before := FailuresSince(log[..|log| - 1], id);
    if a.endpoint.id != id then before
    else if a.reply.Some? then 0
    else if a.channel.Https? then before + 1
    else before
  }

  function Capped(n: nat): U32 {
    if n < U32_MAX then n else U32_MAX
  }

  /** The failure count is the history's, and an endpoint without failures has no retry time. */
  predicate HealthTold(m: Manager, id: Id) {
    && HealthOf(m, id).failures == Capped(FailuresSince(m.log, id))
    && (FailuresSince(m.log, id) == 0 ==> HealthOf(m, id).retryAfter == 0)
  }

  ghost predicate FailuresTold(m: Manager) {
    forall id: Id :: HealthTold(m, id)
  }

  ghost predicate Told(m: Manager) {
    Paired(m.log) && FailuresTold(m)
  }

  lemma FailuresAppend(log: seq<Attempt>, a: Attempt, id: Id)
    ensures FailuresSince(log + [a], id) ==
      if a.endpoint.id != id then FailuresSince(log, id)
      else if a.reply.Some? then 0
      else if a.channel.Https? then FailuresSince(log, id) + 1
      else FailuresSince(log, id)
  {
    assert (log + [a])[..|log|] == log;
  }

  lemma PairedAppend(log: seq<Attempt>, a: Attempt, b: Attempt)
    requires Paired(log)
    ensures a.channel.Websocket? && a.reply.Some? ==> Paired(log + [a])
    ensures FailedOver(a, b) ==> Paired(log + [a] + [b])
  {
  }

  lemma TryTold(m: Manager, e: Endpoint, frame: Queued, leader: Id, now: U64, net: Network)
    requires Told(m)
    ensures Told(Try(m, e, frame, leader, now, net).0)
  {
    if !Blocked(m, e.id, now) {
      var a := Attempt(e, Websocket, frame, leader, net(m.log, e, Websocket, frame));
      var b := Attempt(e, Https, frame, leader, net(m.log + [a], e, Https, frame));
      PairedAppend(m.log, a, b);
      TrySent(m, e, frame, leader, now, net, a, b);
      hide Paired, Try;
      FailuresCounted(m, Try(m, e, frame, leader, now, net).0, a, b);
    }
  }

  lemma FailuresCounted(m: Manager, n: Manager, a: Attempt, b: Attempt)
    requires FailuresTold(m) && a.channel.Websocket? && b.channel.Https? && a.endpoint == b.endpoint
    requires n.log == if a.reply.Some? then m.log + [a] else m.log + [a] + [b]
    requires forall id: Id :: id != a.endpoint.id ==> HealthOf(n, id) == HealthOf(m, id)
    requires a.reply.Some? || b.reply.Some? ==> HealthOf(n, a.endpoint.id).retryAfter == 0
    requires var failures := HealthOf(m, a.endpoint.id).failures;
      HealthOf(n, a.endpoint.id).failures == if a.reply.Some? || b.reply.Some? then 0 else if failures == U32_MAX
        then U32_MAX else failures + 1
    ensures FailuresTold(n)
  {
    hide HealthOf, FailuresSince;
    forall id: Id
      ensures HealthTold(n, id)
    {
      assert HealthTold(m, id);
      FailuresAppend(m.log, a, id);
      FailuresAppend(m.log + [a], b, id);
    }
  }

  /** What one try leaves in the log and in the failure counts. */
  lemma TrySent(m: Manager, e: Endpoint, frame: Queued, leader: Id, now: U64, net: Network, a: Attempt, b: Attempt)
    requires !Blocked(m, e.id, now)
    requires a == Attempt(e, Websocket, frame, leader, net(m.log, e, Websocket, frame))
    requires b == Attempt(e, Https, frame, leader, net(m.log + [a], e, Https, frame))
    ensures var n := Try(m, e, frame, leader, now, net).0; var failures := HealthOf(m, e.id).failures;
      && n.log == (if a.reply.Some? then m.log + [a] else m.log + [a] + [b])
      && (forall id: Id :: id != e.id ==> HealthOf(n, id) == HealthOf(m, id))
      && HealthOf(n, e.id).failures ==
         (if a.reply.Some? || b.reply.Some? then 0 else if failures == U32_MAX then U32_MAX else failures + 1)
      && (a.reply.Some? || b.reply.Some? ==> HealthOf(n, e.id).retryAfter == 0)
  {
    hide Pow2;
  }

  lemma {:induction false} TryAllTold(m: Manager, es: seq<Endpoint>, frame: Queued, leader: Id, now: U64, net: Network)
    requires Told(m)
    ensures Told(TryAll(m, es, frame, leader, now, net).0)
    decreases |es|
  {
    hide Told, Try;
    if es != [] {
      TryTold(m, es[0], frame, leader, now, net);
      TryAllTold(Try(m, es[0], frame, leader, now, net).0, es[1..], frame, leader, now, net);
    }
  }

  lemma ToldPop(m: Manager)
    requires Told(m) && m.outbox != []
    ensures Told(Pop(m))
  {
    forall id: Id
      ensures HealthTold(Pop(m), id)
    {
      assert HealthTold(m, id);
    }
  }

  lemma {:induction false} FlushTold(m: Manager, now: U64, net: Network)
    requires Told(m)
    ensures Told(Flush(m, now, net).0)
    decreases |m.outbox|
  {
    hide Told, TryAll, Order, Leader;
    if m.outbox != [] {
      TryAllTold(m, Order(m), m.outbox[0], Leader(Order(m)), now, net);
      var (m1, reply) := Offer(m, now, net);
      if reply.Some? {
        ToldPop(m1);
        FlushTold(Pop(m1), now, net);
      }
    }
  }

  lemma OthersTold(m: Manager, call: R.Call, net: Network)
    requires Told(m) && !call.FlushAt?
    ensures Told(R.Step(m, call, net))
  {
    hide Paired, FailuresSince, Flush;
    var n := R.Step(m, call, net);
    assert n.log == m.log;
    forall id: Id
      ensures HealthTold(n, id)
    {
      assert HealthTold(m, id);
      assert HealthOf(n, id).failures == HealthOf(m, id).failures;
    }
  }

  /** Over every run, over network changes and new directories too, channels fail over in pairs and an
      endpoint's failure count is the number of its failures since it last answered; one that answered
      last may be tried at once. */
  lemma {:induction false} RunTold(directory: RelayDirectory, key: VerifyingKey, calls: seq<R.Call>, net: Network)
    ensures Told(R.Run(New(directory, key), calls, net))
    decreases |calls|
  {
    hide Told, R.Step;
    if calls == [] {
      NewTold(directory, key);
    } else {
      var before := R.Run(New(directory, key), calls[..|calls| - 1], net);
      var call := calls[|calls| - 1];
      RunTold(directory, key, calls[..|calls| - 1], net);
      if call.FlushAt? {
        FlushTold(before, call.now, net);
        assert R.Step(before, call, net) == Flush(before, call.now, net).0 by { StepFlushes(before, call.now, net); }
      } else {
        OthersTold(before, call, net);
      }
    }
  }

  lemma NewTold(directory: RelayDirectory, key: VerifyingKey)
    ensures Told(New(directory, key))
  {
  }

  lemma StepFlushes(m: Manager, now: U64, net: Network)
    ensures R.Step(m, R.FlushAt(now), net) == Flush(m, now, net).0
  {
  }

  /** The wait after a failure: two seconds doubled with each failure since the endpoint last answered,
      up to 256, plus less than as much again taken from its id. */
  lemma BackoffLaw(m: Manager, e: Endpoint, frame: Queued, leader: Id, now: U64, net: Network)
    requires Told(m) && !Blocked(m, e.id, now) && Try(m, e, frame, leader, now, net).1.None?
    ensures var n := Try(m, e, frame, leader, now, net).0; var k := FailuresSince(n.log, e.id);
      && k == FailuresSince(m.log, e.id) + 1
      && var base := Pow2(if k < 8 then k else 8);
      && 2 <= base <= 256
      && var wait := base + e.id[0] % base;
      && e.id in n.health && n.health[e.id].retryAfter ==
        if now + wait < 0x1_0000_0000_0000_0000 then now + wait else 0xFFFF_FFFF_FFFF_FFFF
  {
    assert HealthTold(m, e.id);
    var a, b := Attempt(e, Websocket, frame, leader, None), Attempt(e, Https, frame, leader, None);
    FailuresAppend(m.log, a, e.id);
    FailuresAppend(m.log + [a], b, e.id);
    TryFailed(m, e, frame, leader, now, net);
    FailureWaits(HealthOf(m, e.id), e, now, FailuresSince(m.log, e.id));
    hide Told, Try, FailuresSince, AfterFailure, Pow2;
  }

  lemma FailureWaits(h: Health, e: Endpoint, now: U64, before: nat)
    requires h.failures == Capped(before)
    ensures var k := before + 1; var base := Pow2(if k < 8 then k else 8);
      && 2 <= base <= 256
      && var wait := base + e.id[0] % base;
      AfterFailure(h, e, now).retryAfter ==
        if now + wait < 0x1_0000_0000_0000_0000 then now + wait else 0xFFFF_FFFF_FFFF_FFFF
  {
    BackoffRange(before + 1);
    hide Pow2;
  }

  lemma TryFailed(m: Manager, e: Endpoint, frame: Queued, leader: Id, now: U64, net: Network)
    requires !Blocked(m, e.id, now) && Try(m, e, frame, leader, now, net).1.None?
    ensures var n := Try(m, e, frame, leader, now, net).0;
      && n.log == m.log + [Attempt(e, Websocket, frame, leader, None)] + [Attempt(e, Https, frame, leader, None)]
      && e.id in n.health && n.health[e.id] == AfterFailure(HealthOf(m, e.id), e, now)
  {
    hide AfterFailure;
  }

  /* ---------- The directory in use ---------- */

  /** A manager is created exactly for a directory that is current and signed under its key. */
  lemma CreatedIff(directory: RelayDirectory, key: VerifyingKey, now: U64)
    ensures var r := R.Create(directory, key, now);
      && (r.Ok? <==> Current(directory, now) && SignedUnder(directory, key))
      && (r.Ok? ==> r.value.directory == directory && r.value.key == key && r.value.outbox == [] && r.value.log == [])
  {
    VerifyMeans(directory, key, now, 0);
    hide Verify, Current, SignedUnder;
  }

  /** A new directory is taken exactly when it is current, signed under the manager's key and no older than
      the one in use: one of the same version replaces it, too. Otherwise the one in use stays. */
  lemma UpdateAcceptedIff(m: Manager, next: RelayDirectory, now: U64)
    ensures var (n, r) := R.UpdateDirectory(m, next, now);
      && (r.Ok? <==> next.version >= m.directory.version && Current(next, now) && SignedUnder(next, m.key))
      && n == (if r.Ok? then m.(directory := next) else m)
      && (next.version < m.directory.version ==> r == Err(DirectoryRollback))
  {
    VerifyMeans(next, m.key, now, m.directory.version);
    hide Verify, Current, SignedUnder;
  }

  /** A directory whose signature the key rejects changes nothing, and if nothing else is wrong with it the
      signature is what is reported. */
  lemma ForgedIsRefused(m: Manager, next: RelayDirectory, now: U64)
    requires m.key.Key? && !m.key.accepts(DirectoryBytes(Canonical(next), []), next.signature)
    ensures R.UpdateDirectory(m, next, now).0 == m && R.UpdateDirectory(m, next, now).1.Err?
    ensures next.version >= m.directory.version && Current(next, now) && Encodable(next) ==>
      R.UpdateDirectory(m, next, now).1 == Err(InvalidDirectorySignature)
  {
    VerifyMeans(next, m.key, now, m.directory.version);
    hide Verify, Current, DirectoryBytes, Canonical;
  }

  /** Call `i` installed this directory: it was current at the time of the call, signed under the manager's
      key and no older than the one in use until then. */
  ghost predicate Installed(m: Manager, calls: seq<R.Call>, i: nat, net: Network, d: RelayDirectory) {
    && i < |calls| && calls[i].NewDirectory? && calls[i].next == d
    && Current(d, calls[i].now) && SignedUnder(d, m.key)
    && d.version >= R.Run(m, calls[..i], net).directory.version
  }

  lemma KeyKept(m: Manager, call: R.Call, net: Network)
    ensures R.Step(m, call, net).key == m.key
    ensures R.Step(m, call, net).directory != m.directory ==>
      && call.NewDirectory? && R.Step(m, call, net).directory == call.next
      && call.next.version >= m.directory.version && Current(call.next, call.now) && SignedUnder(call.next, m.key)
  {
    hide Flush, Verify, Current, SignedUnder;
    if call.FlushAt? {
      FlushHistory(m, call.now, net);
      StepFlushes(m, call.now, net);
    } else if call.NewDirectory? {
      UpdateAcceptedIff(m, call.next, call.now);
    }
  }

  /** Whatever was done since its creation, a manager uses a directory that its key had signed and that was
      current when it came into use. */
  lemma DirectoryWasVerified(directory: RelayDirectory, key: VerifyingKey, now: U64, calls: seq<R.Call>, net: Network)
    requires R.Create(directory, key, now).Ok?
    ensures var m := R.Create(directory, key, now).value; var d := R.Run(m, calls, net).directory;
      && SignedUnder(d, key)
      && ((d == directory && Current(d, now)) || exists i: nat :: Installed(m, calls, i, net, d))
  {
    hide R.Run, Current, SignedUnder;
    CreatedIff(directory, key, now);
    DirectoryIsVerified(R.Create(directory, key, now).value, calls, net);
  }

  lemma {:induction false} DirectoryIsVerified(m: Manager, calls: seq<R.Call>, net: Network)
    ensures R.Run(m, calls, net).key == m.key
    ensures var d := R.Run(m, calls, net).directory;
      d == m.directory || exists i: nat :: Installed(m, calls, i, net, d)
    decreases |calls|
  {
    hide R.Step, Current, SignedUnder;
    if calls != [] {
      var n := |calls| - 1;
      DirectoryIsVerified(m, calls[..n], net);
      var before := R.Run(m, calls[..n], net);
      KeyKept(before, calls[n], net);
      var d := R.Run(m, calls, net).directory;
      if d != before.directory {
        assert Installed(m, calls, n, net, d);
      } else if i: nat :| Installed(m, calls[..n], i, net, d) {
        assert calls[..n][..i] == calls[..i];
        assert Installed(m, calls, i, net, d);
      }
    }
  }

  lemma VersionClimbs(m: Manager, call: R.Call, net: Network)
    ensures R.Step(m, call, net).directory.version >= m.directory.version
    ensures call.NewDirectory? && Current(call.next, call.now) && SignedUnder(call.next, m.key) ==>
      R.Step(m, call, net).directory.version >= call.next.version
  {
    hide Flush, Verify, Current, SignedUnder;
    if call.FlushAt? {
      FlushHistory(m, call.now, net);
      StepFlushes(m, call.now, net);
    } else if call.NewDirectory? {
      UpdateAcceptedIff(m, call.next, call.now);
    }
  }

  /** No rollback: whatever was offered while it was current, and was signed under the key, the directory in
      use is of no older version, over every run. */
  lemma {:induction false} NoRollback(m: Manager, calls: seq<R.Call>, i: nat, net: Network)
    requires i < |calls| && calls[i].NewDirectory?
    ensures Current(calls[i].next, calls[i].now) && SignedUnder(calls[i].next, m.key) ==>
      R.Run(m, calls, net).directory.version >= calls[i].next.version
    decreases |calls|
  {
    hide R.Step, Current, SignedUnder;
    var n := |calls| - 1;
    var before := R.Run(m, calls[..n], net);
    DirectoryIsVerified(m, calls[..n], net);
    VersionClimbs(before, calls[n], net);
    if i < n {
      NoRollback(m, calls[..n], i, net);
    }
  }
}
