/** The fixed-window limiter, and the sliding-window limit it amounts to. */
module RateLimit {
  import opened Results
  import opened Bytes
  import opened Api

  const I32_MAX := 0x7FFF_FFFF

  /** The database's clock, in microseconds; windows are given in seconds. */
  type Micros = nat

  const SECOND := 1_000_000

  datatype Counter = Counter(start: Micros, count: nat)

  type Counters = map<Blob, Counter>

  function Row(t: Counters, scope: Blob): Option<Counter> {
    if scope in t then Some(t[scope]) else None
  }

  /** The row after a call: a new window once the old one is over, else one more. */
  function Bump(row: Option<Counter>, window: nat, now: Micros): Counter {
    if row.None? || row.value.start + window <= now then Counter(now, 1)
      else Counter(row.value.start, row.value.count + 1)
  }

  /** Refused calls are counted too; a count beyond 32 bits fails in the database and changes nothing. */
  function CheckRateLimit(t: Counters, scope: Blob, maximum: int, window: int, now: Micros)
    : (Counters, Result<(), ApiError>)
  {
    if scope == [] || |scope| > 96 || maximum < 1 || window < 1 then (t, Err(InvalidInput)) else
    var row := Bump(Row(t, scope), window * SECOND, now);
    if row.count > I32_MAX then (t, Err(Database))
    else (t[scope := row], if row.count > maximum then Err(Unauthorized) else Ok(()))
  }

  datatype Call = Call(scope: Blob, maximum: int, window: int, now: Micros)

  function Run(t: Counters, calls: seq<Call>): Counters
    decreases |calls|
  {
    if calls == [] then t else
    var c := calls[|calls| - 1];
    CheckRateLimit(Run(t, calls[..|calls| - 1]), c.scope, c.maximum, c.window, c.now).0
  }

  function Accepts(t: Counters, c: Call): bool {
    CheckRateLimit(t, c.scope, c.maximum, c.window, c.now).1.Ok?
  }

  /** When the calls on a scope were accepted. */
  function AcceptedTimes(t: Counters, calls: seq<Call>, scope: Blob): seq<Micros>
    decreases |calls|
  {
    if calls == [] then [] else
    var n := |calls| - 1;
    var before := AcceptedTimes(t, calls[..n], scope);
    if calls[n].scope == scope && Accepts(Run(t, calls[..n]), calls[n]) then before + [calls[n].now] else before
  }

  /** How many of the times lie in the half-open interval of the given length from `x`. */
  function Within(times: seq<Micros>, x: int, length: nat): nat {
    if times == [] then 0 else
    var t := times[|times| - 1];
    Within(times[..|times| - 1], x, length) + if x <= t < x + length then 1 else 0
  }

  function From(times: seq<Micros>, x: int): nat {
    if times == [] then 0 else From(times[..|times| - 1], x) + if x <= times[|times| - 1] then 1 else 0
  }

  lemma {:induction false} WithinFrom(times: seq<Micros>, x: int, length: nat)
    ensures Within(times, x, length) + From(times, x + length) == From(times, x)
  {
    if times != [] {
      WithinFrom(times[..|times| - 1], x, length);
    }
  }

  lemma FromAppend(times: seq<Micros>, t: Micros)
    ensures forall x :: From(times + [t], x) == From(times, x) + if x <= t then 1 else 0
  {
    assert (times + [t])[..|times|] == times;
  }

  lemma {:induction false} FromAntitone(times: seq<Micros>, x: int, y: int)
    requires x <= y
    ensures From(times, y) <= From(times, x)
    ensures (exists t :: t in times && x <= t < y) ==> From(times, y) < From(times, x)
    ensures (forall i :: 0 <= i < |times| ==> times[i] < y) ==> From(times, y) == 0
  {
    if times != [] {
      var n := |times| - 1;
      assert times == times[..n] + [times[n]];
      FromAntitone(times[..n], x, y);
    }
  }

  /* ---------- The sliding window ---------- */

  ghost predicate Monotone(calls: seq<Call>) {
    forall i, j :: 0 <= i < j < |calls| ==> calls[i].now <= calls[j].now
  }

  ghost predicate FixedFor(calls: seq<Call>, scope: Blob, maximum: int, window: int) {
    forall i :: 0 <= i < |calls| && calls[i].scope == scope ==> calls[i].maximum == maximum && calls[i].window == window
  }

  /** What the counter of a scope says about its accepted calls: the window was opened by one of them
      and holds at most the maximum, fewer reach back less than a window before it, and so any interval
      of a window's length holds less than twice the maximum. */
  ghost predicate Limits(row: Option<Counter>, times: seq<Micros>, maximum: int, window: nat, now: Micros) {
    && (forall t :: t in times ==> t <= now)
    && (row.None? ==> times == [])
    && (row.Some? ==> var start, count := row.value.start, row.value.count;
        && count >= 1 && start in times && start <= now
        && (forall t :: t in times ==> t < start + window)
        && From(times, start) <= maximum && From(times, start) <= count
        && (forall y: int :: y > start - window ==> From(times, y) - From(times, start) <= maximum - 1))
    && (forall x: int :: From(times, x) - From(times, x + window) <= 2 * maximum - 1)
  }

  lemma BumpKeepsLimits(row: Option<Counter>, times: seq<Micros>, maximum: int, window: nat, before: Micros,
    now: Micros)
    requires Limits(row, times, maximum, window, before) && before <= now && maximum >= 1 && window >= 1
    ensures var next := Bump(row, window, now);
      Limits(Some(next), if next.count > maximum then times else times + [now], maximum, window, now)
  {
    var next := Bump(row, window, now);
    var later := times + [now];
    FromAppend(times, now);
    if next.count == 1 {
      NewWindow(row, times, maximum, window, before, now);
    } else if next.count <= maximum {
      SameWindow(row.value, times, maximum, window, before, now);
    }
  }

  lemma NewWindow(row: Option<Counter>, times: seq<Micros>, maximum: int, window: nat, before: Micros, now: Micros)
    requires Limits(row, times, maximum, window, before) && before <= now && maximum >= 1 && window >= 1
    requires row.None? || row.value.start + window <= now
    ensures Limits(Some(Counter(now, 1)), times + [now], maximum, window, now)
  {
    var later := times + [now];
    FromAppend(times, now);
    FromAntitone(times, now, now);
    forall y: int | y > now - window
      ensures From(times, y) <= maximum - 1
    {
      if row.Some? {
        assert row.value.start in times && row.value.start < y;
        FromAntitone(times, row.value.start, y);
      }
    }
    assert From(times, now) == 0 by {
      assert forall i :: 0 <= i < |times| ==> times[i] in times;
    }
    forall x: int
      ensures From(later, x) - From(later, x + window) <= 2 * maximum - 1
    {
      if x <= now < x + window {
        assert From(times, x) <= maximum - 1;
      }
    }
  }

  lemma SameWindow(row: Counter, times: seq<Micros>, maximum: int, window: nat, before: Micros, now: Micros)
    requires Limits(Some(row), times, maximum, window, before) && before <= now && maximum >= 1 && window >= 1
    requires now < row.start + window && row.count + 1 <= maximum
    ensures Limits(Some(Counter(row.start, row.count + 1)), times + [now], maximum, window, now)
  {
    var later := times + [now];
    FromAppend(times, now);
    forall y: int | y > row.start - window
      ensures From(later, y) - From(later, row.start) <= maximum - 1
    {
      assert From(times, y) - From(times, row.start) <= maximum - 1;
      if y > now { FromAntitone(times, row.start, y); }
    }
    forall x: int
      ensures From(later, x) - From(later, x + window) <= 2 * maximum - 1
    {
      if x <= now < x + window {
        assert From(later, x) - From(later, row.start) <= maximum - 1;
      }
    }
  }

  lemma {:induction false} RunLimits(calls: seq<Call>, scope: Blob, maximum: int, window: nat, now: Micros)
    requires Monotone(calls) && FixedFor(calls, scope, maximum, window) && maximum >= 1 && window >= 1
    requires forall i :: 0 <= i < |calls| ==> calls[i].now <= now
    ensures Limits(Row(Run(map[], calls), scope), AcceptedTimes(map[], calls, scope), maximum, window * SECOND, now)
    decreases |calls|
  {
    if calls != [] {
      var n := |calls| - 1;
      var c := calls[n];
      RunLimits(calls[..n], scope, maximum, window, c.now);
      hide Limits, Bump;
      var t := Run(map[], calls[..n]);
      var times := AcceptedTimes(map[], calls[..n], scope);
      if c.scope == scope && CheckRateLimit(t, scope, maximum, window, c.now).0 != t {
        BumpKeepsLimits(Row(t, scope), times, maximum, window * SECOND, c.now, c.now);
      } else {
        CountedOrNot(t, c, scope, maximum, window);
      }
      LimitsLater(Row(Run(map[], calls), scope), AcceptedTimes(map[], calls, scope), maximum, window * SECOND, c.now,
        now);
    }
  }

  lemma CountedOrNot(t: Counters, c: Call, scope: Blob, maximum: int, window: nat)
    requires c.scope != scope || CheckRateLimit(t, c.scope, c.maximum, c.window, c.now).0 == t
    ensures Row(CheckRateLimit(t, c.scope, c.maximum, c.window, c.now).0, scope) == Row(t, scope)
    ensures c.scope == scope ==> !Accepts(t, c)
  {
  }

  lemma LimitsLater(row: Option<Counter>, times: seq<Micros>, maximum: int, window: nat, now: Micros, later: Micros)
    requires Limits(row, times, maximum, window, now) && now <= later
    ensures Limits(row, times, maximum, window, later)
  {
  }

  /** With a fixed maximum M and window W for a scope, every half-open interval of length W holds at
      most 2M - 1 accepted calls, over any monotone run of calls on any scopes. */
  lemma SlidingWindow(calls: seq<Call>, scope: Blob, maximum: int, window: nat, x: int)
    requires Monotone(calls) && FixedFor(calls, scope, maximum, window) && maximum >= 1 && window >= 1
    ensures Within(AcceptedTimes(map[], calls, scope), x, window * SECOND) <= 2 * maximum - 1
  {
    var times := AcceptedTimes(map[], calls, scope);
    RunLimits(calls, scope, maximum, window, if calls == [] then 0 else calls[|calls| - 1].now);
    WithinFrom(times, x, window * SECOND);
    assert From(times, x) - From(times, x + window * SECOND) <= 2 * maximum - 1;
  }

  /* ---------- Exactly which calls are accepted ---------- */

  /** When a scope was called, accepted or not. */
  function CallTimes(calls: seq<Call>, scope: Blob): seq<Micros> {
    if calls == [] then [] else
    var n := |calls| - 1;
    if calls[n].scope == scope then CallTimes(calls[..n], scope) + [calls[n].now] else CallTimes(calls[..n], scope)
  }

  /** The opening of the current window: the first time, and then each time that is a window's length or more
      past the opening before it. */
  function Opening(times: seq<Micros>, length: nat): Option<Micros> {
    if times == [] then None else
    var now := times[|times| - 1];
    match Opening(times[..|times| - 1], length)
    case Some(start) => Some(if start + length <= now then now else start)
    case None => Some(now)
  }

  /** The counter row of a scope that was called at these times: refused calls are counted too, as far as 32
      bits reach. */
  ghost predicate Counts(row: Option<Counter>, times: seq<Micros>, length: nat) {
    match Opening(times, length)
    case None => row.None?
    case Some(start) =>
      && (forall t :: t in times ==> t < start + length)
      && start in times
      && row == Some(Counter(start, if From(times, start) < 0x7FFF_FFFF then From(times, start) else 0x7FFF_FFFF))
  }

  /** One more call: the row moves on, unless its count would leave 32 bits. */
  lemma BumpCounts(row: Option<Counter>, times: seq<Micros>, length: nat, now: Micros)
    requires length >= 1 && Counts(row, times, length) && forall t :: t in times ==> t <= now
    ensures var next := Bump(row, length, now);
      && (next.count > 0x7FFF_FFFF ==> row.Some?)
      && Counts(Some(if next.count > 0x7FFF_FFFF then row.value else next), times + [now], length)
  {
    var later := times + [now];
    assert later[..|later| - 1] == times;
    FromAppend(times, now);
    if Opening(times, length).Some? && now < Opening(times, length).value + length {
      hide From;
    } else {
      NoneFrom(times, now);
      hide From;
    }
  }

  lemma NoneFrom(times: seq<Micros>, now: Micros)
    ensures (forall t :: t in times ==> t < now) ==> From(times, now) == 0
  {
    FromAntitone(times, now, now);
    assert forall i :: 0 <= i < |times| ==> times[i] in times;
  }

  lemma CallCounts(t: Counters, times: seq<Micros>, c: Call)
    requires 0 < |c.scope| <= 96 && c.maximum >= 1 && c.window >= 1 && forall x :: x in times ==> x <= c.now
    requires Counts(Row(t, c.scope), times, c.window * SECOND)
    ensures Counts(Row(CheckRateLimit(t, c.scope, c.maximum, c.window, c.now).0, c.scope), times + [c.now],
      c.window * SECOND)
  {
    BumpCounts(Row(t, c.scope), times, c.window * SECOND, c.now);
    hide Counts, Bump;
  }

  lemma {:induction false} RunCounts(calls: seq<Call>, scope: Blob, maximum: int, window: nat)
    requires Monotone(calls) && FixedFor(calls, scope, maximum, window)
    requires 0 < |scope| <= 96 && maximum >= 1 && window >= 1
    ensures Counts(Row(Run(map[], calls), scope), CallTimes(calls, scope), window * SECOND)
    ensures forall t :: t in CallTimes(calls, scope) ==> calls != [] && t <= calls[|calls| - 1].now
  {
    if calls != [] {
      var n := |calls| - 1;
      RunCounts(calls[..n], scope, maximum, window);
      hide Counts;
      if calls[n].scope == scope {
        CallCounts(Run(map[], calls[..n]), CallTimes(calls[..n], scope), calls[n]);
      }
      hide CheckRateLimit;
    }
  }

  /** A call is accepted exactly when its scope has no open window, or fewer calls than the maximum, accepted
      or refused, were made on it since the window opened. */
  lemma AcceptedIff(calls: seq<Call>, scope: Blob, maximum: int, window: nat, now: Micros)
    requires Monotone(calls) && FixedFor(calls, scope, maximum, window)
    requires 0 < |scope| <= 96 && 1 <= maximum <= 0x7FFF_FFFF && window >= 1
    ensures var opening := Opening(CallTimes(calls, scope), window * 1_000_000);
      CheckRateLimit(Run(map[], calls), scope, maximum, window, now).1 ==
      if opening.None? || opening.value + window * 1_000_000 <= now
        || From(CallTimes(calls, scope), opening.value) < maximum
      then Ok(()) else if From(CallTimes(calls, scope), opening.value) < 0x7FFF_FFFF then Err(Unauthorized)
      else Err(Database)
  {
    RunCounts(calls, scope, maximum, window);
    hide Run, Monotone, FixedFor, CallTimes, Opening, From;
  }

  /** Other calls are refused and count nothing. */
  lemma RefusedAsInvalid(t: Counters, scope: Blob, maximum: int, window: int, now: Micros)
    ensures scope == [] || |scope| > 96 || maximum < 1 || window < 1 <==>
      CheckRateLimit(t, scope, maximum, window, now) == (t, Err(InvalidInput))
  {
  }

  /* ---------- The bound is attained ---------- */

  function Repeat(n: nat, c: Call): (r: seq<Call>)
    ensures |r| == n && forall i :: 0 <= i < n ==> r[i] == c
  {
    seq(n, i => c)
  }

  lemma {:induction false} RunConcat(t: Counters, calls: seq<Call>, more: seq<Call>, scope: Blob)
    ensures Run(t, calls + more) == Run(Run(t, calls), more)
    ensures AcceptedTimes(t, calls + more, scope) == AcceptedTimes(t, calls, scope) +
      AcceptedTimes(Run(t, calls), more, scope)
    decreases |more|
  {
    hide CheckRateLimit, Accepts;
    if more == [] {
      assert calls + more == calls;
      assert AcceptedTimes(t, calls, scope) + [] == AcceptedTimes(t, calls, scope);
    } else {
      var n := |more| - 1;
      var all := calls + more;
      assert all[..|all| - 1] == calls + more[..n] && all[|all| - 1] == more[n];
      RunConcat(t, calls, more[..n], scope);
    }
  }

  /** Repeated calls within an open window are accepted until the maximum is reached. */
  lemma {:induction false} RepeatAccepted(t: Counters, n: nat, c: Call)
    requires 0 < |c.scope| <= 96 && c.window >= 1 && 1 <= c.maximum <= I32_MAX
    requires Row(t, c.scope).Some? && t[c.scope].start <= c.now < t[c.scope].start + c.window * SECOND
    requires t[c.scope].count + n <= c.maximum
    ensures Row(Run(t, Repeat(n, c)), c.scope) == Some(Counter(t[c.scope].start, t[c.scope].count + n))
    ensures |AcceptedTimes(t, Repeat(n, c), c.scope)| == n
    ensures forall i :: 0 <= i < n ==> AcceptedTimes(t, Repeat(n, c), c.scope)[i] == c.now
  {
    if n > 0 {
      assert Repeat(n, c)[..n - 1] == Repeat(n - 1, c);
      RepeatAccepted(t, n - 1, c);
    }
  }

  lemma {:induction false} WithinAll(times: seq<Micros>, x: int, length: nat)
    requires forall i :: 0 <= i < |times| ==> x <= times[i] < x + length
    ensures Within(times, x, length) == |times|
  {
    if times != [] {
      var n := |times| - 1;
      WithinAll(times[..n], x, length);
    }
  }

  lemma {:induction false} WithinConcat(a: seq<Micros>, b: seq<Micros>, x: int, length: nat)
    ensures Within(a + b, x, length) == Within(a, x, length) + Within(b, x, length)
    decreases |b|
  {
    if b == [] {
      assert a + b == a;
    } else {
      var n := |b| - 1;
      WithinConcat(a, b[..n], x, length);
      assert (a + b)[..|a + b| - 1] == a + b[..n];
    }
  }

  /** A window's worth of calls: one at its start, the others later. */
  function Burst(scope: Blob, maximum: int, window: nat, open: Micros, later: Micros): seq<Call>
    requires maximum >= 1
  {
    [Call(scope, maximum, window, open)] + Repeat(maximum - 1, Call(scope, maximum, window, later))
  }

  /** A window opened by one call and then filled at a later moment within it. */
  lemma FilledWindow(t: Counters, scope: Blob, maximum: int, window: nat, open: Micros, later: Micros)
    requires 0 < |scope| <= 96 && 1 <= maximum <= I32_MAX && open <= later < open + window * SECOND
    requires Row(t, scope).None? || t[scope].start + window * SECOND <= open
    ensures
      var calls := Burst(scope, maximum, window, open, later);
      var times := AcceptedTimes(t, calls, scope);
      && |times| == maximum && times[0] == open && (forall i :: 1 <= i < maximum ==> times[i] == later)
      && Row(Run(t, calls), scope) == Some(Counter(open, maximum))
  {
    hide AcceptedTimes, Run, Repeat;
    var first, rest := Call(scope, maximum, window, open), Call(scope, maximum, window, later);
    OneCall(t, first);
    RepeatAccepted(Run(t, [first]), maximum - 1, rest);
    RunConcat(t, [first], Repeat(maximum - 1, rest), scope);
    var filling := AcceptedTimes(Run(t, [first]), Repeat(maximum - 1, rest), scope);
    assert AcceptedTimes(t, Burst(scope, maximum, window, open, later), scope) == [open] + filling;
  }

  /** A window filled at its end, and the next one filled at once. */
  function TwoBursts(scope: Blob, maximum: int, window: nat): seq<Call>
    requires maximum >= 1 && window >= 1
  {
    var end := window * SECOND;
    Burst(scope, maximum, window, 0, end - 1) + Burst(scope, maximum, window, end, end)
  }

  lemma BurstsMonotone(scope: Blob, maximum: int, window: nat)
    requires maximum >= 1 && window >= 1
    ensures var calls := TwoBursts(scope, maximum, window); Monotone(calls) && FixedFor(calls, scope, maximum, window)
  {
  }

  /** No smaller bound holds: one call opens a window, the others of the maximum come at its end, and
      the next window is filled at once. */
  lemma BoundAttained(scope: Blob, maximum: int, window: nat)
    requires 0 < |scope| <= 96 && 1 <= maximum <= I32_MAX && window >= 1
    ensures var calls := TwoBursts(scope, maximum, window); var length := window * SECOND;
      && Monotone(calls) && FixedFor(calls, scope, maximum, window)
      && Within(AcceptedTimes(map[], calls, scope), length - 1, length) == 2 * maximum - 1
  {
    hide Burst, AcceptedTimes, Run, Monotone, FixedFor, Within;
    var end := window * SECOND;
    var first, second := Burst(scope, maximum, window, 0, end - 1), Burst(scope, maximum, window, end, end);
    BurstsMonotone(scope, maximum, window);
    FilledWindow(map[], scope, maximum, window, 0, end - 1);
    FilledWindow(Run(map[], first), scope, maximum, window, end, end);
    RunConcat(map[], first, second, scope);
    SumOfBound(AcceptedTimes(map[], first, scope), AcceptedTimes(Run(map[], first), second, scope), maximum, end);
  }

  /** No interval of a window's length, anywhere in any run, holds more accepted calls than the maximum. */
  ghost predicate LimitHolds(scope: Blob, maximum: int, window: nat) {
    forall calls: seq<Call>, x: int :: Monotone(calls) && FixedFor(calls, scope, maximum, window) ==>
      Within(AcceptedTimes(map[], calls, scope), x, window * SECOND) <= maximum
  }

  /** The maximum is the sliding-window limit exactly when it is one. */
  lemma LimitHoldsIff(scope: Blob, maximum: int, window: nat)
    requires 0 < |scope| <= 96 && 1 <= maximum <= I32_MAX && window >= 1
    ensures LimitHolds(scope, maximum, window) <==> maximum == 1
  {
    hide Within, AcceptedTimes, Monotone, FixedFor, TwoBursts;
    BoundAttained(scope, maximum, window);
    if maximum == 1 {
      forall calls: seq<Call>, x: int | Monotone(calls) && FixedFor(calls, scope, maximum, window)
        ensures Within(AcceptedTimes(map[], calls, scope), x, window * SECOND) <= maximum
      {
        SlidingWindow(calls, scope, maximum, window, x);
      }
    }
  }

  lemma SumOfBound(a: seq<Micros>, b: seq<Micros>, maximum: nat, window: nat)
    requires window >= 2 && maximum >= 1 && |a| == |b| == maximum && a[0] == 0
    requires forall i :: 0 <= i < maximum ==> (i > 0 ==> a[i] == window - 1) && b[i] == window
    ensures Within(a + b, window - 1, window) == 2 * maximum - 1
  {
    assert a == [0] + a[1..];
    WithinConcat([0], a[1..], window - 1, window);
    WithinConcat(a, b, window - 1, window);
    WithinAll(a[1..], window - 1, window);
    WithinAll(b, window - 1, window);
    WithinNone(window);
  }

  lemma WithinNone(window: nat)
    requires window >= 2
    ensures Within([0], window - 1, window) == 0
  {
    assert [0][..0] == [];
  }

  lemma OneCall(t: Counters, c: Call)
    requires 0 < |c.scope| <= 96 && c.window >= 1 && 1 <= c.maximum <= I32_MAX
    requires Row(t, c.scope).None? || t[c.scope].start + c.window * SECOND <= c.now
    ensures AcceptedTimes(t, [c], c.scope) == [c.now] && Row(Run(t, [c]), c.scope) == Some(Counter(c.now, 1))
  {
    assert [c][..0] == [];
    assert Run(t, []) == t;
  }
}
