/** A device that follows a group: it asks for the page after the last cursor it saw, while anything
    else happens at the service. */
module Paging {
  import opened Results
  import opened Bytes
  import opened Sequences
  import opened Api
  import opened Delivery
  import opened DeliveryLaws

  /* ---------- Pages of a log ---------- */

  /** The rows that a reader at `after` may still see at `now`, by cursor. */
  function Remaining(events: seq<EventRow>, group: Id, after: int, now: Time): seq<EventRow> {
    Collect(events, Visible(group, after, now))
  }

  predicate Shows(e: EventRow, group: Id, after: int, now: Time) {
    e.group == group && e.cursor > after && e.expiresAt > now
  }

  lemma RemainingMembers(t: Tables, group: Id, after: int, now: Time)
    requires EventsSound(t)
    ensures CursorOrder(Remaining(t.events, group, after, now))
    ensures forall e :: e in Remaining(t.events, group, after, now) <==> e in t.events && Shows(e, group, after, now)
  {
    CollectMembers(t.events, Visible(group, after, now));
    CollectKeepsSound(t, Visible(group, after, now));
    hide Collect;
    forall e | e in t.events
      ensures e.cursor >= 1
    {
      var i :| 0 <= i < |t.events| && t.events[i] == e;
      assert EventSound(t.operations, t.nextCursor, t.events[i]);
    }
  }

  lemma LaterRows(rows: seq<EventRow>, n: nat)
    requires CursorOrder(rows) && 0 < n <= |rows|
    ensures CursorOrder(rows[n..])
    ensures forall e :: e in rows[n..] <==> e in rows && e.cursor > rows[n - 1].cursor
    ensures forall e :: e in rows[..n] <==> e in rows && e.cursor <= rows[n - 1].cursor
  {
    forall e | e in rows
      ensures e.cursor > rows[n - 1].cursor ==> e in rows[n..]
      ensures e.cursor <= rows[n - 1].cursor ==> e in rows[..n]
    {
      var i :| 0 <= i < |rows| && rows[i] == e;
      if i < n { assert rows[..n][i] == e; } else { assert rows[n..][i - n] == e; }
    }
  }

  /** What remains after a page is what remained before it, without the page. */
  lemma PageAdvances(t: Tables, group: Id, after: int, limit: int, now: Time)
    requires EventsSound(t)
    ensures var page := Page(t.events, group, after, limit, now); var left := Remaining(t.events, group, after, now);
      && |page| <= |left| && page == left[..|page|]
      && (limit < 1 ==> |page| == if |left| < 1 then |left| else 1)
      && (1 <= limit <= 50 ==> |page| == if |left| < limit then |left| else limit)
      && (50 < limit ==> |page| == if |left| < 50 then |left| else 50)
      && (page != [] ==> Remaining(t.events, group, page[|page| - 1].cursor, now) == left[|page|..])
  {
    var page := Page(t.events, group, after, limit, now);
    var left := Remaining(t.events, group, after, now);
    if page != [] {
      var c := page[|page| - 1].cursor;
      RemainingMembers(t, group, after, now);
      RemainingMembers(t, group, c, now);
      hide Remaining, EventsSound, Page;
      LaterRows(left, |page|);
      IncreasingUnique(Remaining(t.events, group, c, now), left[|page|..], (e: EventRow) => e.cursor as int);
    }
  }

  /** A page holds exactly the rows that a reader at `after` may see up to its last cursor. */
  lemma PageCovers(t: Tables, group: Id, after: int, limit: int, now: Time)
    requires EventsSound(t)
    ensures var page := Page(t.events, group, after, limit, now);
      && CursorOrder(page)
      && (page == [] ==> forall e :: e in t.events ==> !Shows(e, group, after, now))
      && (page != [] ==> forall e :: e in page <==>
        e in t.events && Shows(e, group, after, now) && e.cursor <= page[|page| - 1].cursor)
      && (page != [] ==> after < page[|page| - 1].cursor < t.nextCursor)
  {
    var page := Page(t.events, group, after, limit, now);
    var left := Remaining(t.events, group, after, now);
    PageAdvances(t, group, after, limit, now);
    RemainingMembers(t, group, after, now);
    CursorsInUse(t);
    hide EventsSound, Remaining, Page;
    if page == [] {
      assert left == [];
    } else {
      LaterRows(left, |page|);
      assert page[|page| - 1] in page;
    }
  }

  /** The whole loop over an unchanging log: page after page until an empty one. */
  function FollowAll(t: Tables, group: Id, after: int, limit: int, now: Time): seq<seq<EventRow>>
    requires EventsSound(t)
    decreases |Remaining(t.events, group, after, now)|
  {
    var page := Page(t.events, group, after, limit, now);
    PageAdvances(t, group, after, limit, now);
    if page == [] then [] else [page] + FollowAll(t, group, page[|page| - 1].cursor, limit, now)
  }

  function PagesFor(n: nat, size: nat): nat
    requires size > 0
  {
    if n == 0 then 0 else if n <= size then 1 else 1 + PagesFor(n - size, size)
  }

  lemma FollowAllUnfold(t: Tables, group: Id, after: int, limit: int, now: Time)
    requires EventsSound(t)
    ensures var pages := FollowAll(t, group, after, limit, now); var page := Page(t.events, group, after, limit, now);
      if page == [] then pages == [] && Remaining(t.events, group, after, now) == []
      else
        var c := page[|page| - 1].cursor;
        var left := Remaining(t.events, group, after, now);
        var rest := Remaining(t.events, group, c, now);
        var size := if limit < 1 then 1 else if limit > 50 then 50 else limit;
        && pages == [page] + FollowAll(t, group, c, limit, now) && left == page + rest
        && |page| == if |left| < size then |left| else size
  {
    PageAdvances(t, group, after, limit, now);
    hide Page, Remaining, EventsSound;
    var page := Page(t.events, group, after, limit, now);
    var left := Remaining(t.events, group, after, now);
    if page != [] {
      assert left == left[..|page|] + left[|page|..];
    }
  }

  /** Without new uploads the loop ends, for every limit, after as few pages as the clamped limit
      allows, and together they are all there was to see. */
  lemma {:induction false} FollowAllComplete(t: Tables, group: Id, after: int, limit: int, now: Time)
    requires EventsSound(t)
    ensures var pages := FollowAll(t, group, after, limit, now); var left := Remaining(t.events, group, after, now);
      Flatten(pages) == left && |pages| == PagesFor(|left|, if limit < 1 then 1 else if limit > 50 then 50 else limit)
    decreases |Remaining(t.events, group, after, now)|
  {
    FollowAllUnfold(t, group, after, limit, now);
    hide Page, Remaining, EventsSound, FollowAll;
    var page := Page(t.events, group, after, limit, now);
    if page != [] {
      var c := page[|page| - 1].cursor;
      FollowAllComplete(t, group, c, limit, now);
      FlattenCons(page, FollowAll(t, group, c, limit, now));
      hide Flatten;
    }
  }

  /* ---------- Following while the log changes ---------- */

  datatype Event = World(call: Call) | Fetch(limit: int, now: Time)

  datatype Follower = Follower(tables: Tables, clock: Time, last: int, seen: seq<EventRow>)

  /** The time an event happens at, if it looks at the clock. */
  function TimeOf(event: Event): Option<Time> {
    match event
    case Fetch(_, now) => Some(now)
    case World(Upload(_, now)) => Some(now)
    case World(Expire(_, _, now)) => Some(now)
    case World(_) => None
  }

  function Observe(f: Follower, page: seq<EventRow>): Follower {
    f.(seen := f.seen + page, last := if page == [] then f.last else page[|page| - 1].cursor)
  }

  function FollowStep(f: Follower, event: Event, device: Id, group: Id, check: SignatureCheck): Follower {
    var timed := match TimeOf(event) case Some(now) => f.(clock := now) case None => f;
    match event
    case World(call) => timed.(tables := Step(f.tables, call, check))
    case Fetch(limit, now) =>
      match SyncGroup(f.tables, device, group, f.last, limit, now)
      case Ok(page) => Observe(timed, page)
      case Err(_) => timed
  }

  function Follow(f: Follower, events: seq<Event>, device: Id, group: Id, check: SignatureCheck): Follower
    decreases |events|
  {
    if events == [] then f
    else FollowStep(Follow(f, events[..|events| - 1], device, group, check), events[|events| - 1], device, group, check)
  }

  /** The clock never goes back. */
  ghost predicate Monotone(events: seq<Event>, clock: Time) {
    && (forall i :: 0 <= i < |events| && TimeOf(events[i]).Some? ==> clock <= TimeOf(events[i]).value)
    && (forall i, j :: 0 <= i < j < |events| && TimeOf(events[i]).Some? && TimeOf(events[j]).Some? ==>
        TimeOf(events[i]).value <= TimeOf(events[j]).value)
  }

  /** Nothing between the start and the last cursor seen was missed while it was alive. */
  ghost predicate CaughtUp(f: Follower, group: Id, start: int) {
    && start <= f.last
    && (f.last == start || f.last < f.tables.nextCursor)
    && CursorOrder(f.seen)
    && (forall e :: e in f.seen ==> e.group == group && start < e.cursor <= f.last)
    && (forall e :: e in f.tables.events && Shows(e, group, start, f.clock) && e.cursor <= f.last ==> e in f.seen)
  }

  lemma ObserveCatchesUp(f: Follower, page: seq<EventRow>, now: Time, group: Id, start: int)
    requires CaughtUp(f, group, start) && f.clock <= now && CursorOrder(page)
    requires page != [] ==>
      var c := page[|page| - 1].cursor;
      f.last < c < f.tables.nextCursor && forall e :: e in page <==>
        e in f.tables.events && Shows(e, group, f.last, now) && e.cursor <= c
    ensures CaughtUp(Observe(f.(clock := now), page), group, start)
  {
    if page == [] {
      assert f.seen + page == f.seen;
    } else {
      var c := page[|page| - 1].cursor;
      forall e | e in f.tables.events && Shows(e, group, start, now) && e.cursor <= c
        ensures e in f.seen + page
      {
        assert e.cursor <= f.last ==> Shows(e, group, start, f.clock);
      }
      AppendOrder(f.seen, page, f.last);
    }
  }

  lemma FetchCatchesUp(f: Follower, limit: int, now: Time, device: Id, group: Id, start: int, check: SignatureCheck)
    requires EventsSound(f.tables) && CaughtUp(f, group, start) && f.clock <= now
    ensures CaughtUp(FollowStep(f, Fetch(limit, now), device, group, check), group, start)
  {
    PageCovers(f.tables, group, f.last, limit, now);
    ObserveCatchesUp(f, Page(f.tables.events, group, f.last, limit, now), now, group, start);
    ObserveCatchesUp(f, [], now, group, start);
    hide EventsSound, Page, Step, CaughtUp;
    assert Observe(f.(clock := now), []) == f.(clock := now) by { assert f.seen + [] == f.seen; }
  }

  lemma AppendOrder(a: seq<EventRow>, b: seq<EventRow>, last: int)
    requires CursorOrder(a) && CursorOrder(b)
    requires (forall e :: e in a ==> e.cursor <= last) && (forall e :: e in b ==> last < e.cursor)
    ensures CursorOrder(a + b)
  {
    forall i, j | 0 <= i < |a| && 0 <= j < |b|
      ensures a[i].cursor < b[j].cursor
    {
      assert a[i] in a && b[j] in b;
    }
  }

  lemma CursorsInUse(t: Tables)
    requires EventsSound(t)
    ensures forall e :: e in t.events ==> 1 <= e.cursor < t.nextCursor
  {
    forall e | e in t.events
      ensures 1 <= e.cursor < t.nextCursor
    {
      var i :| 0 <= i < |t.events| && t.events[i] == e;
      assert EventSound(t.operations, t.nextCursor, t.events[i]);
    }
  }

  lemma {:induction false} FollowCatchesUp(f: Follower, events: seq<Event>, device: Id, group: Id,
      check: SignatureCheck)
    requires Sound(f.tables, check) && f.seen == [] && Monotone(events, f.clock)
    ensures var g := Follow(f, events, device, group, check);
      && Sound(g.tables, check) && CaughtUp(g, group, f.last) && f.clock <= g.clock
      && (forall i :: 0 <= i < |events| && TimeOf(events[i]).Some? ==> TimeOf(events[i]).value <= g.clock)
      && (g.clock == f.clock || exists i :: 0 <= i < |events| && TimeOf(events[i]) == Some(g.clock))
    decreases |events|
  {
    hide Sound, Step, SyncGroup, EventsSound;
    if events != [] {
      var n := |events| - 1;
      FollowCatchesUp(f, events[..n], device, group, check);
      var g := Follow(f, events[..n], device, group, check);
      assert TimeOf(events[n]).Some? ==> g.clock <= TimeOf(events[n]).value;
      match events[n]
      case World(call) =>
        StepSound(g.tables, call, check);
      case Fetch(limit, now) =>
        assert EventsSound(g.tables) by { SoundParts(g.tables, check); }
        FetchCatchesUp(g, limit, now, device, group, f.last, check);
    }
  }

  lemma SoundParts(t: Tables, check: SignatureCheck)
    requires Sound(t, check)
    ensures EventsSound(t)
  {
  }

  /** Following a group over any run: cursors strictly increase, so no row is seen twice; and an empty
      page means that every event of the group past the starting cursor that is alive then was seen. */
  lemma CompletePaging(f: Follower, events: seq<Event>, limit: int, now: Time, device: Id, group: Id,
      check: SignatureCheck)
    requires Sound(f.tables, check) && f.seen == [] && Monotone(events + [Fetch(limit, now)], f.clock)
    ensures var g := Follow(f, events, device, group, check);
      && CursorOrder(g.seen)
      && (SyncGroup(g.tables, device, group, g.last, limit, now) == Ok([]) ==>
          forall e :: e in g.tables.events && Shows(e, group, f.last, now) ==> e in g.seen)
  {
    var all := events + [Fetch(limit, now)];
    assert forall i :: 0 <= i < |events| ==> events[i] == all[i];
    assert all[|events|] == Fetch(limit, now);
    assert Monotone(events, f.clock);
    FollowCatchesUp(f, events, device, group, check);
    var g := Follow(f, events, device, group, check);
    assert g.clock <= now;
    SoundParts(g.tables, check);
    PageCovers(g.tables, group, g.last, limit, now);
    hide Page, EventsSound, Sound, Follow, Monotone;
    if SyncGroup(g.tables, device, group, g.last, limit, now) == Ok([]) {
      forall e | e in g.tables.events && Shows(e, group, f.last, now)
        ensures e in g.seen
      {
        assert !Shows(e, group, g.last, now);
        assert Shows(e, group, f.last, g.clock);
      }
    }
  }
}
