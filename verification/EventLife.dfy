/** The life of an event at the service: what an accepted upload stores, and that every follower of its group
    is shown just that for a week, whatever else happens. */
module EventLife {
  import opened Results
  import opened Bytes
  import opened Sequences
  import opened Api
  import opened Delivery
  import opened DeliveryLaws
  import opened Paging

  /** The row of an upload made at `now`. */
  function Week(e: UploadedEvent, cursor: nat, now: Time): EventRow {
    EventRow(cursor, e.eventId, e.group, e.author, e.clientMessageId, e.kind, e.ciphertext, e.correlation, now + 604800)
  }

  predicate AcceptedAsNew(t: Tables, e: UploadedEvent, now: Time) {
    UploadEvent(t, e, now).1.Ok? && !UploadEvent(t, e, now).1.value.duplicate
  }

  /** A new upload adds its row at the end, under the next cursor, and nothing else. */
  lemma UploadAdds(t: Tables, e: UploadedEvent, now: Time)
    requires AcceptedAsNew(t, e, now)
    ensures var (u, r) := UploadEvent(t, e, now);
      r.value.cursor == t.nextCursor
      && u == t.(events := t.events + [Week(e, t.nextCursor, now)], nextCursor := t.nextCursor + 1)
  {
    hide FindEvent;
  }

  /** Retention may have taken the row: some cleanup named its cursor, once it had expired. */
  ghost predicate Taken(calls: seq<Call>, row: EventRow) {
    exists i :: 0 <= i < |calls| && Takes(calls[i], row)
  }

  predicate Takes(call: Call, row: EventRow) {
    call.Expire? && row.cursor in call.victims && row.expiresAt <= call.now
  }

  lemma StepKeepsRow(t: Tables, call: Call, row: EventRow, check: SignatureCheck)
    requires EventsSound(t) && row in t.events
    ensures row in Step(t, call, check).events || Takes(call, row)
  {
    match call
    case Expire(victims, batch, now) =>
      CleanupResult(t, victims, batch, now);
      hide Cleanup, EventsSound;
    case Upload(e, now) =>
      UploadResult(t, e, now);
      hide UploadEvent, EventsSound;
    case Apply(o, signature) =>
      ApplyTouchesMembers(t, o, signature, check);
      hide ApplyMembership, EventsSound;
    case _ =>
      hide UploadEvent, ApplyMembership, Cleanup, EventsSound;
  }

  lemma {:induction false} RowStays(t: Tables, calls: seq<Call>, row: EventRow, check: SignatureCheck)
    requires Sound(t, check) && row in t.events
    ensures row in Run(t, calls, check).events || Taken(calls, row)
    decreases |calls|
  {
    hide Step, Sound, EventsSound, Takes;
    if calls != [] {
      var n := |calls| - 1;
      RowStays(t, calls[..n], row, check);
      if row in Run(t, calls[..n], check).events {
        RunSound(t, calls[..n], check);
        SoundParts(Run(t, calls[..n], check), check);
        StepKeepsRow(Run(t, calls[..n], check), calls[n], row, check);
      } else {
        var i :| 0 <= i < n && Takes(calls[..n][i], row);
        assert Takes(calls[i], row);
      }
    }
  }

  /** From its upload on, unless retention took it, which it may not before the week is over: a reader of
      any group, from any cursor and with any page size, is shown the event exactly when it reads its group
      from before its cursor, within the week. */
  lemma ShownForAWeek(t: Tables, e: UploadedEvent, now: Time, calls: seq<Call>, group: Id, after: int, limit: int,
      at: Time, check: SignatureCheck)
    requires Sound(t, check) && AcceptedAsNew(t, e, now)
    ensures var row := Week(e, UploadEvent(t, e, now).1.value.cursor, now);
      var later := Run(UploadEvent(t, e, now).0, calls, check);
      && EventsSound(later)
      && (row in Flatten(FollowAll(later, group, after, limit, at)) <==>
          row in later.events && group == e.group && after < row.cursor && at < now + 604800)
      && (row in later.events || Taken(calls, row))
  {
    UploadAdds(t, e, now);
    UploadSound(t, e, now, check);
    var u := UploadEvent(t, e, now).0;
    var row := Week(e, t.nextCursor, now);
    assert u.events[|t.events|] == row;
    RunSound(u, calls, check);
    RowStays(u, calls, row, check);
    var later := Run(u, calls, check);
    SoundParts(later, check);
    FollowAllComplete(later, group, after, limit, at);
    RemainingMembers(later, group, after, at);
    hide Run, Sound, EventsSound, FollowAll, Flatten, Remaining, UploadEvent, Taken;
  }

  /* ---------- Retention ---------- */

  /** The cursors of the rows that have expired. */
  lemma DeletesAsManyAsAllowed(t: Tables, victims: set<nat>, batch: int, now: Time)
    requires EventsSound(t) && MayDelete(t, victims, batch, now)
    ensures var expired := set i | 0 <= i < |t.events| && t.events[i].expiresAt <= now :: t.events[i].cursor;
      && (batch < 1 ==> |victims| == if |expired| < 1 then |expired| else 1)
      && (1 <= batch <= 10000 ==> |victims| == if |expired| < batch then |expired| else batch)
      && (10000 < batch ==> |victims| == if |expired| < 10000 then |expired| else 10000)
    ensures |Cleanup(t, victims, batch, now).events| == |t.events| - |victims|
    ensures forall e :: e in t.events && e.cursor !in victims ==> e in Cleanup(t, victims, batch, now).events
  {
    SurvivorsCounted(t.events, victims);
    CollectMembers(t.events, Surviving(victims));
    hide Collect;
  }

  lemma {:induction false} SurvivorsCounted(events: seq<EventRow>, victims: set<nat>)
    requires CursorOrder(events)
    requires forall c :: c in victims ==> exists i :: 0 <= i < |events| && events[i].cursor == c
    ensures |Collect(events, Surviving(victims))| == |events| - |victims|
  {
    if events != [] {
      var n := |events| - 1;
      var c := events[n].cursor;
      SurvivorsCounted(events[..n], victims - {c});
      SameSurvivors(events[..n], victims, c);
    }
  }

  lemma {:induction false} SameSurvivors(events: seq<EventRow>, victims: set<nat>, c: nat)
    requires forall i :: 0 <= i < |events| ==> events[i].cursor != c
    ensures Collect(events, Surviving(victims - {c})) == Collect(events, Surviving(victims))
  {
    if events != [] {
      SameSurvivors(events[..|events| - 1], victims, c);
    }
  }
}
