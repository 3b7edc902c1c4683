/** The transport manager against the delivery service, over a network that loses requests and
    replies: every frame the manager lets go of is stored once, and every resend is answered with the
    cursor of the first.

    Each send meets a fate, and before each send anything may happen at the service: other devices'
    calls, session traffic, retention. A frame that the rate limiter refuses counts as dropped. */
module ExactlyOnce {
  import opened Results
  import opened Bytes
  import opened Api
  import D = Delivery
  import L = DeliveryLaws
  import S = Sessions
  import P = Protocol
  import F = ServerFrames
  import T = Transport
  import R = TransportRuns
  import Dir = Directory
  import H = HonestLog

  /** The network drops the request, loses the reply, or delivers both. */
  datatype Fate = Drop | LoseReply | Deliver

  /** What else may happen at the service between two sends. */
  datatype Act = DeliveryCall(call: D.Call) | SessionCall(timed: S.Timed)

  datatype World = World(delivery: D.Tables, sessions: S.Tables)

  /** Everything that the manager does not decide: the initial tables, and for each send what happens
      before it, when it is processed, what becomes of it and, for a frame that is no event upload, how
      it is answered. */
  datatype Environment = Environment(
    initial: World, acts: nat -> seq<Act>, times: nat -> Time, fates: nat -> Fate, others: nat -> Option<Blob>,
    check: SignatureCheck)

  /* ---------- The service ---------- */

  function Perform(w: World, act: Act, check: SignatureCheck): World {
    match act
    case DeliveryCall(call) => w.(delivery := D.Step(w.delivery, call, check))
    case SessionCall(call) => w.(sessions := S.Step(w.sessions, call, check))
  }

  function PerformAll(w: World, acts: seq<Act>, check: SignatureCheck): World {
    if acts == [] then w else Perform(PerformAll(w, acts[..|acts| - 1], check), acts[|acts| - 1], check)
  }

  /** The event upload that a frame carries, if it carries one. */
  function UploadIn(bytes: Blob): Option<(Id, F.UploadRequest)> {
    match P.DecodeFrame(bytes)
    case Err(_) => None
    case Ok(frame) =>
      if frame.kind != P.UploadEnvelope then None else
      match F.ParseUpload(frame.body)
      case Err(_) => None
      case Ok(request) => Some((frame.clientMessageId, request))
  }

  function EventOf(author: Id, client: Id, r: F.UploadRequest): D.UploadedEvent {
    D.UploadedEvent(r.eventId, r.group, author, client, r.kind, r.ciphertext, r.correlation)
  }

  /** The acceptance that the client is sent. */
  function AcceptBody(accepted: D.Accepted): Blob {
    [F.OPERATION_EVENT] + BigEndian(accepted.cursor, 8) + [if accepted.duplicate then 1 else 0]
  }

  function AcceptReply(client: Id, accepted: D.Accepted): Blob {
    F.CborBody(F.ResponseFrame(P.UploadAccepted, client, AcceptBody(accepted)))
  }

  /** What a client reads in a reply: an accepted upload of its message, the cursor it was given, and
      whether it was there before. */
  predicate TellsClient(reply: Blob, client: Id, cursor: nat, duplicate: bool) {
    P.DecodeFrame(reply).Ok? &&
    var f := P.DecodeFrame(reply).value;
    && f.version == 1 && f.kind == P.UploadAccepted && f.clientMessageId == client && f.ttlSeconds == 0
    && |f.body| == 10 && f.body[0] == 1 && FromBigEndian(f.body[1..9]) == cursor
    && f.body[9] == if duplicate then 1 else 0
  }

  /** Cursors are columns of 64 bits, so the reply carries them. */
  lemma ReplyTells(client: Id, accepted: D.Accepted)
    ensures accepted.cursor < 0x1_0000_0000_0000_0000 ==>
      TellsClient(AcceptReply(client, accepted), client, accepted.cursor, accepted.duplicate)
  {
    hide P.EncodeFrame, P.DecodeFrame, BigEndian, FromBigEndian;
    var body := AcceptBody(accepted);
    F.ResponseEncodesIff(P.UploadAccepted, client, body);
    P.FrameRoundTrip(F.ResponseFrame(P.UploadAccepted, client, body));
    assert body[1..9] == BigEndian(accepted.cursor, 8);
    Pow256Widths();
    if accepted.cursor < 0x1_0000_0000_0000_0000 {
      DecodeBigEndian(accepted.cursor, 8);
    }
  }

  /** The reply to send `i`, if one came, tells the client this. */
  ghost predicate Told(log: seq<T.Attempt>, i: nat, client: Id, cursor: nat, duplicate: bool)
    requires i < |log|
  {
    && log[i].reply.Some?
    && (cursor < 0x1_0000_0000_0000_0000 ==> TellsClient(log[i].reply.value, client, cursor, duplicate))
  }

  /** The token names the author; the upload is stored, or found, or refused. */
  function HandleUpload(w: World, client: Id, r: F.UploadRequest, now: Time): (World, Result<D.Accepted, ApiError>) {
    match S.AuthenticateAccess(w.sessions, w.delivery.devices, r.token, now)
    case Err(e) => (w, Err(e))
    case Ok(author) =>
      var (t, result) := D.UploadEvent(w.delivery, EventOf(author, client, r), now);
      (w.(delivery := t), result)
  }

  /** The effects of a frame that is no event upload are left to the acts. A refusal is a failed request. */
  function Handle(w: World, bytes: Blob, now: Time): (World, Option<Blob>) {
    match UploadIn(bytes)
    case None => (w, None)
    case Some((client, request)) =>
      var (u, result) := HandleUpload(w, client, request, now);
      (u, if result.Ok? then Some(AcceptReply(client, result.value)) else None)
  }

  /** Only a frame of the upload type with an upload body is handled so; no other stores an event or is
      answered as one. */
  lemma OtherFramesStoreNothing(w: World, bytes: Blob, now: Time)
    ensures UploadIn(bytes).Some? <==>
      && P.DecodeFrame(bytes).Ok? && P.DecodeFrame(bytes).value.kind == P.UploadEnvelope
      && F.ParseUpload(P.DecodeFrame(bytes).value.body).Ok?
    ensures UploadIn(bytes).None? ==> Handle(w, bytes, now) == (w, None)
  {
    hide P.DecodeFrame, F.ParseUpload;
  }

  /* ---------- The composition ---------- */

  /** The service when the next send arrives. */
  function Before(e: Environment, log: seq<T.Attempt>): World
    decreases |log|, 1
  {
    PerformAll(if log == [] then e.initial else After(e, log), e.acts(|log|), e.check)
  }

  /** The service after the last send of a non-empty log. */
  function After(e: Environment, log: seq<T.Attempt>): World
    requires log != []
    decreases |log|, 0
  {
    var n := |log| - 1;
    var w := Before(e, log[..n]);
    if e.fates(n).Drop? then w else Handle(w, log[n].frame.bytes, e.times(n)).0
  }

  function Net(e: Environment): T.Network {
    (log: seq<T.Attempt>, endpoint: Dir.Endpoint, channel: T.Channel, frame: T.Queued) =>
      if !e.fates(|log|).Deliver? then None
      else if UploadIn(frame.bytes).None? then e.others(|log|)
      else Handle(Before(e, log), frame.bytes, e.times(|log|)).1
  }

  /* ---------- What the service keeps ---------- */

  ghost predicate Kept(w: World, row: D.EventRow) {
    row in w.delivery.events
  }

  /** The act does not delete the row with this cursor. */
  predicate Spares(act: Act, cursor: nat) {
    act.DeliveryCall? && act.call.Expire? ==> cursor !in act.call.victims
  }

  ghost predicate Grows(v: World, w: World) {
    && L.Extends(v.delivery, w.delivery)
    && (forall h :: h in v.sessions.access ==>
      h in w.sessions.access && w.sessions.access[h].device == v.sessions.access[h].device)
  }

  lemma GrowsTrans(u: World, v: World, w: World)
    requires Grows(u, v) && Grows(v, w)
    ensures Grows(u, w)
  {
    L.ExtendsTrans(u.delivery, v.delivery, w.delivery);
    hide L.Extends;
  }

  lemma GrowsRefl(w: World)
    ensures Grows(w, w)
  {
  }

  lemma AccessKept(t: S.Tables, c: S.Timed, check: SignatureCheck)
    ensures forall h :: h in t.access ==>
      h in S.Step(t, c, check).access && S.Step(t, c, check).access[h] == t.access[h]
  {
    hide S.ChallengePayload, S.ProofPayload, S.RevokeFamily;
  }

  lemma PerformKeeps(w: World, act: Act, check: SignatureCheck)
    requires L.Sound(w.delivery, check)
    ensures var u := Perform(w, act, check);
      && L.Sound(u.delivery, check) && Grows(w, u)
      && forall row :: Kept(w, row) && Spares(act, row.cursor) ==> Kept(u, row)
  {
    match act
    case SessionCall(call) =>
      AccessKept(w.sessions, call, check);
      hide S.Step, L.Sound;
    case DeliveryCall(call) =>
      L.StepSound(w.delivery, call, check);
      RowsSurvive(w.delivery, call, check);
      hide D.Step, L.Sound, L.Extends;
  }

  lemma RowsSurvive(t: D.Tables, call: D.Call, check: SignatureCheck)
    requires L.Sound(t, check)
    ensures forall row :: row in t.events && (call.Expire? ==> row.cursor !in call.victims) ==>
      row in D.Step(t, call, check).events
  {
    match call
    case Expire(victims, batch, now) => L.CleanupResult(t, victims, batch, now); hide D.Cleanup;
    case Upload(event, now) => L.UploadResult(t, event, now); hide D.UploadEvent;
    case _ => hide D.UploadEvent, D.Cleanup;
  }

  lemma {:induction false} PerformAllKeeps(w: World, acts: seq<Act>, check: SignatureCheck)
    requires L.Sound(w.delivery, check)
    ensures var u := PerformAll(w, acts, check);
      && L.Sound(u.delivery, check) && Grows(w, u)
      && forall row :: Kept(w, row) && (forall i :: 0 <= i < |acts| ==> Spares(acts[i], row.cursor)) ==> Kept(u, row)
    decreases |acts|
  {
    hide Perform, L.Sound, Kept, Spares, Grows;
    if acts == [] {
      GrowsRefl(w);
    } else {
      PerformAllKeeps(w, acts[..|acts| - 1], check);
      var v := PerformAll(w, acts[..|acts| - 1], check);
      PerformKeeps(v, acts[|acts| - 1], check);
      GrowsTrans(w, v, PerformAll(w, acts, check));
    }
  }

  /** An answered upload is stored: under the author that the token names, with its id and ciphertext,
      at the cursor that the reply carries. */
  ghost predicate StoredAt(w: World, row: D.EventRow, author: Id, client: Id, r: F.UploadRequest, cursor: nat) {
    && Kept(w, row) && row.cursor == cursor
    && row.author == author && row.clientMessageId == client && row.eventId == r.eventId
      && row.ciphertext == r.ciphertext
  }

  /** A row that an upload inserted, and did not merely find. */
  predicate AsUploaded(row: D.EventRow, r: F.UploadRequest, now: Time) {
    row.group == r.group && row.kind == r.kind && row.correlation == r.correlation && row.expiresAt == now + 604800
  }

  lemma HandleKeeps(w: World, bytes: Blob, now: Time, check: SignatureCheck)
    requires L.Sound(w.delivery, check)
    ensures var u := Handle(w, bytes, now).0;
      L.Sound(u.delivery, check) && Grows(w, u) && forall row :: Kept(w, row) ==> Kept(u, row)
  {
    hide UploadIn, AcceptReply, HandleUpload, L.Sound, Grows, Kept;
    if UploadIn(bytes).Some? {
      var (client, request) := UploadIn(bytes).value;
      HandleUploadKeeps(w, client, request, now, check);
    } else {
      GrowsRefl(w);
    }
  }

  lemma HandleUploadKeeps(w: World, client: Id, r: F.UploadRequest, now: Time, check: SignatureCheck)
    requires L.Sound(w.delivery, check)
    ensures var u := HandleUpload(w, client, r, now).0;
      L.Sound(u.delivery, check) && Grows(w, u) && forall row :: Kept(w, row) ==> Kept(u, row)
  {
    hide L.Sound, L.Extends, D.UploadEvent, S.AuthenticateAccess;
    match S.AuthenticateAccess(w.sessions, w.delivery.devices, r.token, now)
    case Err(_) => GrowsRefl(w);
    case Ok(author) =>
      var call := D.Upload(EventOf(author, client, r), now);
      L.StepSound(w.delivery, call, check);
      RowsSurvive(w.delivery, call, check);
      assert HandleUpload(w, client, r, now).0.delivery == D.Step(w.delivery, call, check);
  }

  lemma UploadStored(w: World, client: Id, r: F.UploadRequest, now: Time, check: SignatureCheck)
      returns (row: D.EventRow)
    requires L.Sound(w.delivery, check) && HandleUpload(w, client, r, now).1.Ok?
    ensures var author := S.AuthenticateAccess(w.sessions, w.delivery.devices, r.token, now);
      var accepted := HandleUpload(w, client, r, now).1.value;
      && author.Ok? && StoredAt(HandleUpload(w, client, r, now).0, row, author.value, client, r, accepted.cursor)
      && (accepted.duplicate || AsUploaded(row, r, now))
      && (accepted.duplicate <==> exists prior ::
        Kept(w, prior) && prior.author == author.value && prior.clientMessageId == client)
  {
    var author := S.AuthenticateAccess(w.sessions, w.delivery.devices, r.token, now).value;
    var e := EventOf(author, client, r);
    L.UploadResult(w.delivery, e, now);
    var (t, result) := D.UploadEvent(w.delivery, e, now);
    hide L.Sound;
    if result.value.duplicate {
      var i :| 0 <= i < |t.events| && L.Answers(t.events[i], e, result.value.cursor);
      row := t.events[i];
      assert t.events[i] in w.delivery.events;
    } else {
      row := D.NewRow(w.delivery, e, now);
      assert t.events[|w.delivery.events|] == row;
    }
  }

  /* ---------- From send to send ---------- */

  /** No retention run from before send `from` to before send `to` deletes the row with this cursor. */
  ghost predicate Untouched(e: Environment, cursor: nat, from: nat, to: nat) {
    forall k, i :: from <= k <= to && 0 <= i < |e.acts(k)| ==> Spares(e.acts(k)[i], cursor)
  }

  lemma {:induction false} WorldSound(e: Environment, log: seq<T.Attempt>)
    requires L.Sound(e.initial.delivery, e.check)
    ensures L.Sound(Before(e, log).delivery, e.check)
    ensures log != [] ==> L.Sound(After(e, log).delivery, e.check)
    decreases |log|
  {
    hide L.Sound, Handle, PerformAll, Grows;
    if log != [] {
      var n := |log| - 1;
      WorldSound(e, log[..n]);
      HandleKeeps(Before(e, log[..n]), log[n].frame.bytes, e.times(n), e.check);
    }
    PerformAllKeeps(if log == [] then e.initial else After(e, log), e.acts(|log|), e.check);
  }

  /** From after send `i` to before send `j`, and to after it: tables grow, and untouched rows stay. */
  lemma {:induction false} WorldKeeps(e: Environment, log: seq<T.Attempt>, i: nat, j: nat, row: D.EventRow)
    requires L.Sound(e.initial.delivery, e.check) && i < j <= |log|
    ensures var from := After(e, log[..i + 1]);
      && Grows(from, After(e, log[..j])) && Grows(from, Before(e, log[..j]))
      && (Kept(from, row) && Untouched(e, row.cursor, i + 1, j - 1) ==> Kept(After(e, log[..j]), row))
      && (Kept(from, row) && Untouched(e, row.cursor, i + 1, j) ==> Kept(Before(e, log[..j]), row))
    decreases j
  {
    hide L.Sound, Handle, PerformAll, Grows, Kept, Spares;
    var from := After(e, log[..i + 1]);
    var after := After(e, log[..j]);
    if j == i + 1 {
      GrowsRefl(from);
    } else {
      WorldKeeps(e, log, i, j - 1, row);
      assert log[..j][..j - 1] == log[..j - 1];
      var before := Before(e, log[..j - 1]);
      WorldSound(e, log[..j - 1]);
      HandleKeeps(before, log[j - 1].frame.bytes, e.times(j - 1), e.check);
      GrowsRefl(before);
      GrowsTrans(from, before, after);
    }
    WorldSound(e, log[..j]);
    PerformAllKeeps(after, e.acts(j), e.check);
    GrowsTrans(from, after, Before(e, log[..j]));
  }

  /* ---------- Processed and answered sends ---------- */

  /** Send `i` carried this upload and was answered. */
  ghost predicate Answered(log: seq<T.Attempt>, i: nat, client: Id, r: F.UploadRequest) {
    i < |log| && log[i].reply.Some? && UploadIn(log[i].frame.bytes) == Some((client, r))
  }

  /** Send `i` reached the service with this upload, which was accepted; its reply may have been lost. */
  ghost predicate Processed(e: Environment, log: seq<T.Attempt>, i: nat, client: Id, r: F.UploadRequest,
      accepted: D.Accepted) {
    && i < |log| && !e.fates(i).Drop? && UploadIn(log[i].frame.bytes) == Some((client, r))
    && HandleUpload(Before(e, log[..i]), client, r, e.times(i)).1 == Ok(accepted)
  }

  function AuthorAt(e: Environment, log: seq<T.Attempt>, i: nat, r: F.UploadRequest): Result<Id, ApiError>
    requires i < |log|
  {
    var w := Before(e, log[..i]);
    S.AuthenticateAccess(w.sessions, w.delivery.devices, r.token, e.times(i))
  }

  /** An answered upload was processed, and the reply is its acceptance. */
  lemma AnsweredHandled(e: Environment, log: seq<T.Attempt>, i: nat, client: Id, r: F.UploadRequest)
      returns (accepted: D.Accepted)
    requires H.Honest(log, Net(e)) && Answered(log, i, client, r)
    ensures Processed(e, log, i, client, r, accepted) && log[i].reply == Some(AcceptReply(client, accepted))
  {
    hide UploadIn, AcceptReply, HandleUpload, Before, Handle;
    assert |log[..i]| == i;
    NetAnswers(e, log[..i], log[i].endpoint, log[i].channel, log[i].frame);
    HandledUpload(Before(e, log[..i]), log[i].frame.bytes, e.times(i), client, r);
    accepted := HandleUpload(Before(e, log[..i]), client, r, e.times(i)).1.value;
  }

  /** A processed upload is answered with its acceptance exactly when the reply is not lost. */
  lemma ProcessedReply(e: Environment, log: seq<T.Attempt>, i: nat, client: Id, r: F.UploadRequest,
    accepted: D.Accepted)
    requires H.Honest(log, Net(e)) && Processed(e, log, i, client, r, accepted)
    ensures log[i].reply == if e.fates(i).Deliver? then Some(AcceptReply(client, accepted)) else None
  {
    hide UploadIn, AcceptReply, HandleUpload, Before, Handle;
    assert |log[..i]| == i;
    NetAnswers(e, log[..i], log[i].endpoint, log[i].channel, log[i].frame);
    HandledUpload(Before(e, log[..i]), log[i].frame.bytes, e.times(i), client, r);
  }

  lemma NetAnswers(e: Environment, log: seq<T.Attempt>, endpoint: Dir.Endpoint, channel: T.Channel, frame: T.Queued)
    requires UploadIn(frame.bytes).Some?
    ensures Net(e)(log, endpoint, channel, frame) ==
      if e.fates(|log|).Deliver? then Handle(Before(e, log), frame.bytes, e.times(|log|)).1 else None
  {
  }

  lemma HandledUpload(w: World, bytes: Blob, now: Time, client: Id, r: F.UploadRequest)
    requires UploadIn(bytes) == Some((client, r))
    ensures var (u, result) := HandleUpload(w, client, r, now);
      Handle(w, bytes, now) == (u, if result.Ok? then Some(AcceptReply(client, result.value)) else None)
  {
    hide UploadIn, AcceptReply, HandleUpload;
  }

  /** A row is there under this key before send `i`. */
  ghost predicate KnownBefore(e: Environment, log: seq<T.Attempt>, i: nat, author: Id, client: Id)
    requires i < |log|
  {
    exists prior :: Kept(Before(e, log[..i]), prior) && prior.author == author && prior.clientMessageId == client
  }

  /** The row that a processed upload left at the service. */
  lemma ProcessedIsStored(e: Environment, log: seq<T.Attempt>, i: nat, client: Id, r: F.UploadRequest,
    accepted: D.Accepted)
      returns (row: D.EventRow)
    requires L.Sound(e.initial.delivery, e.check) && Processed(e, log, i, client, r, accepted)
    ensures AuthorAt(e, log, i, r).Ok?
    ensures StoredAt(After(e, log[..i + 1]), row, AuthorAt(e, log, i, r).value, client, r, accepted.cursor)
    ensures accepted.duplicate || AsUploaded(row, r, e.times(i))
    ensures accepted.duplicate <==> KnownBefore(e, log, i, AuthorAt(e, log, i, r).value, client)
  {
    hide HandleUpload, StoredAt, UploadIn, Before, L.Sound;
    WorldSound(e, log[..i]);
    assert log[..i + 1][..i] == log[..i];
    HandledUpload(Before(e, log[..i]), log[i].frame.bytes, e.times(i), client, r);
    row := UploadStored(Before(e, log[..i]), client, r, e.times(i), e.check);
  }

  lemma UniqueRow(w: World, check: SignatureCheck, a: D.EventRow, b: D.EventRow)
    requires L.Sound(w.delivery, check) && Kept(w, a) && Kept(w, b)
    requires a.author == b.author && a.clientMessageId == b.clientMessageId
    ensures a == b
  {
    hide L.KeysUnique;
    var events := w.delivery.events;
    var i :| 0 <= i < |events| && events[i] == a;
    var j :| 0 <= j < |events| && events[j] == b;
    if i < j {
      EarlierDiffers(events, i, j);
    } else if j < i {
      EarlierDiffers(events, j, i);
    }
  }

  lemma EarlierDiffers(events: seq<D.EventRow>, i: nat, j: nat)
    requires L.KeysUnique(events) && i < j < |events|
    ensures !(events[i].author == events[j].author && events[i].clientMessageId == events[j].clientMessageId)
  {
    assert L.Unlike(events[i], events[j]);
  }

  /* ---------- Main results ---------- */

  /** At the end of the log: the row is the only one under its key, and holds the upload. */
  ghost predicate StoredOnce(w: World, row: D.EventRow, author: Id, client: Id, r: F.UploadRequest) {
    && StoredAt(w, row, author, client, r, row.cursor)
    && forall other :: Kept(w, other) && other.author == author && other.clientMessageId == client ==> other == row
  }

  /** Send `i` was answered, and its reply tells the client the cursor of a row that it left at the service
      and that, unless retention took it since, is in the end the one and only row under its key. */
  ghost predicate DeliveredOnce(e: Environment, log: seq<T.Attempt>, i: nat, client: Id, r: F.UploadRequest,
      author: Id, row: D.EventRow, duplicate: bool) {
    && Answered(log, i, client, r)
    && AuthorAt(e, log, i, r) == Ok(author)
    && Told(log, i, client, row.cursor, duplicate)
    && (duplicate || AsUploaded(row, r, e.times(i)))
    && StoredAt(After(e, log[..i + 1]), row, author, client, r, row.cursor)
    && (Untouched(e, row.cursor, i + 1, |log| - 1) ==> StoredOnce(After(e, log), row, author, client, r))
  }

  lemma AnsweredOnce(e: Environment, log: seq<T.Attempt>, i: nat, client: Id, r: F.UploadRequest)
    requires L.Sound(e.initial.delivery, e.check) && H.Honest(log, Net(e)) && Answered(log, i, client, r)
    ensures exists author: Id, row: D.EventRow, duplicate: bool ::
      DeliveredOnce(e, log, i, client, r, author, row, duplicate)
  {
    hide HandleUpload, UploadIn, AcceptReply, Before, After, Untouched, L.Sound;
    var accepted := AnsweredHandled(e, log, i, client, r);
    var row := ProcessedIsStored(e, log, i, client, r, accepted);
    var author := AuthorAt(e, log, i, r).value;
    WorldKeeps(e, log, i, |log|, row);
    assert log[..|log|] == log;
    WorldSound(e, log);
    if Untouched(e, row.cursor, i + 1, |log| - 1) {
      forall other | Kept(After(e, log), other) && other.author == author && other.clientMessageId == client
        ensures other == row
      {
        UniqueRow(After(e, log), e.check, other, row);
      }
    }
    ReplyTells(client, accepted);
    hide TellsClient;
    assert DeliveredOnce(e, log, i, client, r, author, row, accepted.duplicate);
  }

  /** Frame number `popped` of those that a manager took has left its outbox. */
  ghost predicate Popped(taken: seq<T.Queued>, m: T.Manager, popped: nat, frame: T.Queued) {
    popped + |m.outbox| < |taken| && taken[popped] == frame
  }

  /** Some send of this frame was answered with the acceptance of the one row under its key. */
  ghost predicate FrameDeliveredOnce(e: Environment, log: seq<T.Attempt>, frame: T.Queued, client: Id,
      r: F.UploadRequest) {
    exists i: nat, author: Id, row: D.EventRow, duplicate: bool ::
      DeliveredOnce(e, log, i, client, r, author, row, duplicate) && log[i].frame == frame
  }

  lemma PoppedWasDelivered(taken: seq<T.Queued>, m: T.Manager, popped: nat, frame: T.Queued) returns (i: nat)
    requires T.Frames(T.Deliveries(m.log)) + m.outbox == taken && Popped(taken, m, popped, frame)
    ensures i < |m.log| && m.log[i].frame == frame && m.log[i].reply.Some?
  {
    hide T.Deliveries;
    var ds := T.Deliveries(m.log);
    assert T.Frames(ds)[popped] == frame;
    T.DeliveredAttempts(m.log);
    assert ds[popped] in ds;
    i :| 0 <= i < |m.log| && m.log[i] == ds[popped];
  }

  /** Exactly once: over every run of the manager, over every network and beside any other traffic,
      every frame that left the outbox was answered with the acceptance of its own upload, and unless
      retention took the row since, exactly one event is stored under its key, with its ciphertext. */
  lemma ExactlyOnceDelivery(e: Environment, directory: Dir.RelayDirectory, key: Dir.VerifyingKey, calls: seq<R.Call>,
      popped: nat, frame: T.Queued, client: Id, r: F.UploadRequest)
    requires L.Sound(e.initial.delivery, e.check) && UploadIn(frame.bytes) == Some((client, r))
    ensures var start := T.New(directory, key); var m := R.Run(start, calls, Net(e));
      Popped(R.Taken(start, calls, Net(e)), m, popped, frame) ==> FrameDeliveredOnce(e, m.log, frame, client, r)
  {
    hide R.Run, R.Taken, UploadIn, Net, DeliveredOnce, L.Sound, T.Deliveries, Popped, T.Frames;
    var start := T.New(directory, key);
    var m := R.Run(start, calls, Net(e));
    var taken := R.Taken(start, calls, Net(e));
    if Popped(taken, m, popped, frame) {
      R.LifeOfAManager(directory, key, calls, Net(e));
      H.RunHonest(start, calls, Net(e));
      var i := PoppedWasDelivered(taken, m, popped, frame);
      AnsweredOnce(e, m.log, i, client, r);
    }
  }

  /** What the service finds in an enqueued upload frame is the upload. */
  lemma EncodedUpload(f: P.TransportFrame, r: F.UploadRequest)
    requires P.EncodeFrame(f).Ok? && f.version == P.PROTOCOL_VERSION
    requires f.kind == P.UploadEnvelope && F.ParseUpload(f.body) == Ok(r)
    ensures UploadIn(P.EncodeFrame(f).value) == Some((f.clientMessageId, r))
  {
    hide P.DecodeFrame, P.EncodeFrame, F.ParseUpload;
    P.FrameRoundTrip(f);
  }

  /** From the call to the log: an upload that is enqueued, does not wait already and has left the outbox
      by the end of the run is stored once. */
  lemma EnqueuedUploadIsStored(e: Environment, directory: Dir.RelayDirectory, key: Dir.VerifyingKey,
      calls: seq<R.Call>, k: nat, r: F.UploadRequest)
    requires L.Sound(e.initial.delivery, e.check)
    requires k < |calls| && calls[k].EnqueueFrame? && P.EncodeFrame(calls[k].frame).Ok?
    requires calls[k].frame.version == P.PROTOCOL_VERSION && calls[k].frame.kind == P.UploadEnvelope
    requires F.ParseUpload(calls[k].frame.body) == Ok(r)
    ensures
      var start := T.New(directory, key);
      var m := R.Run(start, calls, Net(e));
      var f := calls[k].frame;
      var queued := T.Queued(f.clientMessageId, P.EncodeFrame(f).value);
      var position := |R.Taken(start, calls[..k], Net(e))|;
      R.NotWaiting(R.Run(start, calls[..k], Net(e)), f.clientMessageId)
      && position + |m.outbox| < |R.Taken(start, calls, Net(e))| ==>
        FrameDeliveredOnce(e, m.log, queued, f.clientMessageId, r)
  {
    hide R.Run, R.Taken, UploadIn, Net, FrameDeliveredOnce, L.Sound, P.EncodeFrame, F.ParseUpload, R.NotWaiting;
    var f := calls[k].frame;
    EncodedUpload(f, r);
    R.EnqueuedIsTaken(T.New(directory, key), calls, k, Net(e));
    ExactlyOnceDelivery(e, directory, key, calls, |R.Taken(T.New(directory, key), calls[..k], Net(e))|,
      T.Queued(f.clientMessageId, P.EncodeFrame(f).value), f.clientMessageId, r);
  }

  /** Every resend gets the original cursor: once an upload was accepted, whether or not its reply got
      through, any later upload with its token and message id that is accepted, and before which
      retention left the row alone, is answered as a duplicate with the cursor of that row. */
  lemma ResendGetsOriginalCursor(e: Environment, log: seq<T.Attempt>, i: nat, j: nat, client: Id, r: F.UploadRequest,
      again: F.UploadRequest, first: D.Accepted, second: D.Accepted)
    requires L.Sound(e.initial.delivery, e.check) && i < j
    requires Processed(e, log, i, client, r, first) && Processed(e, log, j, client, again, second)
    requires again.token == r.token && Untouched(e, first.cursor, i + 1, j)
    ensures second == D.Accepted(first.cursor, true)
    ensures H.Honest(log, Net(e)) ==>
      if e.fates(j).Deliver? then Told(log, j, client, first.cursor, true) else log[j].reply == None
  {
    hide HandleUpload, UploadIn, AcceptReply, Before, After, Untouched, L.Sound, L.Extends, Net, H.Honest, Processed;
    var row := ProcessedIsStored(e, log, i, client, r, first);
    var later := ProcessedIsStored(e, log, j, client, again, second);
    InLog(e, log, i, client, r, first);
    InLog(e, log, j, client, again, second);
    WorldKeeps(e, log, i, j, row);
    SameAuthor(e, log, i, j, r.token);
    assert AuthorAt(e, log, i, r) == AuthorAt(e, log, j, again);
    assert Kept(Before(e, log[..j]), row);
    WorldSound(e, log[..j + 1]);
    assert log[..j + 1][..j] == log[..j];
    StillKept(e, log, j, row);
    UniqueRow(After(e, log[..j + 1]), e.check, row, later);
    if H.Honest(log, Net(e)) {
      ProcessedReply(e, log, j, client, again, second);
      ReplyTells(client, second);
      hide TellsClient;
    }
  }

  lemma InLog(e: Environment, log: seq<T.Attempt>, i: nat, client: Id, r: F.UploadRequest, accepted: D.Accepted)
    requires Processed(e, log, i, client, r, accepted)
    ensures i < |log|
  {
  }

  /** A frame sent again after it was accepted is never in conflict with itself. It is answered with
      the original cursor exactly when its token still names a device and that device is still a member. */
  lemma ResendOutcome(e: Environment, log: seq<T.Attempt>, i: nat, j: nat, client: Id, r: F.UploadRequest,
    first: D.Accepted)
    requires L.Sound(e.initial.delivery, e.check) && i < j < |log|
    requires Processed(e, log, i, client, r, first) && Untouched(e, first.cursor, i + 1, j)
    ensures var w := Before(e, log[..j]);
      HandleUpload(w, client, r, e.times(j)).1 ==
      match AuthorAt(e, log, j, r)
      case Err(x) => Err(x)
      case Ok(author) =>
        var member := (r.group, author) in w.delivery.members && !w.delivery.members[(r.group, author)].removed;
        if member then Ok(D.Accepted(first.cursor, true))
        else Err(Unauthorized)
  {
    hide UploadIn, Before, After, Untouched, L.Sound, L.Extends, D.UploadEvent, Grows, D.Refusal;
    var row := ProcessedIsStored(e, log, i, client, r, first);
    WorldKeeps(e, log, i, j, row);
    SameAuthor(e, log, i, j, r.token);
    WorldGrows(e, log, i, j);
    WorldSound(e, log[..j]);
    var v, w := Before(e, log[..i]), Before(e, log[..j]);
    assert L.Extends(v.delivery, w.delivery) by { GrowthExtends(v, w); }
    match AuthorAt(e, log, j, r)
    case Err(_) =>
    case Ok(author) =>
      var event := EventOf(author, client, r);
      assert D.UploadEvent(v.delivery, event, e.times(i)).1 == Ok(first);
      AcceptedAgain(v.delivery, w.delivery, event, e.times(i), e.times(j), row, e.check);
  }

  lemma GrowthExtends(v: World, w: World)
    requires Grows(v, w)
    ensures L.Extends(v.delivery, w.delivery)
  {
  }

  /** An event accepted before whose row is still there. */
  lemma AcceptedAgain(t: D.Tables, u: D.Tables, event: D.UploadedEvent, before: Time, now: Time, row: D.EventRow,
      check: SignatureCheck)
    requires L.Sound(u, check) && L.Extends(t, u) && D.UploadEvent(t, event, before).1.Ok?
    requires row in u.events && row.author == event.author && row.clientMessageId == event.clientMessageId
    requires row.eventId == event.eventId && row.ciphertext == event.ciphertext
    ensures D.UploadEvent(u, event, now).1 ==
      if D.ActiveMember(u, event.group, event.author) then Ok(D.Accepted(row.cursor, true)) else Err(Unauthorized)
  {
    hide L.Sound, L.Extends, L.KeysUnique, D.FindEvent, D.Refusal, D.InsertEvent, D.ActiveMember;
    RefusalLater(t, u, event);
    SoundKeys(u, check);
    var k :| 0 <= k < |u.events| && u.events[k] == row;
    FindsTheRow(u.events, k);
  }

  lemma SoundKeys(t: D.Tables, check: SignatureCheck)
    requires L.Sound(t, check)
    ensures L.KeysUnique(t.events)
  {
  }

  /** An event that was not refused before is only ever refused for want of membership. */
  lemma RefusalLater(t: D.Tables, u: D.Tables, event: D.UploadedEvent)
    requires L.Extends(t, u) && D.Refusal(t, event).None?
    ensures D.Refusal(u, event) == if D.ActiveMember(u, event.group, event.author) then None else Some(Unauthorized)
  {
    hide L.DevicesKept;
  }

  /** The row under a key is found. */
  lemma FindsTheRow(events: seq<D.EventRow>, k: nat)
    requires L.KeysUnique(events) && k < |events|
    ensures D.FindEvent(events, events[k].author, events[k].clientMessageId) == Some(k)
  {
    hide L.KeysUnique;
    var found := D.FindEvent(events, events[k].author, events[k].clientMessageId);
    if found.Some? && found.value < k {
      EarlierDiffers(events, found.value, k);
    } else if found.Some? && k < found.value {
      EarlierDiffers(events, k, found.value);
    }
  }

  lemma StillKept(e: Environment, log: seq<T.Attempt>, j: nat, row: D.EventRow)
    requires L.Sound(e.initial.delivery, e.check) && j < |log| && Kept(Before(e, log[..j]), row)
    ensures Kept(After(e, log[..j + 1]), row)
  {
    hide L.Sound, Handle, Before, Kept, Grows;
    assert log[..j + 1][..j] == log[..j];
    WorldSound(e, log[..j]);
    HandleKeeps(Before(e, log[..j]), log[j].frame.bytes, e.times(j), e.check);
  }

  /** A token never changes hands. */
  lemma SameAuthor(e: Environment, log: seq<T.Attempt>, i: nat, j: nat, token: Bytes32)
    requires L.Sound(e.initial.delivery, e.check) && i < j < |log|
    ensures var v, w := Before(e, log[..i]), Before(e, log[..j]);
      var a := S.AuthenticateAccess(v.sessions, v.delivery.devices, token, e.times(i));
      var b := S.AuthenticateAccess(w.sessions, w.delivery.devices, token, e.times(j));
      a.Ok? && b.Ok? ==> a == b
  {
    hide Before, L.Extends;
    WorldGrows(e, log, i, j);
  }

  lemma WorldGrows(e: Environment, log: seq<T.Attempt>, i: nat, j: nat)
    requires L.Sound(e.initial.delivery, e.check) && i < j < |log|
    ensures Grows(Before(e, log[..i]), Before(e, log[..j]))
  {
    hide L.Sound, Handle, Before, Kept, Grows;
    assert log[..i + 1][..i] == log[..i];
    var some := seq(16, _ => 0);
    WorldSound(e, log[..i]);
    HandleKeeps(Before(e, log[..i]), log[i].frame.bytes, e.times(i), e.check);
    GrowsRefl(Before(e, log[..i]));
    WorldKeeps(e, log, i, j, D.EventRow(0, some, some, some, some, 0, [], None, 0));
    GrowsTrans(Before(e, log[..i]), After(e, log[..i + 1]), Before(e, log[..j]));
  }
}
