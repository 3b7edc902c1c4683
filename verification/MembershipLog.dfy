/** The member table as a projection: it can be rebuilt from the group creations, the direct adds
    and the octets of the signed operations alone. */
module MembershipLog {
  import opened Results
  import opened Bytes
  import opened Sequences
  import opened Api
  import opened Delivery
  import opened DeliveryLaws

  datatype Act =
    | Created(group: Id, device: Id, account: Bytes32)
    | Added(group: Id, device: Id, account: Bytes32, role: int)
    | Signed(operation: Blob)

  /** What a call contributes to the history of the groups, if anything. */
  function ActOf(t: Tables, call: Call, check: SignatureCheck): Option<Act> {
    match call
    case NewGroup(group, device, account) =>
      if CreateGroup(t, group, device, account).1.Ok? then Some(Created(group, device, account)) else None
    case Add(group, device, account, role) =>
      if AddMember(t, group, device, account, role).1.Ok? then Some(Added(group, device, account, role)) else None
    case Apply(o, signature) =>
      if ApplyMembership(t, o, signature, check).1 == Ok(false) then Some(Signed(Payload(o))) else None
    case _ => None
  }

  function Acts(t: Tables, calls: seq<Call>, check: SignatureCheck): seq<Act>
    decreases |calls|
  {
    if calls == [] then [] else
    var before := calls[..|calls| - 1];
    var acts := Acts(t, before, check);
    match ActOf(Run(t, before, check), calls[|calls| - 1], check)
    case Some(act) => acts + [act]
    case None => acts
  }

  /** The meaning of one act, read from the act and the device table only. */
  function Perform(members: map<(Id, Id), Member>, act: Act, devices: map<Id, Device>): map<(Id, Id), Member> {
    match act
    case Created(group, device, account) => members[(group, device) := Member(account, ADMIN, false)]
    case Added(group, device, account, role) => members[(group, device) := Member(account, role, false)]
    case Signed(operation) =>
      if |operation| != 100 then members else
      var o := ParsePayload(operation);
      var k := (o.group, o.target);
      if o.remove then if k in members then members[k := members[k].(removed := true)] else members
      else if o.target in devices then members[k := Member(devices[o.target].account, o.role, false)]
      else members
  }

  function Replay(acts: seq<Act>, devices: map<Id, Device>): map<(Id, Id), Member> {
    if acts == [] then map[]
    else Perform(Replay(acts[..|acts| - 1], devices), acts[|acts| - 1], devices)
  }

  /** Every device that a signed operation adds is registered. */
  predicate ActKnown(act: Act, devices: map<Id, Device>) {
    act.Signed? ==>
      |act.operation| == 100 && (ParsePayload(act.operation).remove || ParsePayload(act.operation).target in devices)
  }

  ghost predicate ActsKnown(acts: seq<Act>, devices: map<Id, Device>) {
    forall i :: 0 <= i < |acts| ==> ActKnown(acts[i], devices)
  }

  lemma {:induction false} ReplayStable(acts: seq<Act>, d: map<Id, Device>, e: map<Id, Device>)
    requires ActsKnown(acts, d) && DevicesKept(d, e)
    ensures Replay(acts, e) == Replay(acts, d) && ActsKnown(acts, e)
  {
    hide ParsePayload;
    if acts != [] {
      ReplayStable(acts[..|acts| - 1], d, e);
      assert ActKnown(acts[|acts| - 1], d);
    }
  }

  /** An accepted operation performs what its octets say. */
  lemma AppliedPerforms(t: Tables, o: Membership, signature: Signature, check: SignatureCheck)
    requires ApplyMembership(t, o, signature, check).1 == Ok(false)
    ensures var u := ApplyMembership(t, o, signature, check).0; var act := Signed(Payload(o));
      && u.members == Perform(t.members, act, t.devices) && ActKnown(act, t.devices)
      && u.devices == t.devices
      && u.operations == t.operations[o.correlation := OperationRow(o.group, o.author, Payload(o), signature, true)]
      && o.correlation !in t.operations && |Payload(o)| == 100 && ParsePayload(Payload(o)) == o
  {
    PayloadInverse(o);
    hide Payload, ParsePayload;
  }

  lemma RefusedChangesNothing(t: Tables, o: Membership, signature: Signature, check: SignatureCheck)
    requires ApplyMembership(t, o, signature, check).1 != Ok(false)
    ensures ApplyMembership(t, o, signature, check).0 == t
  {
    hide Payload;
  }

  lemma PerformStep(t: Tables, call: Call, check: SignatureCheck)
    ensures var u := Step(t, call, check);
      match ActOf(t, call, check)
      case Some(act) => u.members == Perform(t.members, act, t.devices) && ActKnown(act, t.devices)
        && u.devices == t.devices
      case None => u.members == t.members
  {
    match call
    case Apply(o, signature) =>
      if ApplyMembership(t, o, signature, check).1 == Ok(false) {
        AppliedPerforms(t, o, signature, check);
      } else {
        RefusedChangesNothing(t, o, signature, check);
      }
      hide ApplyMembership, Perform, ActKnown, Payload;
    case Upload(e, now) =>
      UploadTouchesEvents(t, e, now);
      hide UploadEvent;
    case _ =>
      hide ApplyMembership, ParsePayload, UploadEvent;
  }

  /** In every run the member table is the replay of its acts in order. */
  lemma {:induction false} MembersAreReplay(calls: seq<Call>, check: SignatureCheck)
    ensures var t := Run(EMPTY, calls, check); var acts := Acts(EMPTY, calls, check);
      t.members == Replay(acts, t.devices) && ActsKnown(acts, t.devices)
    decreases |calls|
  {
    hide Step, ActOf, Perform, ParsePayload, ActKnown;
    if calls != [] {
      var before := calls[..|calls| - 1];
      var call := calls[|calls| - 1];
      MembersAreReplay(before, check);
      var t := Run(EMPTY, before, check);
      var acts := Acts(EMPTY, before, check);
      EmptySound(check);
      RunSound(EMPTY, before, check);
      StepSound(t, call, check);
      PerformStep(t, call, check);
      ReplayStable(acts, t.devices, Step(t, call, check).devices);
      if ActOf(t, call, check).Some? {
        var act := ActOf(t, call, check).value;
        assert (acts + [act])[..|acts|] == acts;
      }
    }
  }

  /* ---------- Signed acts and the operation table ---------- */

  function SignedOctets(): Act -> Option<Blob> {
    (act: Act) => if act.Signed? then Some(act.operation) else None
  }

  /** The signed operations of a run, in order. */
  function SignedActs(t: Tables, calls: seq<Call>, check: SignatureCheck): seq<Blob> {
    Collect(Acts(t, calls, check), SignedOctets())
  }

  ghost predicate TableOf(operations: map<Id, OperationRow>, signed: seq<Blob>) {
    && Distinct(signed)
    && (forall id :: id in operations ==> operations[id].operation in signed)
    && (forall b :: b in signed ==> |b| == 100 && var id := ParsePayload(b).correlation;
      id in operations && operations[id].operation == b)
  }

  lemma TableStep(t: Tables, call: Call, signed: seq<Blob>, check: SignatureCheck)
    requires TableOf(t.operations, signed)
    ensures var u := Step(t, call, check);
      match ActOf(t, call, check)
      case Some(Signed(operation)) => TableOf(u.operations, signed + [operation])
      case _ => u.operations == t.operations
  {
    if call.Apply? {
      var o := call.operation;
      if ApplyMembership(t, o, call.signature, check).1 == Ok(false) {
        AppliedPerforms(t, o, call.signature, check);
        hide ApplyMembership, Payload, ParsePayload, Perform, ActKnown, TableOf;
        TableGrows(t.operations, o, OperationRow(o.group, o.author, Payload(o), call.signature, true), signed);
      } else {
        RefusedChangesNothing(t, o, call.signature, check);
        hide ApplyMembership, Payload, TableOf;
      }
    } else {
      OthersSignNothing(t, call, check);
      hide Step, ActOf, TableOf;
    }
  }

  lemma OthersSignNothing(t: Tables, call: Call, check: SignatureCheck)
    requires !call.Apply?
    ensures Step(t, call, check).operations == t.operations
    ensures ActOf(t, call, check).Some? ==> !ActOf(t, call, check).value.Signed?
  {
    match call
    case Upload(e, now) =>
      UploadTouchesEvents(t, e, now);
      hide UploadEvent;
    case _ =>
      hide UploadEvent;
  }

  lemma TableGrows(operations: map<Id, OperationRow>, o: Membership, row: OperationRow, signed: seq<Blob>)
    requires TableOf(operations, signed) && o.correlation !in operations
    requires |row.operation| == 100 && ParsePayload(row.operation) == o
    ensures TableOf(operations[o.correlation := row], signed + [row.operation])
  {
    hide ParsePayload;
    assert row.operation !in signed;
  }

  /** In every run the operation table records exactly the signed acts, each of them once: a recorded
      operation was applied, and an applied operation is recorded. */
  lemma {:induction false} TableIsSignedActs(calls: seq<Call>, check: SignatureCheck)
    ensures TableOf(Run(EMPTY, calls, check).operations, SignedActs(EMPTY, calls, check))
    decreases |calls|
  {
    hide Step, ActOf, ParsePayload, Collect;
    if calls == [] {
      assert SignedActs(EMPTY, [], check) == [] by { NothingSigned(); }
    } else {
      var before := calls[..|calls| - 1];
      var t := Run(EMPTY, before, check);
      TableIsSignedActs(before, check);
      TableStep(t, calls[|calls| - 1], SignedActs(EMPTY, before, check), check);
      match ActOf(t, calls[|calls| - 1], check)
      case Some(act) => CollectAppend(Acts(EMPTY, before, check), act, SignedOctets());
      case None =>
    }
  }

  lemma NothingSigned()
    ensures Collect([], SignedOctets()) == []
  {
  }

  /** Once an operation is accepted, repeating it in any later state of any run changes nothing; the
      answer is that it is known, unless its author is no longer an administrator. */
  lemma RepeatChangesNothing(t: Tables, o: Membership, signature: Signature, calls: seq<Call>, check: SignatureCheck)
    requires Sound(t, check)
    ensures ApplyMembership(t, o, signature, check).1.Ok? ==>
      var later := Run(ApplyMembership(t, o, signature, check).0, calls, check);
      var (u, r) := ApplyMembership(later, o, signature, check);
      u == later && (r == Ok(true) || r == Err(Unauthorized))
  {
    hide Payload, ParsePayload;
    if ApplyMembership(t, o, signature, check).1.Ok? {
      var u := ApplyMembership(t, o, signature, check).0;
      MembershipSound(t, o, signature, check);
      RunSound(u, calls, check);
      hide Run, Sound;
      var later := Run(u, calls, check);
      assert later.operations[o.correlation] == u.operations[o.correlation];
      assert later.devices[o.author].publicKey == t.devices[o.author].publicKey;
    }
  }
}
