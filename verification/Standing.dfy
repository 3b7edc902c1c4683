/** Who belongs to a group, and with what role, read from the history of its groups alone; what that lets a
    device do; and where registered devices come from. */
module Standing {
  import opened Results
  import opened Bytes
  import opened Api
  import opened Delivery
  import opened DeliveryLaws
  import opened MembershipLog
  import Layouts

  datatype Standing = Outside | Inside(role: int)

  /* ---------- Standing, by the last act ---------- */

  /** What an act says of a device in a group, if anything. A signed operation names its group, target,
      role and direction at fixed places. */
  function Says(act: Act, group: Id, device: Id): Option<Standing> {
    match act
    case Created(g, d, _) => if g == group && d == device then Some(Inside(2)) else None
    case Added(g, d, _, role) => if g == group && d == device then Some(Inside(role)) else None
    case Signed(b) =>
      if |b| != 100 || b[49..65] != group || b[81..97] != device then None
      else if b[99] == 1 then Some(Outside)
      else Some(Inside(b[97] as int * 256 + b[98] as int))
  }

  function After(acts: seq<Act>, group: Id, device: Id): Standing {
    if acts == [] then Outside else
    match Says(acts[|acts| - 1], group, device)
    case Some(s) => s
    case None => After(acts[..|acts| - 1], group, device)
  }

  predicate StandsAs(members: map<(Id, Id), Member>, group: Id, device: Id, s: Standing) {
    match s
    case Outside => (group, device) in members ==> members[(group, device)].removed
    case Inside(role) =>
      && (group, device) in members && !members[(group, device)].removed
      && members[(group, device)].role == role
  }

  lemma PerformStands(members: map<(Id, Id), Member>, act: Act, devices: map<Id, Device>, group: Id, device: Id,
      s: Standing)
    requires StandsAs(members, group, device, s) && ActKnown(act, devices)
    ensures var said := Says(act, group, device);
      StandsAs(Perform(members, act, devices), group, device, if said.Some? then said.value else s)
  {
    if act.Signed? && |act.operation| == 100 {
      Layouts.SignedRead(act.operation, 97);
    }
    hide FromBigEndian;
  }

  lemma {:induction false} ReplayStands(acts: seq<Act>, devices: map<Id, Device>, group: Id, device: Id)
    requires ActsKnown(acts, devices)
    ensures StandsAs(MembershipLog.Replay(acts, devices), group, device, After(acts, group, device))
  {
    hide Perform, Says, StandsAs, ActKnown;
    if acts == [] {
      NobodyStands(group, device);
    } else {
      var n := |acts| - 1;
      assert ActKnown(acts[n], devices);
      ReplayStands(acts[..n], devices, group, device);
      PerformStands(MembershipLog.Replay(acts[..n], devices), acts[n], devices, group, device,
        After(acts[..n], group, device));
    }
  }

  lemma NobodyStands(group: Id, device: Id)
    ensures StandsAs(map[], group, device, Outside)
  {
  }

  /** The standing of a device in a group after some calls. */
  function StandingAfter(calls: seq<Call>, check: SignatureCheck, group: Id, device: Id): Standing {
    After(Acts(EMPTY, calls, check), group, device)
  }

  /** The member table agrees, in every reachable state. */
  lemma RunStands(calls: seq<Call>, check: SignatureCheck, group: Id, device: Id)
    ensures StandsAs(Run(EMPTY, calls, check).members, group, device, StandingAfter(calls, check, group, device))
  {
    hide MembershipLog.Replay, After, StandsAs, Run, Acts, ActsKnown;
    MembersAreReplay(calls, check);
    ReplayStands(Acts(EMPTY, calls, check), Run(EMPTY, calls, check).devices, group, device);
  }

  /* ---------- What standing is worth ---------- */

  /** A device is served a page of a group exactly while the last act that speaks of it let it in. */
  lemma MembersAreServed(calls: seq<Call>, check: SignatureCheck, group: Id, device: Id, after: int, limit: int,
      now: Time)
    ensures var t := Run(EMPTY, calls, check);
      SyncGroup(t, device, group, after, limit, now) ==
      if StandingAfter(calls, check, group, device).Inside? then Ok(Page(t.events, group, after, limit, now))
      else Err(Unauthorized)
  {
    RunStands(calls, check, group, device);
    hide Run, Page, StandingAfter;
  }

  /** While the last act put it out, or none let it in, it may neither upload nor administer: both are
      refused and change nothing. */
  lemma OutsidersAreRefused(calls: seq<Call>, check: SignatureCheck, e: UploadedEvent, o: Membership,
      signature: Signature, now: Time)
    ensures var t := Run(EMPTY, calls, check);
      StandingAfter(calls, check, e.group, e.author).Outside? ==>
        UploadEvent(t, e, now).0 == t && UploadEvent(t, e, now).1.Err?
    ensures var t := Run(EMPTY, calls, check);
      StandingAfter(calls, check, o.group, o.author).Outside? ==>
        ApplyMembership(t, o, signature, check).0 == t && ApplyMembership(t, o, signature, check).1.Err?
  {
    RunStands(calls, check, e.group, e.author);
    RunStands(calls, check, o.group, o.author);
    hide Run, StandingAfter, Payload, FindEvent, InsertEvent;
  }

  /** An operation is accepted only from a device that stands as an administrator then, on a signature by
      its key over the octets of the operation. */
  lemma OnlyAdministratorsAdminister(calls: seq<Call>, check: SignatureCheck, o: Membership, signature: Signature)
    ensures var t := Run(EMPTY, calls, check);
      ApplyMembership(t, o, signature, check).1.Ok? ==>
        && 0 <= o.role <= 2 && StandingAfter(calls, check, o.group, o.author) == Inside(2)
        && o.author in t.devices && check(t.devices[o.author].publicKey, Payload(o), signature)
  {
    RunStands(calls, check, o.group, o.author);
    hide Run, StandingAfter, Payload, RecordOperation;
  }

  /** How every operation is answered: an administrator's signed one is applied if it is new and fits the
      standing of its target, and an operation seen before is known or in conflict. */
  lemma ApplyAnswers(calls: seq<Call>, check: SignatureCheck, o: Membership, signature: Signature)
    ensures var t := Run(EMPTY, calls, check);
      ApplyMembership(t, o, signature, check).1 ==
      if !(0 <= o.role <= 2) then Err(InvalidInput)
      else if StandingAfter(calls, check, o.group, o.author) != Inside(2) || o.author !in t.devices
      then Err(Unauthorized)
      else if !check(t.devices[o.author].publicKey, Payload(o), signature) then Err(InvalidCredentials)
      else if o.correlation in t.operations then
        if t.operations[o.correlation].operation == Payload(o) && t.operations[o.correlation].signature == signature
        then Ok(true) else Err(Conflict)
      else if o.remove then
        if StandingAfter(calls, check, o.group, o.target).Inside? then Ok(false) else Err(InvalidInput)
      else if o.target in t.devices && !t.devices[o.target].revoked then Ok(false) else Err(InvalidInput)
  {
    RunStands(calls, check, o.group, o.author);
    RunStands(calls, check, o.group, o.target);
    hide Run, StandingAfter, Payload;
  }

  /* ---------- How standing changes ---------- */

  lemma ActsAppend(calls: seq<Call>, call: Call, check: SignatureCheck)
    ensures Acts(EMPTY, calls + [call], check) == Acts(EMPTY, calls, check) +
      match ActOf(Run(EMPTY, calls, check), call, check) case Some(act) => [act] case None => []
  {
    hide ActOf, Run;
    assert (calls + [call])[..|calls|] == calls;
  }

  /** An applied operation gives its target the standing it says. */
  lemma OperationsTakeEffect(calls: seq<Call>, o: Membership, signature: Signature, check: SignatureCheck)
    ensures ApplyMembership(Run(EMPTY, calls, check), o, signature, check).1 == Ok(false) ==>
      StandingAfter(calls + [Apply(o, signature)], check, o.group, o.target) ==
        if o.remove then Outside else Inside(o.role)
  {
    var t := Run(EMPTY, calls, check);
    if ApplyMembership(t, o, signature, check).1 == Ok(false) {
      ActsAppend(calls, Apply(o, signature), check);
      Layouts.OperationOctets(o);
      var acts := Acts(EMPTY, calls, check);
      hide Run, Acts, ApplyMembership, Payload;
      assert (acts + [Signed(Payload(o))])[..|acts|] == acts;
    }
  }

  /** A group's creator stands as its administrator, and a direct add gives the role it names. */
  lemma GroupCallsTakeEffect(calls: seq<Call>, group: Id, device: Id, account: Bytes32, role: int,
      check: SignatureCheck)
    ensures CreateGroup(Run(EMPTY, calls, check), group, device, account).1.Ok? ==>
      StandingAfter(calls + [NewGroup(group, device, account)], check, group, device) == Inside(2)
    ensures AddMember(Run(EMPTY, calls, check), group, device, account, role).1.Ok? ==>
      0 <= role <= 2 && StandingAfter(calls + [Add(group, device, account, role)], check, group, device) == Inside(role)
  {
    ActsAppend(calls, NewGroup(group, device, account), check);
    ActsAppend(calls, Add(group, device, account, role), check);
    var acts := Acts(EMPTY, calls, check);
    hide Run, Acts;
    assert (acts + [Created(group, device, account)])[..|acts|] == acts;
    assert (acts + [Added(group, device, account, role)])[..|acts|] == acts;
  }

  /** What is needed to create a group, and to be added directly. */
  lemma GroupCallsSucceedIff(t: Tables, group: Id, device: Id, account: Bytes32, role: int)
    requires MembersKnown(t)
    ensures CreateGroup(t, group, device, account).1.Ok? <==>
      device in t.devices && t.devices[device].account == account && !t.devices[device].revoked && group !in t.groups
    ensures AddMember(t, group, device, account, role).1.Ok? <==>
      && group in t.groups && device in t.devices && account in t.accounts && 0 <= role <= 2
      && (group, device) !in t.members
  {
  }

  /** Who created a group, by its acts. */
  function CreatorOf(acts: seq<Act>, group: Id): Option<Id> {
    if acts == [] then None else
    var act := acts[|acts| - 1];
    if act.Created? && act.group == group then Some(act.device) else CreatorOf(acts[..|acts| - 1], group)
  }

  /** In every run the groups are those created, each under its creator. */
  lemma {:induction false} GroupsAreCreated(calls: seq<Call>, check: SignatureCheck, group: Id)
    ensures var t := Run(EMPTY, calls, check); var creator := CreatorOf(Acts(EMPTY, calls, check), group);
      if group in t.groups then creator == Some(t.groups[group]) else creator == None
    decreases |calls|
  {
    hide ApplyMembership, UploadEvent, Cleanup, RegisterDevice, RevokeDevice, Payload;
    if calls != [] {
      var n := |calls| - 1;
      var before := Acts(EMPTY, calls[..n], check);
      GroupsAreCreated(calls[..n], check, group);
      var act := ActOf(Run(EMPTY, calls[..n], check), calls[n], check);
      assert act.Some? ==> (before + [act.value])[..|before|] == before;
      StepGroups(Run(EMPTY, calls[..n], check), calls[n], check);
      hide Step;
    }
  }

  lemma StepGroups(t: Tables, call: Call, check: SignatureCheck)
    ensures Step(t, call, check).groups ==
      if call.NewGroup? && CreateGroup(t, call.group, call.device, call.account).1.Ok?
      then t.groups[call.group := call.device]
      else t.groups
  {
    match call
    case Apply(o, signature) => ApplyTouchesMembers(t, o, signature, check); hide ApplyMembership;
    case Upload(e, now) => UploadTouchesEvents(t, e, now); hide UploadEvent;
    case _ => hide ApplyMembership, UploadEvent, MayDelete;
  }

  /** No act lets the device in. */
  ghost predicate NobodyLetsIn(acts: seq<Act>, group: Id, device: Id) {
    forall i :: 0 <= i < |acts| ==> !LetsIn(acts[i], group, device)
  }

  predicate LetsIn(act: Act, group: Id, device: Id) {
    Says(act, group, device).Some? && Says(act, group, device).value.Inside?
  }

  lemma {:induction false} StaysOutside(acts: seq<Act>, more: seq<Act>, group: Id, device: Id)
    requires After(acts, group, device).Outside? && NobodyLetsIn(more, group, device)
    ensures After(acts + more, group, device).Outside?
    decreases |more|
  {
    hide Says;
    if more == [] {
      assert acts + more == acts;
    } else {
      var n := |more| - 1;
      assert (acts + more)[..|acts| + n] == acts + more[..n];
      assert !LetsIn(more[n], group, device);
      StaysOutside(acts, more[..n], group, device);
    }
  }

  lemma {:induction false} ActsGrow(calls: seq<Call>, more: seq<Call>, check: SignatureCheck)
    ensures Acts(EMPTY, calls, check) <= Acts(EMPTY, calls + more, check)
    decreases |more|
  {
    hide ActOf, Run;
    if more == [] {
      assert calls + more == calls;
    } else {
      var n := |more| - 1;
      assert (calls + more)[..|calls| + n] == calls + more[..n];
      ActsGrow(calls, more[..n], check);
    }
  }

  /** Once out, a device stays out in every continuation until an act lets it in again. */
  lemma RemovedStaysOut(calls: seq<Call>, more: seq<Call>, check: SignatureCheck, group: Id, device: Id)
    requires StandingAfter(calls, check, group, device).Outside?
    ensures var acts, all := Acts(EMPTY, calls, check), Acts(EMPTY, calls + more, check);
      && acts <= all
      && (NobodyLetsIn(all[|acts|..], group, device) ==> StandingAfter(calls + more, check, group, device).Outside?)
  {
    ActsGrow(calls, more, check);
    hide Acts, After, NobodyLetsIn;
    var acts, all := Acts(EMPTY, calls, check), Acts(EMPTY, calls + more, check);
    if NobodyLetsIn(all[|acts|..], group, device) {
      StaysOutside(acts, all[|acts|..], group, device);
      assert acts + all[|acts|..] == all;
    }
  }

  /* ---------- Where devices come from ---------- */

  /** What it takes to register a device. */
  lemma RegisterSucceedsIff(t: Tables, account: Bytes32, root: Bytes32, c: DeviceCertificate, certified: bool)
    ensures RegisterDevice(t, account, root, c, certified).1.Ok? <==>
      && certified && c.device !in t.devices && c.device !in t.certificates && c.issuedAt < 0x8000_0000_0000_0000
      && (if account in t.accounts then t.accounts[account] == root else root !in t.accounts.Values)
      && forall d :: d in t.devices && t.devices[d].account == account ==> t.devices[d].publicKey != c.publicKey
    ensures !certified ==> RegisterDevice(t, account, root, c, certified) == (t, Err(InvalidCredentials))
  {
  }

  /** Call `k` registered the device, on a certificate that checked out. */
  ghost predicate RegisteredBy(calls: seq<Call>, k: nat, device: Id, row: Device, certificate: CertificateRow) {
    && k < |calls| && calls[k].Register? && calls[k].certified && calls[k].account == row.account
    && calls[k].certificate == DeviceCertificate(device, row.publicKey, certificate.issuedAt, certificate.signature)
  }

  ghost predicate DevicesFrom(t: Tables, calls: seq<Call>) {
    forall d :: d in t.devices ==> d in t.certificates && ComesFrom(calls, d, t.devices[d], t.certificates[d])
  }

  ghost predicate ComesFrom(calls: seq<Call>, device: Id, row: Device, certificate: CertificateRow) {
    && (exists k: nat :: RegisteredBy(calls, k, device, row, certificate))
    && (row.revoked ==> Revoke(device) in calls)
  }

  lemma ComesFromLater(calls: seq<Call>, call: Call, device: Id, row: Device, certificate: CertificateRow)
    requires ComesFrom(calls, device, row, certificate)
    ensures ComesFrom(calls + [call], device, row, certificate)
  {
    var k: nat :| RegisteredBy(calls, k, device, row, certificate);
    assert RegisteredBy(calls + [call], k, device, row, certificate);
  }

  lemma StepDevicesFrom(t: Tables, calls: seq<Call>, call: Call, check: SignatureCheck)
    requires DevicesFrom(t, calls)
    ensures DevicesFrom(Step(t, call, check), calls + [call])
  {
    hide ComesFrom;
    var u := Step(t, call, check);
    forall d | d in t.devices
      ensures ComesFrom(calls + [call], d, t.devices[d], t.certificates[d])
    {
      ComesFromLater(calls, call, d, t.devices[d], t.certificates[d]);
    }
    match call
    case Register(account, root, certificate, certified) =>
      RegisteredFrom(t, calls, account, root, certificate, certified);
    case Revoke(device) => RevokedFrom(t, calls, device);
    case _ => RegistryUntouched(t, call, check); hide Step;
  }

  lemma RegisteredFrom(t: Tables, calls: seq<Call>, account: Bytes32, root: Bytes32, c: DeviceCertificate,
      certified: bool)
    requires DevicesFrom(t, calls + [Register(account, root, c, certified)])
    ensures DevicesFrom(RegisterDevice(t, account, root, c, certified).0,
      calls + [Register(account, root, c, certified)])
  {
    var u := RegisterDevice(t, account, root, c, certified).0;
    if RegisterDevice(t, account, root, c, certified).1.Ok? {
      assert RegisteredBy(calls + [Register(account, root, c, certified)], |calls|, c.device, u.devices[c.device],
        u.certificates[c.device]);
    }
  }

  lemma RevokedFrom(t: Tables, calls: seq<Call>, device: Id)
    requires DevicesFrom(t, calls + [Revoke(device)])
    ensures DevicesFrom(RevokeDevice(t, device), calls + [Revoke(device)])
  {
    RevokedDevices(t, device);
    hide RevokeDevice;
    var u, all := RevokeDevice(t, device), calls + [Revoke(device)];
    assert all[|calls|] == Revoke(device);
    forall d | d in u.devices
      ensures ComesFrom(all, d, u.devices[d], u.certificates[d])
    {
      assert ComesFrom(all, d, t.devices[d], t.certificates[d]);
      var k: nat :| RegisteredBy(all, k, d, t.devices[d], t.certificates[d]);
      assert RegisteredBy(all, k, d, u.devices[d], u.certificates[d]);
    }
  }

  /** In every reachable state each device goes back to a call that registered it on a certificate that
      checked out, with the account, key and certificate that it has; and a revoked one was revoked. */
  lemma {:induction false} DevicesAreCertified(calls: seq<Call>, check: SignatureCheck)
    ensures DevicesFrom(Run(EMPTY, calls, check), calls)
    decreases |calls|
  {
    hide Step, ComesFrom;
    if calls != [] {
      var n := |calls| - 1;
      DevicesAreCertified(calls[..n], check);
      StepDevicesFrom(Run(EMPTY, calls[..n], check), calls[..n], calls[n], check);
      assert calls[..n] + [calls[n]] == calls;
    }
  }
}
