/** Optional exact usernames: claimed, changed, released, and kept out of reach for 30 days after a
    release. Names are canonical already; `None` stands for input that has no canonical form. */
module Usernames {
  import opened Results
  import opened Api

  const COOLDOWN := 30 * 86400

  type Name = string

  const RESERVED: set<Name> := {"admin", "support", "security", "resilient", "system"}

  datatype Holding = Holding(account: Bytes32, released: Option<Time>)
  datatype Cooldown = Cooldown(previous: Bytes32, releaseAfter: Time)
  datatype Tables = Tables(accounts: set<Bytes32>, usernames: map<Name, Holding>, cooldowns: map<Name, Cooldown>)

  predicate Holds(t: Tables, account: Bytes32, name: Name) {
    name in t.usernames && t.usernames[name] == Holding(account, None)
  }

  predicate Cooling(t: Tables, name: Name, now: Time) {
    name in t.cooldowns && t.cooldowns[name].releaseAfter > now
  }

  ghost function Current(t: Tables, account: Bytes32): (r: Option<Name>)
    ensures r.Some? ==> Holds(t, account, r.value)
    ensures r.None? ==> forall name :: name in t.usernames ==> !Holds(t, account, name)
  {
    if name :| name in t.usernames && Holds(t, account, name) then Some(name) else None
  }

  /** A released row that is no longer cooling makes way before the insert is tried; a refused insert
      rolls that back. */
  ghost function Claim(t: Tables, account: Bytes32, requested: Option<Name>, now: Time): (Tables,
      Result<Name, ApiError>) {
    if requested.None? || requested.value in RESERVED then (t, Err(InvalidInput)) else
    var name := requested.value;
    var kept := if name in t.usernames && t.usernames[name].released.Some? && !Cooling(t, name, now)
      then t.usernames - {name} else t.usernames;
    if name in kept || Current(t, account).Some? then (t, Err(Conflict))
    else if account !in t.accounts then (t, Err(Database))
    else (t.(usernames := kept[name := Holding(account, None)]), Ok(name))
  }

  function Released(t: Tables, account: Bytes32, name: Name, now: Time): Tables
    requires name in t.usernames
  {
    t.(usernames := t.usernames[name := t.usernames[name].(released := Some(now))],
       cooldowns := t.cooldowns[name := Cooldown(account, now + COOLDOWN)])
  }

  ghost function Change(t: Tables, account: Bytes32, requested: Option<Name>, now: Time): (Tables,
      Result<Name, ApiError>) {
    if requested.None? || requested.value in RESERVED then (t, Err(InvalidInput)) else
    var next := requested.value;
    var current := Current(t, account);
    if current == Some(next) then (t, Ok(next))
    else if next in t.usernames && (t.usernames[next].released.None? || Cooling(t, next, now)) then (t, Err(Conflict))
    else if account !in t.accounts then (t, Err(Database))
    else
      var freed := t.(usernames := t.usernames - {next});
      var left := if current.Some? then Released(freed, account, current.value, now) else freed;
      (left.(usernames := left.usernames[next := Holding(account, None)]), Ok(next))
  }

  ghost function Release(t: Tables, account: Bytes32, now: Time): (Tables, Result<(), ApiError>) {
    match Current(t, account)
    case None => (t, Err(InvalidInput))
    case Some(name) => (Released(t, account, name, now), Ok(()))
  }

  /* ---------- Runs and their history ---------- */

  datatype Call =
    | DoClaim(account: Bytes32, requested: Option<Name>)
    | DoChange(account: Bytes32, requested: Option<Name>)
    | DoRelease(account: Bytes32)

  datatype Timed = Timed(call: Call, now: Time)

  /** A name was given to an account, or given up by it. */
  datatype Event = Granted(name: Name, account: Bytes32, at: Time) | GivenUp(name: Name, account: Bytes32, at: Time)

  ghost function Step(t: Tables, c: Timed): Tables {
    match c.call
    case DoClaim(account, requested) => Claim(t, account, requested, c.now).0
    case DoChange(account, requested) => Change(t, account, requested, c.now).0
    case DoRelease(account) => Release(t, account, c.now).0
  }

  /** What a call does to names, as its caller is told. */
  ghost function Events(t: Tables, c: Timed): seq<Event> {
    match c.call
    case DoClaim(account, requested) =>
      var r := Claim(t, account, requested, c.now).1;
      if r.Ok? then [Granted(r.value, account, c.now)] else []
    case DoChange(account, requested) =>
      var r := Change(t, account, requested, c.now).1;
      var current := Current(t, account);
      if r.Err? || current == Some(r.value) then []
      else if current.Some? then [GivenUp(current.value, account, c.now), Granted(r.value, account, c.now)]
      else [Granted(r.value, account, c.now)]
    case DoRelease(account) =>
      var current := Current(t, account);
      if current.Some? then [GivenUp(current.value, account, c.now)] else []
  }

  ghost function Run(t: Tables, calls: seq<Timed>): Tables
    decreases |calls|
  {
    if calls == [] then t else Step(Run(t, calls[..|calls| - 1]), calls[|calls| - 1])
  }

  ghost function History(t: Tables, calls: seq<Timed>): seq<Event>
    decreases |calls|
  {
    if calls == [] then [] else
    var before := calls[..|calls| - 1];
    History(t, before) + Events(Run(t, before), calls[|calls| - 1])
  }

  ghost predicate Monotone(calls: seq<Timed>) {
    forall i, j :: 0 <= i < j < |calls| ==> calls[i].now <= calls[j].now
  }

  /** The last event of a name. */
  function Last(history: seq<Event>, name: Name): Option<Event> {
    if history == [] then None
    else if history[|history| - 1].name == name then Some(history[|history| - 1])
    else Last(history[..|history| - 1], name)
  }

  ghost predicate OneNameEach(t: Tables) {
    forall name, other :: name in t.usernames && other in t.usernames && name != other
      && t.usernames[name].released.None? && t.usernames[other].released.None?
      ==> t.usernames[name].account != t.usernames[other].account
  }

  /** The row and the cooldown of a name whose last event is given. */
  predicate RowAfter(t: Tables, name: Name, last: Option<Event>) {
    if last.None? then name !in t.usernames
    else if last.value.Granted? then Holds(t, last.value.account, name)
    else
      && name in t.usernames && t.usernames[name] == Holding(last.value.account, Some(last.value.at))
      && name in t.cooldowns && t.cooldowns[name] == Cooldown(last.value.account, last.value.at + 2592000)
  }

  /** The tables are what the history says, and no account holds two names. */
  ghost predicate Reflects(t: Tables, history: seq<Event>) {
    OneNameEach(t) && forall name: Name :: RowAfter(t, name, Last(history, name))
  }

  /** An event may follow a history: a grant needs a name that is free or was given up 30 days ago, a
      release needs the holder. */
  predicate Follows(history: seq<Event>, e: Event) {
    var last := Last(history, e.name);
    if e.Granted? then last.None? || (last.value.GivenUp? && e.at >= last.value.at + 2592000)
    else last.Some? && last.value.Granted? && last.value.account == e.account
  }

  ghost predicate Lawful(history: seq<Event>) {
    forall i :: 0 <= i < |history| ==> Follows(history[..i], history[i])
  }

  lemma LastAppend(history: seq<Event>, e: Event)
    ensures forall name: Name :: Last(history + [e], name) == if e.name == name then Some(e) else Last(history, name)
  {
    assert (history + [e])[..|history|] == history;
  }

  lemma LawfulAppend(history: seq<Event>, e: Event)
    requires Lawful(history) && Follows(history, e)
    ensures Lawful(history + [e])
  {
    forall i | 0 <= i < |history + [e]|
      ensures Follows((history + [e])[..i], (history + [e])[i])
    {
      assert (history + [e])[..i] == history[..i];
      assert i == |history| ==> history[..i] == history;
    }
  }

  lemma Grant(t: Tables, history: seq<Event>, account: Bytes32, name: Name, now: Time)
    requires Reflects(t, history) && Lawful(history) && Current(t, account).None?
    requires name !in t.usernames || (t.usernames[name].released.Some? && !Cooling(t, name, now))
    ensures var h := history + [Granted(name, account, now)];
      Reflects(t.(usernames := t.usernames[name := Holding(account, None)]), h) && Lawful(h)
  {
    var e := Granted(name, account, now);
    LastAppend(history, e);
    LawfulAppend(history, e);
    hide Last;
  }

  lemma GiveUp(t: Tables, history: seq<Event>, account: Bytes32, now: Time)
    requires Reflects(t, history) && Lawful(history) && Current(t, account).Some?
    ensures var name := Current(t, account).value; var h := history + [GivenUp(name, account, now)];
      Reflects(Released(t, account, name, now), h) && Lawful(h)
        && Current(Released(t, account, name, now), account).None?
  {
    var name := Current(t, account).value;
    var e := GivenUp(name, account, now);
    LastAppend(history, e);
    assert Follows(history, e) by {
      assert RowAfter(t, name, Last(history, name));
      hide Last, OneNameEach;
    }
    LawfulAppend(history, e);
    hide Last, Lawful, Follows;
    ReleaseReflects(t, Released(t, account, name, now), history, e);
    hide Reflects;
  }

  lemma ReleaseReflects(t: Tables, u: Tables, history: seq<Event>, e: Event)
    requires e.GivenUp? && Reflects(t, history) && Holds(t, e.account, e.name)
    requires u == Released(t, e.account, e.name, e.at)
    ensures Reflects(u, history + [e])
  {
    LastAppend(history, e);
    hide Last;
    assert OneNameEach(u);
    forall name: Name
      ensures RowAfter(u, name, Last(history + [e], name))
    {
      assert RowAfter(t, name, Last(history, name));
      hide OneNameEach;
    }
  }

  lemma StepReflects(t: Tables, history: seq<Event>, c: Timed)
    requires Reflects(t, history) && Lawful(history)
    ensures Reflects(Step(t, c), history + Events(t, c)) && Lawful(history + Events(t, c))
  {
    hide Reflects, Lawful, Released, Holds;
    assert history + [] == history;
    match c.call
    case DoRelease(account) =>
      if Current(t, account).Some? {
        GiveUp(t, history, account, c.now);
      }
    case DoClaim(account, requested) =>
      if Claim(t, account, requested, c.now).1.Ok? {
        var name := requested.value;
        Grant(t, history, account, name, c.now);
        assert (t.usernames - {name})[name := Holding(account, None)] == t.usernames[name := Holding(account, None)];
      }
    case DoChange(account, requested) =>
      ChangeReflects(t, history, account, requested, c.now);
  }

  lemma ChangeReflects(t: Tables, history: seq<Event>, account: Bytes32, requested: Option<Name>, now: Time)
    requires Reflects(t, history) && Lawful(history)
    ensures var c := Timed(DoChange(account, requested), now);
      Reflects(Step(t, c), history + Events(t, c)) && Lawful(history + Events(t, c))
  {
    hide Reflects, Lawful, Last, Claim, Release;
    var (u, r) := Change(t, account, requested, now);
    var current := Current(t, account);
    assert history + [] == history;
    if r.Ok? && current != Some(r.value) {
      var next := r.value;
      if current.Some? {
        var left := Released(t, account, current.value, now);
        GiveUp(t, history, account, now);
        Grant(left, history + [GivenUp(current.value, account, now)], account, next, now);
        assert Released(t.(usernames := t.usernames - {next}), account, current.value,
          now).usernames[next := Holding(account, None)]
            == left.usernames[next := Holding(account, None)];
        assert history + [GivenUp(current.value, account, now)] + [Granted(next, account, now)]
            == history + [GivenUp(current.value, account, now), Granted(next, account, now)];
      } else {
        Grant(t, history, account, next, now);
        assert (t.usernames - {next})[next := Holding(account, None)] == t.usernames[next := Holding(account, None)];
      }
    }
  }

  /** Over every run the tables reflect the history, so each name has at most one holder, each account
      holds at most one name, and every released row has its cooldown; and the history is lawful. */
  lemma {:induction false} RunReflects(t: Tables, calls: seq<Timed>)
    requires t.usernames == map[]
    ensures Reflects(Run(t, calls), History(t, calls)) && Lawful(History(t, calls))
    decreases |calls|
  {
    hide Step, Events;
    if calls != [] {
      hide Reflects, Lawful;
      RunReflects(t, calls[..|calls| - 1]);
      StepReflects(Run(t, calls[..|calls| - 1]), History(t, calls[..|calls| - 1]), calls[|calls| - 1]);
    }
  }

  /* ---------- The cooldown over a whole history ---------- */

  lemma {:induction false} HistoryTimes(t: Tables, calls: seq<Timed>)
    requires Monotone(calls)
    ensures forall i, j :: 0 <= i < j < |History(t, calls)| ==> History(t, calls)[i].at <= History(t, calls)[j].at
    ensures calls != [] ==> forall e :: e in History(t, calls) ==> e.at <= calls[|calls| - 1].now
    ensures calls == [] ==> History(t, calls) == []
    decreases |calls|
  {
    if calls != [] {
      var n := |calls| - 1;
      HistoryTimes(t, calls[..n]);
      var before := History(t, calls[..n]);
      EventsNow(Run(t, calls[..n]), calls[n]);
      hide Events;
      assert forall e :: e in before ==> e.at <= calls[n].now;
      assert forall i :: 0 <= i < |before| ==> before[i] in before;
    }
  }

  lemma EventsNow(t: Tables, c: Timed)
    ensures forall i :: 0 <= i < |Events(t, c)| ==> Events(t, c)[i].at == c.now
  {
  }

  lemma {:induction false} LastIsLater(history: seq<Event>, i: nat)
    requires i < |history|
    requires forall i, j :: 0 <= i < j < |history| ==> history[i].at <= history[j].at
    ensures Last(history, history[i].name).Some? && Last(history, history[i].name).value.at >= history[i].at
    decreases |history|
  {
    var n := |history| - 1;
    if history[n].name != history[i].name {
      LastIsLater(history[..n], i);
    }
  }

  /** Whoever gave a name up, and however often: no later grant of it, by claim or change and to any
      account, comes before 30 days have passed. */
  lemma NoEarlyRegrant(t: Tables, calls: seq<Timed>, i: nat, j: nat)
    requires t.usernames == map[] && Monotone(calls)
    ensures var h := History(t, calls);
      i < j < |h| && h[i].GivenUp? && h[j].Granted? && h[i].name == h[j].name ==> h[j].at >= h[i].at + 2592000
  {
    var h := History(t, calls);
    RunReflects(t, calls);
    HistoryTimes(t, calls);
    hide History, Reflects;
    if i < j < |h| && h[i].GivenUp? && h[j].Granted? && h[i].name == h[j].name {
      assert Follows(h[..j], h[j]);
      LastIsLater(h[..j], i);
    }
  }

  /** One call keeps the constraint that an account holds at most one name. */
  lemma StepKeepsOneName(t: Tables, c: Timed)
    requires OneNameEach(t)
    ensures OneNameEach(Step(t, c))
  {
  }

  /* ---------- Who gets a name ---------- */

  /** By its last event the account holds the name. */
  predicate HeldBy(history: seq<Event>, name: Name, account: Bytes32) {
    var last := Last(history, name);
    last.Some? && last.value.Granted? && last.value.account == account
  }

  ghost predicate HoldsAny(history: seq<Event>, account: Bytes32) {
    exists name: Name :: HeldBy(history, name, account)
  }

  /** The name was never granted, or was given up 30 days ago or more. */
  predicate Available(history: seq<Event>, name: Name, now: Time) {
    var last := Last(history, name);
    last.None? || (last.value.GivenUp? && now >= last.value.at + 2592000)
  }

  /** There is a canonical name, and it is not one of the five that nobody may have. */
  predicate Permitted(requested: Option<Name>) {
    requested.Some? && requested.value !in {"admin", "support", "security", "resilient", "system"}
  }

  lemma PermittedNames(requested: Option<Name>)
    ensures Permitted(requested) <==> requested.Some? && requested.value !in RESERVED
  {
  }

  lemma {:induction false} AccountsStay(t: Tables, calls: seq<Timed>)
    ensures Run(t, calls).accounts == t.accounts
    decreases |calls|
  {
    if calls != [] {
      AccountsStay(t, calls[..|calls| - 1]);
    }
  }

  /** A row read off the history. */
  lemma RowTold(t: Tables, history: seq<Event>, name: Name, account: Bytes32, now: Time)
    requires Reflects(t, history)
    ensures Holds(t, account, name) <==> HeldBy(history, name, account)
    ensures (name !in t.usernames || (t.usernames[name].released.Some? && !Cooling(t, name, now))) <==>
      Available(history, name, now)
  {
    assert RowAfter(t, name, Last(history, name));
    hide Last, OneNameEach;
  }

  /** After any run, a registered account may claim exactly an unreserved name that is available, and only
      while it holds none; it may change to exactly such a name, or to the one it holds; and it may release
      exactly what it holds. */
  lemma GrantedIff(t: Tables, calls: seq<Timed>, account: Bytes32, requested: Option<Name>, now: Time)
    requires t.usernames == map[]
    ensures var u := Run(t, calls); var h := History(t, calls);
      && Claim(u, account, requested, now).1 ==
         (if !Permitted(requested) then Err(InvalidInput)
          else if !Available(h, requested.value, now) || HoldsAny(h, account) then Err(Conflict)
          else if account !in t.accounts then Err(Database) else Ok(requested.value))
      && Change(u, account, requested, now).1 ==
         (if !Permitted(requested) then Err(InvalidInput)
          else if HeldBy(h, requested.value, account) then Ok(requested.value)
          else if !Available(h, requested.value, now) then Err(Conflict)
          else if account !in t.accounts then Err(Database) else Ok(requested.value))
      && Release(u, account, now).1 == (if HoldsAny(h, account) then Ok(()) else Err(InvalidInput))
  {
    RunReflects(t, calls);
    AccountsStay(t, calls);
    PermittedNames(requested);
    hide Run, History, Reflects, Available, HeldBy, Cooling, Permitted, RESERVED;
    var u, h := Run(t, calls), History(t, calls);
    forall name: Name
      ensures Holds(u, account, name) <==> HeldBy(h, name, account)
    {
      RowTold(u, h, name, account, now);
    }
    if requested.Some? {
      RowTold(u, h, requested.value, account, now);
      HolderIsCurrent(u, h, account, requested.value);
    }
  }

  lemma HolderIsCurrent(t: Tables, history: seq<Event>, account: Bytes32, name: Name)
    requires Reflects(t, history)
    ensures Holds(t, account, name) <==> Current(t, account) == Some(name)
  {
    if Holds(t, account, name) {
      assert Current(t, account).Some?;
    }
  }
}
