/** Joining an armed host: the request checks, the pending and decision files, the session
    that polls them, and the two ways an operator's decision gets written. */
module Join {
  import opened Foundations
  import opened Numbers
  import Material
  import DeviceStore
  import Bootstrap

  // ---- the request ----

  datatype Request = Request(
    version: int,
    deviceId: DeviceId,
    name: Bytes,
    key: Key32,
    capabilities: seq<DeviceStore.Capability>,
    ts: i64,
    signature: Material.Signature
  )

  datatype Refusal = BadVersion | IdMismatch | BadSignature | TimestampOutOfRange

  function JoinMaterial(id: DeviceId, name: Bytes, ts: i64): Bytes
  {
    id.bytes + name + TimestampBytes(ts) + Material.Ascii("mymesh-join-v1")
  }

  const SKEW := 3600

  /** 64-bit wrap-around, as in a release build (a debug build panics instead). */
  function Wrap64(x: int): i64
  {
    (x + TWO_63) % TWO_64 - TWO_63
  }

  function WrappingAbs(x: i64): i64
  {
    if x < 0 then Wrap64(-(x as int)) else x
  }

  predicate TooFar(now: i64, ts: i64)
  {
    WrappingAbs(Wrap64(now - ts)) > SKEW
  }

  /** Which times pass the clock check: within an hour of the clock; or, as the distance and its
      absolute value wrap, so far away that they come round to that, or exactly 2^63 away. */
  predicate ClockAgrees(now: i64, ts: i64)
  {
    var d: int := now as int - ts as int;
    -SKEW <= d <= SKEW || d >= TWO_64 - SKEW || d <= SKEW - TWO_64 || d == TWO_63 || d == 0 - TWO_63
  }

  lemma TooFarIffDisagrees(now: i64, ts: i64)
    ensures TooFar(now, ts) <==> !ClockAgrees(now, ts)
  {
    var d: int := now as int - ts as int;
    if d >= TWO_63 {
      assert (d + TWO_63) % TWO_64 == d - TWO_63;
    } else if d < 0 - TWO_63 {
      assert (d + TWO_63) % TWO_64 == d + TWO_63 + TWO_64;
    } else {
      assert (d + TWO_63) % TWO_64 == d + TWO_63;
    }
  }

  /** On a clock after 1970 the check is the one intended, but for a single instant 2^63 seconds
      back, whose distance does not fit: its absolute value wraps to a negative and passes. */
  lemma TooFarIff(now: i64, ts: i64)
    requires 0 <= now < TWO_63 - SKEW
    ensures TooFar(now, ts) <==> !(-3600 <= now - ts <= 3600) && ts != now - TWO_63
  {
    TooFarIffDisagrees(now, ts);
  }

  function Vet(r: Request, peer: DeviceId, now: i64): Option<Refusal>
  {
    if r.version != 1 then Some(BadVersion)
    else if r.deviceId != peer || r.key != r.deviceId.bytes then Some(IdMismatch)
    else if !Material.Verify(DeviceId(r.key), JoinMaterial(r.deviceId, r.name, r.ts), r.signature) then Some(BadSignature)
    else if TooFar(now, r.ts) then Some(TimestampOutOfRange)
    else None
  }

  /** A request as it should be: this version, the peer's own, signed by the device itself over its
      id, name and time, and of about now. */
  predicate Genuine(r: Request, peer: DeviceId, now: i64)
  {
    && r.version == 1
    && r.deviceId == peer && r.key == peer.bytes
    && r.signature == Material.Signature(peer, peer.bytes + r.name + TimestampBytes(r.ts) + Material.Ascii("mymesh-join-v1"))
    && ClockAgrees(now, r.ts)
  }

  /** The checks let through exactly the genuine requests, and name what they refuse. */
  lemma VetIffGenuine(r: Request, peer: DeviceId, now: i64)
    ensures Vet(r, peer, now) == None <==> Genuine(r, peer, now)
    ensures Vet(r, peer, now) == Some(BadVersion) <==> r.version != 1
    ensures Vet(r, peer, now) == Some(IdMismatch) <==> r.version == 1 && !(r.deviceId == peer && r.key == peer.bytes)
    ensures Vet(r, peer, now) == Some(TimestampOutOfRange) ==> !ClockAgrees(now, r.ts)
  {
    TooFarIffDisagrees(now, r.ts);
  }

  /** What is signed says who, under which name and when. */
  lemma JoinMaterialInjective(id1: DeviceId, name1: Bytes, ts1: i64, id2: DeviceId, name2: Bytes, ts2: i64)
    ensures JoinMaterial(id1, name1, ts1) == JoinMaterial(id2, name2, ts2) <==> id1 == id2 && name1 == name2 && ts1 == ts2
  {
    var end := Material.Ascii("mymesh-join-v1");
    if JoinMaterial(id1, name1, ts1) == JoinMaterial(id2, name2, ts2) {
      assert |name1| == |name2|;
      SplitEqual(id1.bytes + name1 + TimestampBytes(ts1), end, id2.bytes + name2 + TimestampBytes(ts2), end);
      SplitEqual(id1.bytes + name1, TimestampBytes(ts1), id2.bytes + name2, TimestampBytes(ts2));
      SplitEqual(id1.bytes, name1, id2.bytes, name2);
      TimestampBytesInjective(ts1, ts2);
    }
  }

  // ---- the pending and decision files ----

  datatype PendingJoin = PendingJoin(id: DeviceId, name: Bytes, capabilities: seq<DeviceStore.Capability>, receivedAt: int)
  datatype Decision = Accept | Deny(reason: string)

  /** One pending file and one decision file per id; `D` is what a decision file holds. */
  datatype Files<D> = Files(pending: map<DeviceId, PendingJoin>, decisions: map<DeviceId, D>)

  function WithPending<D>(f: Files<D>, p: PendingJoin): Files<D>
  {
    Files(f.pending[p.id := p], f.decisions - {p.id})
  }

  function WithDecision<D>(f: Files<D>, id: DeviceId, d: D): Files<D>
  {
    f.(decisions := f.decisions[id := d])
  }

  function Clear<D>(f: Files<D>, id: DeviceId): Files<D>
  {
    Files(f.pending - {id}, f.decisions - {id})
  }

  function Decided<D>(f: Files<D>, id: DeviceId): Option<D>
  {
    if id in f.decisions then Some(f.decisions[id]) else None
  }

  /** Taking a decision uses it up: both files go. */
  function AfterTake<D>(f: Files<D>, id: DeviceId): Files<D>
  {
    if id in f.decisions then Clear(f, id) else f
  }

  /** The HTTP decision: only for a pending request, which it takes off the list. */
  function WithPairDecision<D>(f: Files<D>, id: DeviceId, d: D): Files<D>
  {
    if id in f.pending then WithDecision(f, id, d).(pending := f.pending - {id}) else f
  }

  class JoinStore {
    var pending: map<DeviceId, PendingJoin>
    var decisions: map<DeviceId, Decision>

    ghost function View(): Files<Decision>
      reads this
    {
      Files(pending, decisions)
    }

    constructor ()
      ensures View() == Files(map[], map[])
    {
      pending, decisions := map[], map[];
    }

    /** A new request drops any decision left over for the same device. */
    method WritePending(p: PendingJoin)
      modifies this
      ensures View() == WithPending(old(View()), p)
      ensures pending == old(pending)[p.id := p] && decisions == old(decisions) - {p.id}
    {
      decisions := decisions - {p.id};
      pending := pending[p.id := p];
    }

    method WriteDecision(id: DeviceId, d: Decision)
      modifies this`decisions
      ensures View() == WithDecision(old(View()), id, d)
      ensures decisions == old(decisions)[id := d]
    {
      decisions := decisions[id := d];
    }

    method TakeDecision(id: DeviceId) returns (d: Option<Decision>)
      modifies this
      ensures d == Decided(old(View()), id) && View() == AfterTake(old(View()), id)
      ensures d == if id in old(decisions) then Some(old(decisions)[id]) else None
      ensures decisions == old(decisions) - {id}
      ensures pending == if id in old(decisions) then old(pending) - {id} else old(pending)
    {
      if id !in decisions {
        return None;
      }
      d := Some(decisions[id]);
      decisions := decisions - {id};
      pending := pending - {id};
    }

    method ClearPending(id: DeviceId)
      modifies this
      ensures View() == Clear(old(View()), id)
      ensures pending == old(pending) - {id} && decisions == old(decisions) - {id}
    {
      pending := pending - {id};
      decisions := decisions - {id};
    }

    /** The carrier's decide endpoint; `found` is false when nothing is pending for the id. */
    method PairDecide(id: DeviceId, d: Decision) returns (found: bool)
      modifies this
      ensures found <==> id in old(pending)
      ensures View() == WithPairDecision(old(View()), id, d)
      ensures found ==> decisions == old(decisions)[id := d] && pending == old(pending) - {id}
      ensures !found ==> decisions == old(decisions) && pending == old(pending)
    {
      found := id in pending;
      if !found {
        return;
      }
      WriteDecision(id, d);
      pending := pending - {id};
    }
  }

  // ---- the host's poll loop ----

  /** What one poll finds. */
  datatype Look<D> = Look(now: int, armed: bool, decided: Option<D>)
  datatype Verdict<D> = Keep | TimedOut | HostDisarmed | Taken(decision: D)

  function Settle<D>(look: Look<D>, deadline: int): Verdict<D>
  {
    if look.now > deadline then TimedOut
    else if look.decided.Some? then Taken(look.decided.value)
    else if look.armed then Keep
    else HostDisarmed
  }

  const POLL_MILLIS := 200

  /** Approval is waited for as long as arming lasts, and at least a minute. */
  function Deadline(started: int, armTimeoutSecs: nat): (d: int)
    ensures d >= started + 60_000 && d >= started + 1000 * armTimeoutSecs
    ensures d == started + 60_000 || d == started + 1000 * armTimeoutSecs
  {
    started + 1000 * (if armTimeoutSecs > 60 then armTimeoutSecs else 60)
  }

  /** Polls until something settles, whatever the files and the arm state do meanwhile. */
  method AwaitDecision(looks: nat -> Look<Decision>, started: int, armTimeoutSecs: nat)
    returns (decision: Decision, polls: nat)
    requires looks(0).now >= started
    requires forall i: nat :: looks(i + 1).now >= looks(i).now + POLL_MILLIS
    ensures var deadline := Deadline(started, armTimeoutSecs);
      && (forall i :: 0 <= i < polls ==> Settle(looks(i), deadline) == Keep)
      && Settle(looks(polls), deadline) != Keep
      && decision == (match Settle(looks(polls), deadline)
                      case Taken(d) => d
                      case TimedOut => Deny("approval timed out")
                      case _ => Deny("host disarmed before approval"))
      && POLL_MILLIS * polls <= deadline - started + POLL_MILLIS
      && (forall i :: 0 <= i < polls ==> looks(i).now <= deadline && looks(i).armed && looks(i).decided == None)
      && (looks(polls).now > deadline || !looks(polls).armed || looks(polls).decided.Some?)
      && (looks(polls).now <= deadline && looks(polls).decided.Some? ==> decision == looks(polls).decided.value)
      && (looks(polls).now > deadline || looks(polls).decided == None ==> decision.Deny?)
  {
    var deadline := started + 1000 * (if armTimeoutSecs > 60 then armTimeoutSecs else 60);
    polls := 0;
    while true
      invariant forall i :: 0 <= i < polls ==> Settle(looks(i), deadline) == Keep
      invariant looks(polls).now >= started + POLL_MILLIS * polls
      invariant POLL_MILLIS * polls <= deadline - started + POLL_MILLIS
      decreases deadline - looks(polls).now
    {
      var look := looks(polls);
      if look.now > deadline {
        return Deny("approval timed out"), polls;
      }
      if !look.armed {
        if look.decided.Some? {
          return look.decided.value, polls;
        }
        return Deny("host disarmed before approval"), polls;
      }
      if look.decided.Some? {
        return look.decided.value, polls;
      }
      polls := polls + 1;
    }
  }

  // ---- the whole control plane ----

  /** A decision file as the history sees it: decisions are numbered in the order written. */
  datatype Written = Written(decision: Decision, serial: nat)

  /** Who connected, and what the arm file and the clock said at that moment. */
  datatype Admission = Admission(peer: DeviceId, arm: Bootstrap.Arm, now: int)

  /** After an accept two replies are sent, the acceptance and the roster. */
  datatype Session =
    | Connected(peer: DeviceId)
    | Polling(joiner: DeviceId, request: Request, since: nat, deadline: int)
    | Replying(joiner: DeviceId, sent: nat)
    | Accepted(joiner: DeviceId)
    | CutOff(joiner: DeviceId)
    | Refused(joiner: DeviceId)

  /** A trust record made by a join: in which session, for whom, by which decision, how old the
      request was. */
  datatype Trusting = Trusting(session: nat, request: Request, since: nat, serial: nat)

  datatype State = State(
    arm: Bootstrap.Arm,
    now: int,                        // milliseconds
    files: Files<Written>,
    sessions: map<nat, Session>,
    trusted: set<DeviceId>,
    clock: nat,                      // counts decisions and requests written
    accepts: set<(nat, DeviceId)>,   // every Accept ever written: its number and its device
    admitted: map<nat, Admission>,   // every session ever connected
    checked: map<nat, i64>,          // when each polling session's request passed its checks
    log: seq<Trusting>
  )

  datatype Step =
    | Connect(sid: nat, peer: DeviceId)
    | Present(sid: nat, r: Request, seconds: i64, armTimeoutSecs: nat)
    | Poll(sid: nat)
    | SendReply(sid: nat, ok: bool)
    | CliDecide(id: DeviceId, d: Decision)
    | HttpDecide(id: DeviceId, d: Decision)
    | SetArm(arm: Bootstrap.Arm)
    | Tick(later: int)

  ghost predicate Enabled(s: State, step: Step)
  {
    match step
    case Connect(sid, _) => sid !in s.sessions && sid !in s.admitted && Bootstrap.EffectivelyArmed(s.arm, s.now)
    case Present(sid, _, _, _) => sid in s.sessions && s.sessions[sid].Connected?
    case Poll(sid) => sid in s.sessions && s.sessions[sid].Polling?
    case SendReply(sid, _) => sid in s.sessions && s.sessions[sid].Replying?
    case CliDecide(_, _) => true
    case HttpDecide(_, _) => true
    case SetArm(_) => true
    case Tick(later) => s.now <= later
  }

  ghost function Record(s: State, id: DeviceId, d: Decision): State
  {
    s.(clock := s.clock + 1, accepts := s.accepts + if d.Accept? then {(s.clock, id)} else {})
  }

  ghost function LookOf(s: State, joiner: DeviceId): Look<Written>
  {
    Look(s.now, Bootstrap.EffectivelyArmed(s.arm, s.now), Decided(s.files, joiner))
  }

  ghost function Refuse(s: State, sid: nat, joiner: DeviceId): State
  {
    s.(sessions := s.sessions[sid := Refused(joiner)], files := Clear(s.files, joiner))
  }

  ghost function Trust(s: State, sid: nat, p: Session, serial: nat): State
    requires p.Polling?
  {
    s.(sessions := s.sessions[sid := Replying(p.joiner, 0)],
       trusted := s.trusted + {p.joiner},
       files := AfterTake(s.files, p.joiner),
       log := s.log + [Trusting(sid, p.request, p.since, serial)])
  }

  ghost function Next(s: State, step: Step): State
    requires Enabled(s, step)
  {
    match step
    case Connect(sid, peer) =>
      s.(sessions := s.sessions[sid := Connected(peer)], admitted := s.admitted[sid := Admission(peer, s.arm, s.now)])
    case Present(sid, r, seconds, hint) =>
      var peer := s.sessions[sid].peer;
      if Vet(r, peer, seconds).Some? then s.(sessions := s.sessions[sid := Refused(peer)])
      else
        s.(files := WithPending(s.files, PendingJoin(r.deviceId, r.name, r.capabilities, s.now)),
           sessions := s.sessions[sid := Polling(r.deviceId, r, s.clock, Deadline(s.now, hint))],
           checked := s.checked[sid := seconds],
           clock := s.clock + 1)
    case Poll(sid) =>
      var p := s.sessions[sid];
      (match Settle(LookOf(s, p.joiner), p.deadline)
       case Keep => s
       case Taken(w) => if w.decision.Accept? then Trust(s, sid, p, w.serial) else Refuse(s, sid, p.joiner)
       case _ => Refuse(s, sid, p.joiner))
    case SendReply(sid, ok) =>
      var p := s.sessions[sid];
      if !ok then s.(sessions := s.sessions[sid := CutOff(p.joiner)])
      else if p.sent == 0 then s.(sessions := s.sessions[sid := Replying(p.joiner, 1)])
      else s.(sessions := s.sessions[sid := Accepted(p.joiner)], arm := Bootstrap.DISARMED)
    case CliDecide(id, d) => Record(s, id, d).(files := WithDecision(s.files, id, Written(d, s.clock)))
    case HttpDecide(id, d) =>
      if id in s.files.pending then Record(s, id, d).(files := WithPairDecision(s.files, id, Written(d, s.clock))) else s
    case SetArm(arm) => s.(arm := arm)
    case Tick(later) => s.(now := later)
  }

  ghost predicate CanRun(s: State, steps: seq<Step>)
    decreases |steps|
  {
    steps == [] || (Enabled(s, steps[0]) && CanRun(Next(s, steps[0]), steps[1..]))
  }

  ghost function Run(s: State, steps: seq<Step>): State
    requires CanRun(s, steps)
    decreases |steps|
  {
    if steps == [] then s else Run(Next(s, steps[0]), steps[1..])
  }

  ghost predicate Initial(s: State)
  {
    && s.files == Files(map[], map[]) && s.sessions == map[] && s.admitted == map[]
    && s.trusted == {} && s.accepts == {} && s.log == []
  }

  // ---- accounting ----

  /** The session was let in while the host was armed, by the very peer that asks to join, and
      its request passed the other checks against that peer. */
  ghost predicate Admitted(s: State, sid: nat, r: Request)
  {
    && sid in s.admitted && sid in s.checked
    && Bootstrap.EffectivelyArmed(s.admitted[sid].arm, s.admitted[sid].now)
    && s.admitted[sid].peer == r.deviceId
    && Vet(r, s.admitted[sid].peer, s.checked[sid]) == None
  }

  /** What admission means. */
  lemma AdmittedIff(s: State, sid: nat, r: Request)
    ensures Admitted(s, sid, r) <==>
      && sid in s.admitted && sid in s.checked
      && var a := s.admitted[sid];
         && a.arm.armed && (a.arm.until.Some? ==> a.now < a.arm.until.value)
         && Genuine(r, a.peer, s.checked[sid])
  {
    if sid in s.admitted && sid in s.checked {
      VetIffGenuine(r, s.admitted[sid].peer, s.checked[sid]);
      Bootstrap.ArmedIffNotLapsed(s.admitted[sid].arm, s.admitted[sid].now);
    }
  }

  /** A trust record is earned: its session was admitted, and the decision it used up is an
      Accept for its own device, written after its own pending file. */
  ghost predicate Earned(s: State, e: Trusting)
  {
    && Admitted(s, e.session, e.request)
    && e.since < e.serial < s.clock
    && (e.serial, e.request.deviceId) in s.accepts
    && e.request.deviceId in s.trusted
  }

  /** Decisions on file are numbered apart from each other and from those used up. */
  ghost predicate Numbered(s: State)
  {
    && (forall a :: a in s.accepts ==> a.0 < s.clock)
    && (forall i :: 0 <= i < |s.log| ==> s.log[i].serial < s.clock)
    && (forall id :: id in s.files.decisions ==>
          && s.files.decisions[id].serial < s.clock
          && (s.files.decisions[id].decision.Accept? ==> (s.files.decisions[id].serial, id) in s.accepts)
          && forall i :: 0 <= i < |s.log| ==> s.log[i].serial != s.files.decisions[id].serial)
    && (forall a, b :: a in s.files.decisions && b in s.files.decisions && a != b ==>
          s.files.decisions[a].serial != s.files.decisions[b].serial)
  }

  /** What a session knows is true: who connected, that a polling one was admitted and any
      decision for it is newer than its request, and that one past its accept is trusted. */
  ghost predicate SessionSound(s: State, sid: nat)
    requires sid in s.sessions
  {
    match s.sessions[sid]
    case Connected(peer) =>
      sid in s.admitted && s.admitted[sid].peer == peer && Bootstrap.EffectivelyArmed(s.admitted[sid].arm, s.admitted[sid].now)
    case Polling(joiner, r, since, _) =>
      && Admitted(s, sid, r) && joiner == r.deviceId && since < s.clock
      && (joiner in s.files.decisions ==> since < s.files.decisions[joiner].serial)
    case Refused(_) => true
    case p => p.joiner in s.trusted
  }

  /** Every trust record is earned, by a decision of its own, and accounts for a device. */
  ghost predicate LogSound(s: State)
  {
    && (forall e :: e in s.log ==> Earned(s, e))
    && (forall i, j :: 0 <= i < j < |s.log| ==> s.log[i].serial != s.log[j].serial)
    && (forall id :: id in s.trusted ==> exists e :: e in s.log && e.request.deviceId == id)
  }

  /** Trust records come from sessions that are past their polling. */
  ghost predicate LogIsPast(s: State)
  {
    forall e :: e in s.log ==> e.session in s.sessions && !s.sessions[e.session].Connected? && !s.sessions[e.session].Polling?
  }

  ghost predicate Sound(s: State)
  {
    Numbered(s) && (forall sid :: sid in s.sessions ==> SessionSound(s, sid)) && LogSound(s) && LogIsPast(s)
  }

  /** History only grows; what was seen of a session that is past its polling stays. */
  ghost predicate Remembers(s: State, s': State)
  {
    && s.clock <= s'.clock && s.accepts <= s'.accepts && s.trusted <= s'.trusted
    && (forall sid :: sid in s.admitted ==> sid in s'.admitted && s'.admitted[sid] == s.admitted[sid])
    && (forall sid :: sid in s.checked && sid in s.sessions && !s.sessions[sid].Connected? ==>
          sid in s'.checked && s'.checked[sid] == s.checked[sid])
  }

  lemma StepRemembers(s: State, step: Step)
    requires Enabled(s, step)
    ensures Remembers(s, Next(s, step))
  {
    hide Vet, Settle, Bootstrap.EffectivelyArmed;
  }

  lemma NumberedPoll(s: State, sid: nat)
    requires Numbered(s) && Enabled(s, Poll(sid))
    ensures Numbered(Next(s, Poll(sid)))
  {
    hide Bootstrap.EffectivelyArmed;
  }

  lemma NumberedPresent(s: State, step: Step)
    requires Numbered(s) && step.Present? && Enabled(s, step)
    ensures Numbered(Next(s, step))
  {
    hide Vet;
  }

  lemma NumberedDecide(s: State, step: Step)
    requires Numbered(s) && (step.CliDecide? || step.HttpDecide?) && Enabled(s, step)
    ensures Numbered(Next(s, step))
  {
  }

  lemma NumberedStep(s: State, step: Step)
    requires Numbered(s) && Enabled(s, step)
    ensures Numbered(Next(s, step))
  {
    match step
    case Poll(sid) => NumberedPoll(s, sid);
    case Present(_, _, _, _) => NumberedPresent(s, step);
    case CliDecide(_, _) => NumberedDecide(s, step);
    case HttpDecide(_, _) => NumberedDecide(s, step);
    case _ =>
  }

  predicate IsAbout(step: Step, sid: nat)
  {
    match step
    case Connect(x, _) => x == sid
    case Present(x, _, _, _) => x == sid
    case Poll(x) => x == sid
    case SendReply(x, _) => x == sid
    case _ => false
  }

  lemma OwnSession(s: State, step: Step, sid: nat)
    requires Enabled(s, step) && IsAbout(step, sid) && (sid in s.sessions ==> SessionSound(s, sid))
    ensures sid in Next(s, step).sessions && SessionSound(Next(s, step), sid)
  {
    hide Bootstrap.EffectivelyArmed;
  }

  lemma OtherSession(s: State, step: Step, sid: nat)
    requires Enabled(s, step) && !IsAbout(step, sid) && sid in s.sessions && SessionSound(s, sid)
    ensures sid in Next(s, step).sessions && SessionSound(Next(s, step), sid)
  {
    StepRemembers(s, step);
    hide Vet, Bootstrap.EffectivelyArmed, Settle;
  }

  lemma SessionStep(s: State, step: Step, sid: nat)
    requires Enabled(s, step) && sid in Next(s, step).sessions && (sid in s.sessions ==> SessionSound(s, sid))
    ensures SessionSound(Next(s, step), sid)
  {
    hide Vet, Settle, SessionSound;
    if IsAbout(step, sid) { OwnSession(s, step, sid); } else { OtherSession(s, step, sid); }
  }

  /** A step adds at most one trust record, earned by a decision not used before. */
  ghost predicate Extends(s: State, s': State)
  {
    && Remembers(s, s')
    && if s'.log == s.log then s'.trusted == s.trusted
       else
         && |s'.log| == |s.log| + 1 && s'.log == s.log + [s'.log[|s.log|]]
         && (var e := s'.log[|s.log|];
             && Earned(s', e) && s'.trusted == s.trusted + {e.request.deviceId}
             && forall i :: 0 <= i < |s.log| ==> s.log[i].serial != e.serial)
  }

  lemma LogStep(s: State, step: Step)
    requires Sound(s) && Enabled(s, step)
    ensures Extends(s, Next(s, step))
  {
    StepRemembers(s, step);
    OnlyAcceptsTrust(s, step);
    if Next(s, step).log != s.log {
      assert SessionSound(s, step.sid);
      TrustIsEarned(s, step.sid);
    }
    hide Next, Sound;
  }

  lemma OnlyAcceptsTrust(s: State, step: Step)
    requires Enabled(s, step)
    ensures Next(s, step).log == s.log ==> Next(s, step).trusted == s.trusted
    ensures Next(s, step).log != s.log ==> step.Poll?
    ensures LogIsPast(s) ==> LogIsPast(Next(s, step))
  {
    hide Vet, Bootstrap.EffectivelyArmed, Settle;
  }

  lemma TrustIsEarned(s: State, sid: nat)
    requires Numbered(s) && Enabled(s, Poll(sid)) && SessionSound(s, sid)
    requires Next(s, Poll(sid)).log != s.log
    ensures var s' := Next(s, Poll(sid)); var e := s'.log[|s.log|];
      && s'.log == s.log + [e] && Earned(s', e) && s'.trusted == s.trusted + {e.request.deviceId}
      && forall i :: 0 <= i < |s.log| ==> s.log[i].serial != e.serial
  {
    hide Vet, Bootstrap.EffectivelyArmed;
  }

  lemma ExtendKeepsLogSound(s: State, s': State)
    requires LogSound(s) && LogIsPast(s) && Extends(s, s')
    ensures LogSound(s')
  {
    EarnedStays(s, s');
    hide Earned;
    if s'.log != s.log {
      var last := s'.log[|s.log|];
      assert forall e :: e in s'.log <==> e in s.log || e == last;
      forall id | id in s'.trusted ensures exists e :: e in s'.log && e.request.deviceId == id {
        if id in s.trusted {
          var e :| e in s.log && e.request.deviceId == id;
          assert e in s'.log;
        } else {
          assert last in s'.log;
        }
      }
    }
  }

  lemma EarnedStays(s: State, s': State)
    requires LogSound(s) && LogIsPast(s) && Remembers(s, s')
    ensures forall e :: e in s.log ==> Earned(s', e)
  {
    forall e | e in s.log ensures Earned(s', e) {
      assert Earned(s, e);
    }
  }

  lemma {:induction false} StepKeepsSound(s: State, step: Step)
    requires Sound(s) && Enabled(s, step)
    ensures Sound(Next(s, step))
  {
    NumberedStep(s, step);
    forall sid | sid in Next(s, step).sessions ensures SessionSound(Next(s, step), sid) {
      SessionStep(s, step, sid);
    }
    LogStep(s, step);
    OnlyAcceptsTrust(s, step);
    ExtendKeepsLogSound(s, Next(s, step));
  }

  lemma {:induction false} RunKeepsSound(s: State, steps: seq<Step>)
    requires Sound(s) && CanRun(s, steps)
    ensures Sound(Run(s, steps))
    decreases |steps|
  {
    if steps != [] {
      StepKeepsSound(s, steps[0]);
      RunKeepsSound(Next(s, steps[0]), steps[1..]);
    }
  }

  /** What every trust record made by a join rests on, said outright: its device connected while
      the host was armed and the window was not over, its request named it, carried its key and
      was signed by it over its id, name and time, which was about now; and it used up an Accept
      written for it after its request was filed. */
  ghost predicate WellFounded(s: State, t: Trusting)
  {
    && t.session in s.admitted && t.session in s.checked
    && var a, r := s.admitted[t.session], t.request;
       && a.arm.armed && (a.arm.until.Some? ==> a.now < a.arm.until.value)
       && r.version == 1 && r.deviceId == a.peer && r.key == a.peer.bytes
       && r.signature == Material.Signature(a.peer, a.peer.bytes + r.name + TimestampBytes(r.ts) + Material.Ascii("mymesh-join-v1"))
       && ClockAgrees(s.checked[t.session], r.ts)
       && t.since < t.serial && (t.serial, a.peer) in s.accepts && a.peer in s.trusted
  }

  lemma TrustIsWellFounded(s: State, steps: seq<Step>)
    requires Initial(s) && CanRun(s, steps)
    ensures forall t :: t in Run(s, steps).log ==> WellFounded(Run(s, steps), t)
  {
    RunKeepsSound(s, steps);
    var e := Run(s, steps);
    forall t | t in e.log ensures WellFounded(e, t) {
      assert Earned(e, t);
      AdmittedIff(e, t.session, t.request);
    }
  }

  /** Over every run: each device a join made trusted connected itself while the host was armed,
      passed the checks and used up an Accept of its own, written after its request; no Accept
      is used twice, so there are never more trust records than Accepts. */
  lemma JoinAccounting(s: State, steps: seq<Step>)
    requires Initial(s) && CanRun(s, steps)
    ensures var e := Run(s, steps);
      && (forall id :: id in e.trusted ==> exists t :: t in e.log && t.request.deviceId == id)
      && (forall t :: t in e.log ==> Earned(e, t))
      && (forall i, j :: 0 <= i < j < |e.log| ==> e.log[i].serial != e.log[j].serial)
      && |e.log| <= |e.accepts|
  {
    RunKeepsSound(s, steps);
    var e := Run(s, steps);
    var used := seq(|e.log|, i requires 0 <= i < |e.log| => (e.log[i].serial, e.log[i].request.deviceId));
    DistinctLength(used);
    forall u | u in used ensures u in e.accepts {
      var i :| 0 <= i < |used| && used[i] == u;
      assert e.log[i] in e.log;
    }
    SubsetSize(Elements(used), e.accepts);
  }

  /** A genuine request can always be accepted, over HTTP or by command: some run that lets its device
      in while the host is armed leaves it trusted, by one more record, and the host disarmed. */
  lemma JoinCanComplete(s: State, sid: nat, r: Request, seconds: i64, hint: nat, http: bool) returns (steps: seq<Step>)
    requires sid !in s.sessions && sid !in s.admitted && !Bootstrap.Lapsed(s.arm, s.now)
    requires Genuine(r, r.deviceId, seconds)
    ensures CanRun(s, steps)
    ensures var e := Run(s, steps);
      && e.trusted == s.trusted + {r.deviceId} && |e.log| == |s.log| + 1 && e.log[|s.log|].request == r
      && e.arm == Bootstrap.DISARMED && sid in e.sessions && e.sessions[sid] == Accepted(r.deviceId)
      && r.deviceId !in e.files.pending && r.deviceId !in e.files.decisions
  {
    var id := r.deviceId;
    Bootstrap.ArmedIffNotLapsed(s.arm, s.now);
    VetIffGenuine(r, id, seconds);
    hide Vet, Genuine, Bootstrap.EffectivelyArmed, Bootstrap.Lapsed;
    var connect, present := Connect(sid, id), Present(sid, r, seconds, hint);
    var decide := if http then HttpDecide(id, Accept) else CliDecide(id, Accept);
    var s1 := Next(s, connect);
    var s2 := Next(s1, present);
    var s3 := Next(s2, decide);
    var s4 := Next(s3, Poll(sid));
    var replies := RepliesGoOut(s4, sid);
    var polled := Before(s3, Poll(sid), replies);
    var decided := Before(s2, decide, polled);
    var presented := Before(s1, present, decided);
    steps := Before(s, connect, presented);
  }

  lemma Before(s: State, step: Step, rest: seq<Step>) returns (steps: seq<Step>)
    requires Enabled(s, step) && CanRun(Next(s, step), rest)
    ensures CanRun(s, steps) && Run(s, steps) == Run(Next(s, step), rest)
  {
    steps := [step] + rest;
    assert steps[0] == step && steps[1..] == rest;
  }

  lemma RepliesGoOut(s: State, sid: nat) returns (steps: seq<Step>)
    requires sid in s.sessions && s.sessions[sid].Replying? && s.sessions[sid].sent == 0
    ensures CanRun(s, steps)
    ensures Run(s, steps) == s.(sessions := s.sessions[sid := Accepted(s.sessions[sid].joiner)], arm := Bootstrap.DISARMED)
  {
    var reply := SendReply(sid, true);
    var s1 := Next(s, reply);
    var last := Before(s1, reply, []);
    steps := Before(s, reply, last);
    assert s1.sessions[sid := Accepted(s.sessions[sid].joiner)] == s.sessions[sid := Accepted(s.sessions[sid].joiner)];
  }

  function WritesAccept(step: Step): nat
  {
    match step
    case CliDecide(_, d) => if d.Accept? then 1 else 0
    case HttpDecide(_, d) => if d.Accept? then 1 else 0
    case _ => 0
  }

  /** How many steps write an Accept. */
  function AcceptsWritten(steps: seq<Step>): nat
  {
    if steps == [] then 0 else AcceptsWritten(steps[1..]) + WritesAccept(steps[0])
  }

  lemma {:induction false} AcceptsAreWritten(s: State, steps: seq<Step>)
    requires CanRun(s, steps)
    ensures |Run(s, steps).accepts| <= |s.accepts| + AcceptsWritten(steps)
    decreases |steps|
  {
    if steps != [] {
      OneAccept(s, steps[0]);
      AcceptsAreWritten(Next(s, steps[0]), steps[1..]);
    }
  }

  lemma OneAccept(s: State, step: Step)
    requires Enabled(s, step)
    ensures |Next(s, step).accepts| <= |s.accepts| + WritesAccept(step)
  {
    AcceptsGrow(s, step);
    var more := {(s.clock, if step.CliDecide? || step.HttpDecide? then step.id else DeviceId(seq(32, _ => 0)))};
    SubsetSize(Next(s, step).accepts, if WritesAccept(step) == 0 then s.accepts else s.accepts + more);
    hide Next, Enabled;
  }

  lemma AcceptsGrow(s: State, step: Step)
    requires Enabled(s, step)
    ensures WritesAccept(step) == 0 ==> Next(s, step).accepts == s.accepts
    ensures WritesAccept(step) == 1 ==>
      (step.CliDecide? || step.HttpDecide?) && Next(s, step).accepts <= s.accepts + {(s.clock, step.id)}
  {
    hide Vet, Settle, Bootstrap.EffectivelyArmed;
  }

  /** So on every run the devices trusted by joins are no more than the times that somebody wrote
      an Accept. */
  lemma NoMoreTrustThanAccepts(s: State, steps: seq<Step>)
    requires Initial(s) && CanRun(s, steps)
    ensures |Run(s, steps).trusted| <= |Run(s, steps).log| <= AcceptsWritten(steps)
  {
    JoinAccounting(s, steps);
    AcceptsAreWritten(s, steps);
    var e := Run(s, steps);
    TrustedAreLogged(e.log, e.trusted);
  }

  lemma {:induction false} TrustedAreLogged(log: seq<Trusting>, trusted: set<DeviceId>)
    requires forall id :: id in trusted ==> exists t :: t in log && t.request.deviceId == id
    ensures |trusted| <= |log|
  {
    if log == [] {
      assert trusted == {};
    } else {
      var rest, id := log[1..], log[0].request.deviceId;
      forall x | x in trusted - {id} ensures exists t :: t in rest && t.request.deviceId == x {
        var t :| t in log && t.request.deviceId == x;
        assert t in rest;
      }
      TrustedAreLogged(rest, trusted - {id});
      assert trusted <= (trusted - {id}) + {id};
      SubsetSize(trusted, (trusted - {id}) + {id});
    }
  }

  // ---- the first HTTP decision stands ----

  /** No new request from `id`, no command-line decision for it, and no session takes or drops
      what was decided. */
  ghost predicate LeavesAlone(s: State, step: Step, id: DeviceId)
    requires Enabled(s, step)
  {
    match step
    case Present(_, r, _, _) => r.deviceId != id
    case CliDecide(x, _) => x != id
    case Poll(sid) => s.sessions[sid].joiner != id
    case _ => true
  }

  ghost predicate AllLeaveAlone(s: State, steps: seq<Step>, id: DeviceId)
    requires CanRun(s, steps)
    decreases |steps|
  {
    steps == [] || (LeavesAlone(s, steps[0], id) && AllLeaveAlone(Next(s, steps[0]), steps[1..], id))
  }

  lemma {:induction false} DecisionStands(s: State, steps: seq<Step>, id: DeviceId)
    requires CanRun(s, steps) && AllLeaveAlone(s, steps, id)
    requires id in s.files.decisions && id !in s.files.pending
    ensures var e := Run(s, steps); Decided(e.files, id) == Decided(s.files, id) && id !in e.files.pending
    decreases |steps|
  {
    if steps != [] {
      DecisionStands(Next(s, steps[0]), steps[1..], id);
    }
  }

  /** Through the HTTP endpoint alone, the first decision for a pending request is the one the
      host acts on: later ones find nothing pending, and a poll before its deadline takes it. */
  lemma FirstDecisionIsTaken(s: State, id: DeviceId, d: Decision, steps: seq<Step>, sid: nat)
    requires id in s.files.pending
    requires CanRun(Next(s, HttpDecide(id, d)), steps) && AllLeaveAlone(Next(s, HttpDecide(id, d)), steps, id)
    requires var e := Run(Next(s, HttpDecide(id, d)), steps);
      sid in e.sessions && e.sessions[sid].Polling? && e.sessions[sid].joiner == id && e.now <= e.sessions[sid].deadline
    ensures var e := Run(Next(s, HttpDecide(id, d)), steps); var e' := Next(e, Poll(sid));
      && e'.sessions[sid] == (if d.Accept? then Replying(id, 0) else Refused(id))
      && (d.Accept? ==> id in e'.trusted)
      && id !in e'.files.decisions
  {
    DecisionStands(Next(s, HttpDecide(id, d)), steps, id);
  }

  /** The command line has no such guard: whatever was decided before, over HTTP or not, its own
      decision replaces it, and that is the one the host acts on. */
  lemma CliDecisionReplaces(s: State, id: DeviceId, first: Decision, d: Decision, steps: seq<Step>, sid: nat)
    requires id in s.files.pending
    requires var s1 := Next(Next(s, HttpDecide(id, first)), CliDecide(id, d));
      && CanRun(s1, steps) && AllLeaveAlone(s1, steps, id)
      && var e := Run(s1, steps);
         sid in e.sessions && e.sessions[sid].Polling? && e.sessions[sid].joiner == id && e.now <= e.sessions[sid].deadline
    ensures var e := Run(Next(Next(s, HttpDecide(id, first)), CliDecide(id, d)), steps); var e' := Next(e, Poll(sid));
      && e'.sessions[sid] == (if d.Accept? then Replying(id, 0) else Refused(id))
      && (d.Deny? ==> e'.log == e.log)
      && id !in e'.files.decisions
  {
    DecisionStands(Next(Next(s, HttpDecide(id, first)), CliDecide(id, d)), steps, id);
  }

  // ---- disarming after an accept ----

  /** The sessions that got both replies out. */
  ghost function Finished(s: State): set<nat>
  {
    set sid | sid in s.sessions && s.sessions[sid].Accepted?
  }

  predicate NoArming(steps: seq<Step>)
  {
    forall step :: step in steps ==> !step.SetArm?
  }

  lemma StepDisarms(s: State, step: Step)
    requires Enabled(s, step) && !step.SetArm?
    ensures var e := Next(s, step);
      Finished(s) <= Finished(e) && e.arm == if Finished(e) == Finished(s) then s.arm else Bootstrap.DISARMED
  {
    hide Vet, Settle, Bootstrap.EffectivelyArmed;
    if step.SendReply? {
      var e := Next(s, step);
      assert step.sid !in Finished(s);
      assert step.sid in Finished(e) <==> e.sessions[step.sid].Accepted?;
    }
  }

  /** Over any run in which nobody sets the arm file, joins disarm the host exactly when one of
      them got both of its replies out. However many joiners were accepted and trusted, if each
      was cut off before that the host is as armed as it was. */
  lemma {:induction false} DisarmedIffFinished(s: State, steps: seq<Step>)
    requires CanRun(s, steps) && NoArming(steps)
    ensures var e := Run(s, steps);
      && Finished(s) <= Finished(e)
      && e.arm == (if Finished(e) == Finished(s) then s.arm else Bootstrap.DISARMED)
      && (Bootstrap.EffectivelyArmed(e.arm, e.now) <==>
            Bootstrap.EffectivelyArmed(s.arm, e.now) && Finished(e) == Finished(s))
    decreases |steps|
  {
    if steps != [] {
      assert steps[0] in steps;
      StepDisarms(s, steps[0]);
      DisarmedIffFinished(Next(s, steps[0]), steps[1..]);
    }
  }

  /** A joiner that is cut off is trusted all the same. */
  lemma PastAcceptIsTrusted(s: State, steps: seq<Step>, sid: nat)
    requires Initial(s) && CanRun(s, steps) && sid in Run(s, steps).sessions
    ensures var p := Run(s, steps).sessions[sid];
      p.Replying? || p.Accepted? || p.CutOff? ==> p.joiner in Run(s, steps).trusted
  {
    RunKeepsSound(s, steps);
    assert SessionSound(Run(s, steps), sid);
  }

  // ---- what a request and its acceptance put on file ----

  /** A request is taken exactly if it is genuine: it is put on file for its device under its name,
      an earlier decision is dropped, and the session polls; otherwise nothing is filed. */
  lemma PresentIff(s: State, sid: nat, r: Request, seconds: i64, hint: nat)
    requires Enabled(s, Present(sid, r, seconds, hint))
    ensures var s', peer := Next(s, Present(sid, r, seconds, hint)), s.sessions[sid].peer;
      if Genuine(r, peer, seconds) then
        && peer in s'.files.pending && s'.files.pending[peer] == PendingJoin(peer, r.name, r.capabilities, s.now)
        && peer !in s'.files.decisions
        && s'.sessions[sid].Polling? && s'.sessions[sid].joiner == peer && s'.sessions[sid].request == r
        && (forall id :: id != peer ==> Decided(s'.files, id) == Decided(s.files, id))
      else s'.files == s.files && s'.sessions[sid] == Refused(peer)
  {
    VetIffGenuine(r, s.sessions[sid].peer, seconds);
    hide Vet, Genuine;
    if Vet(r, s.sessions[sid].peer, seconds) == None { GenuineIsPeers(r, s.sessions[sid].peer, seconds); }
  }

  lemma GenuineIsPeers(r: Request, peer: DeviceId, now: i64)
    requires Genuine(r, peer, now)
    ensures r.deviceId == peer
  {
  }

  /** The record an accepted join makes: trusted, with what was asked for, or the usual
      capabilities if nothing was; it replaces any record of the device. */
  method TrustJoiner(store: DeviceStore.Store, r: Request, labelText: string, fingerprint: string, mesh: Bytes, now: int)
    requires store.Valid()
    modifies store
    ensures store.Valid() && r.deviceId in store.devices && store.devices - {r.deviceId} == old(store.devices) - {r.deviceId}
    ensures DeviceStore.TrustedIds(store.devices) == DeviceStore.TrustedIds(old(store.devices)) + {r.deviceId}
    ensures var rec := store.devices[r.deviceId];
      && rec.id == r.deviceId && rec.trust == DeviceStore.Trusted && rec.meshId == Some(mesh)
      && rec.capabilities == (if |r.capabilities| > 0 then r.capabilities
           else [DeviceStore.Terminal, DeviceStore.Files, DeviceStore.Desktop, DeviceStore.Tcp])
      && rec.labelText <= labelText && rec.linkedAt == now && rec.aliases == [] && rec.groups == []
  {
    store.Upsert(DeviceStore.DeviceRecord(r.deviceId, DeviceStore.Label(labelText), fingerprint,
      if r.capabilities == [] then DeviceStore.ALL_CAPABILITIES else r.capabilities,
      DeviceStore.Trusted, now, Some(now), None, Some(mesh), [], []));
  }

  // ---- what one poll does ----

  /** A poll goes on exactly while the host is armed, its window not over, nothing is decided and
      the deadline has not passed; a decision on file before the deadline is taken, armed or not,
      and used up; all else refuses and clears the request away. */
  lemma PollIff(s: State, sid: nat)
    requires Enabled(s, Poll(sid))
    ensures var s', p := Next(s, Poll(sid)), s.sessions[sid]; var decided := p.joiner in s.files.decisions;
      && (s'.sessions[sid].Polling? <==> s.now <= p.deadline && !decided && !Bootstrap.Lapsed(s.arm, s.now))
      && (s'.sessions[sid].Polling? ==> s' == s)
      && (s'.sessions[sid].Replying? <==> s.now <= p.deadline && decided && s.files.decisions[p.joiner].decision.Accept?)
      && (s'.sessions[sid].Replying? <==> |s'.log| == |s.log| + 1)
      && (!s'.sessions[sid].Polling? && !s'.sessions[sid].Replying? ==>
            s'.sessions[sid] == Refused(p.joiner) && s'.trusted == s.trusted && s'.log == s.log)
      && (!s'.sessions[sid].Polling? ==> p.joiner !in s'.files.decisions && p.joiner !in s'.files.pending)
      && (forall id :: id != p.joiner ==>
            (id in s'.files.pending <==> id in s.files.pending) && (id in s'.files.decisions <==> id in s.files.decisions))
  {
    Bootstrap.ArmedIffNotLapsed(s.arm, s.now);
  }

  /** A reply that goes out takes the session on, and the second one ends it and disarms the host;
      one that does not cuts the joiner off. Either way it stays trusted. */
  lemma ReplyIff(s: State, sid: nat, ok: bool)
    requires Enabled(s, SendReply(sid, ok))
    ensures var s', p := Next(s, SendReply(sid, ok)), s.sessions[sid];
      && (s'.sessions[sid] == CutOff(p.joiner) <==> !ok)
      && (s'.sessions[sid] == Accepted(p.joiner) <==> ok && p.sent > 0)
      && (s'.sessions[sid].Replying? <==> ok && p.sent == 0)
      && s'.arm == (if ok && p.sent > 0 then Bootstrap.DISARMED else s.arm)
      && s'.trusted == s.trusted && s'.log == s.log && s'.files == s.files
      && forall x :: x != sid ==> (x in s'.sessions <==> x in s.sessions) && (x in s.sessions ==> s'.sessions[x] == s.sessions[x])
  {
  }

  /** Whatever the arm file is set to holds from then on; disarming, and the clock reaching the end
      of the window, keep everybody out, and arming for longer lets in again. */
  lemma ArmingLetsIn(s: State, arm: Bootstrap.Arm, sid: nat, peer: DeviceId, later: int)
    requires sid !in s.sessions && sid !in s.admitted
    ensures Enabled(s, SetArm(arm)) && Next(s, SetArm(arm)) == s.(arm := arm)
    ensures Enabled(Next(s, SetArm(arm)), Connect(sid, peer)) <==> arm.armed && (arm.until.Some? ==> s.now < arm.until.value)
    ensures s.now <= later ==> Enabled(s, Tick(later)) && Next(s, Tick(later)) == s.(now := later)
    ensures s.now <= later ==>
      (Enabled(Next(s, Tick(later)), Connect(sid, peer)) <==> s.arm.armed && (s.arm.until.Some? ==> later < s.arm.until.value))
    ensures Enabled(s, Connect(sid, peer)) ==>
      var s' := Next(s, Connect(sid, peer));
      s' == s.(sessions := s'.sessions, admitted := s'.admitted) && sid in s'.sessions && s'.sessions[sid] == Connected(peer)
      && sid in s'.admitted && s'.admitted[sid] == Admission(peer, s.arm, s.now)
  {
  }

  /** Once the arm window is over, or the host was disarmed, nobody gets in until it is armed. */
  lemma {:induction false} NobodyConnectsAfterTheEnd(s: State, steps: seq<Step>)
    requires Bootstrap.Lapsed(s.arm, s.now) && CanRun(s, steps) && NoArming(steps)
    ensures Bootstrap.Lapsed(Run(s, steps).arm, Run(s, steps).now)
    ensures forall step :: step in steps ==> !step.Connect?
    ensures Run(s, steps).admitted == s.admitted
    decreases |steps|
  {
    if steps != [] {
      assert steps[0] in steps;
      assert forall step :: step in steps <==> step == steps[0] || step in steps[1..];
      NobodyConnectsNow(s, steps[0]);
      NobodyConnectsAfterTheEnd(Next(s, steps[0]), steps[1..]);
    }
  }

  lemma NobodyConnectsNow(s: State, step: Step)
    requires Bootstrap.Lapsed(s.arm, s.now) && Enabled(s, step) && !step.SetArm?
    ensures !step.Connect? && Next(s, step).admitted == s.admitted
    ensures Bootstrap.Lapsed(Next(s, step).arm, Next(s, step).now)
  {
    Bootstrap.ArmedIffNotLapsed(s.arm, s.now);
    hide Vet, Settle;
  }
}
