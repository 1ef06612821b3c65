/** When can an id that no node stores come back without being linked again?
    `Gone` is a condition on one state that decides the question for all runs. */
module Resurrection {
  import opened Foundations
  import opened MeshNet
  import Effects

  /** A message that can never put `t` into a store, now or after other nodes link up. */
  predicate Harmless(m: Message, t: DeviceId)
  {
    match m
    case Roster(from, to, side, ids, _) => t !in ids || to == t || (side != ToDialer && from == t)
    case KickAnnounce(from, to, side, target, kicker) =>
      target != t || side != ToAcceptor || kicker != from || kicker == t || to == t
    case KickNotice(_, _, _, _, _) => true
    case LeaveAck(_, _, _, _) => true
  }

  /** A call to `t`, begun or open: `t` may answer it with its roster, which names itself. */
  predicate CallsOut(c: Call, t: DeviceId, nodes: set<DeviceId>)
  {
    c.acceptor == t && t in nodes && c.dialer in nodes && c.dialer != t
  }

  /** A held copy of the store that still has `t`, or still has its kick as undelivered, and
      will be written back by a command that is about somebody else. */
  predicate Brings(c: Copy, t: DeviceId)
  {
    match c.job
    case Linking(peer) => peer != t && t in c.known
    case Kicking(u) => u != t && (t in c.known || (t in c.pending && !c.pending[t].delivered))
  }

  /** The kick of `t` is on file at `a`, delivered or not, or a command or message can file it. */
  ghost predicate Fileable(s: State, a: DeviceId, t: DeviceId)
    requires a in s.nodes
  {
    || t in s.nodes[a].pending
    || (exists c :: c in s.copies && HoldsKick(c, a, t))
    || (exists m :: m in s.net && TellsTarget(m, a, t))
  }

  predicate HoldsKick(c: Copy, a: DeviceId, t: DeviceId)
  {
    c.at == a && c.job.Kicking? && t in c.pending
  }

  /** A target that is told of its own kick by announcement files it too. */
  predicate TellsTarget(m: Message, a: DeviceId, t: DeviceId)
  {
    a == t && m.KickAnnounce? && m.side == ToAcceptor && m.to == t && m.target == t && m.kicker == m.from && m.kicker != t
  }

  ghost predicate Stored(s: State, t: DeviceId)
  {
    exists a :: a in s.nodes && t in s.nodes[a].known
  }

  /** Nothing anywhere can bring `t` back: no store has it, no undelivered kick of it waits, no
      message carries it, no call to it is begun or open, no command holds a store with it, and
      no running flush still has its kick to come while that is or can be on file. */
  ghost predicate Gone(s: State, t: DeviceId)
  {
    && !Stored(s, t)
    && (forall a :: a in s.nodes && t in s.nodes[a].pending ==> s.nodes[a].pending[t].delivered)
    && (forall m :: m in s.net && m.to in s.nodes ==> Harmless(m, t))
    && (forall c :: c in s.dials || c in s.sessions ==> !CallsOut(c, t, s.nodes.Keys))
    && (forall c :: c in s.copies && c.at in s.nodes ==> !Brings(c, t))
    && (forall l :: l in s.flushes && l.at in s.nodes && l.target == t && !l.dialing ==> !Fileable(s, l.at, t))
  }

  /** A join, link or pairing step for `t`: linking it, beginning to, or writing what a command
      that links it holds. */
  predicate Links(step: Step, t: DeviceId)
  {
    match step
    case Link(_, peer) => peer == t
    case BeginLink(_, peer) => peer == t
    case WriteStore(c) => c.job == Linking(t)
    case MergeCopy(c, _) => c.job == Linking(t)
    case _ => false
  }

  predicate Unlinked(steps: seq<Step>, t: DeviceId)
  {
    forall step :: step in steps ==> !Links(step, t)
  }

  // ---- Gone is kept ----

  lemma ReceiveKeepsOut(n: Node, me: DeviceId, m: Message, freshMesh: MeshId, t: DeviceId)
    requires n.trusted <= n.known && t !in n.known
    requires t in n.pending ==> n.pending[t].delivered
    requires m.to == me && Harmless(m, t)
    ensures var n' := Receive(n, me, m, freshMesh);
      && t !in n'.known
      && (t in n'.pending ==> n'.pending[t].delivered)
      && (t in n'.pending ==> t in n.pending || TellsTarget(m, me, t))
  {
  }

  lemma OutOfEveryStore(s: State, t: DeviceId)
    requires WellFormed(s) && Gone(s, t)
    ensures forall a :: a in s.nodes ==> t !in s.nodes[a].known && t !in s.nodes[a].trusted
  {
  }

  lemma PostedAreHarmless(s: State, step: Step, t: DeviceId)
    requires WellFormed(s) && Gone(s, t) && Enabled(s, step)
    ensures forall m :: m in Next(s, step).net && m.to in s.nodes ==> Harmless(m, t)
    ensures forall m, a :: m in Next(s, step).net && m !in s.net ==> !TellsTarget(m, a, t)
  {
    OutOfEveryStore(s, t);
    forall m | m in Next(s, step).net && m !in s.net
      ensures (m.to in s.nodes ==> Harmless(m, t)) && forall a :: !TellsTarget(m, a, t)
    {
      if m.Roster? && t in m.ids {
        assert m.from == t;
      }
    }
  }

  lemma NodesStayOut(s: State, step: Step, t: DeviceId, a: DeviceId)
    requires WellFormed(s) && Gone(s, t) && Enabled(s, step) && !Links(step, t) && a in s.nodes
    ensures var n := Next(s, step).nodes[a];
      && t !in n.known
      && (t in n.pending ==> n.pending[t].delivered)
      && (t in n.pending ==> Fileable(s, a, t))
  {
    OutOfEveryStore(s, t);
    hide Receive;
    if step.Deliver? && a == step.m.to {
      ReceiveKeepsOut(s.nodes[a], a, step.m, step.freshMesh, t);
    }
  }

  lemma CopiesStayOut(s: State, step: Step, t: DeviceId, c: Copy)
    requires WellFormed(s) && Gone(s, t) && Enabled(s, step) && !Links(step, t)
    requires c in Next(s, step).copies && c.at in s.nodes
    ensures !Brings(c, t)
    ensures HoldsKick(c, c.at, t) ==> Fileable(s, c.at, t)
  {
    OutOfEveryStore(s, t);
    hide Receive;
  }

  lemma CallsStayAway(s: State, step: Step, t: DeviceId, c: Call)
    requires WellFormed(s) && Gone(s, t) && Enabled(s, step)
    requires c in Next(s, step).dials || c in Next(s, step).sessions
    ensures !CallsOut(c, t, s.nodes.Keys)
  {
    OutOfEveryStore(s, t);
    hide Receive;
  }

  lemma FlushesStayIdle(s: State, step: Step, t: DeviceId, l: Listing)
    requires WellFormed(s) && Gone(s, t) && Enabled(s, step) && !Links(step, t)
    requires l in Next(s, step).flushes && l.at in s.nodes && l.target == t && !l.dialing
    ensures l in s.flushes && !Fileable(s, l.at, t)
  {
    hide Receive;
  }

  lemma {:induction false} StepKeepsGone(s: State, step: Step, t: DeviceId)
    requires WellFormed(s) && Gone(s, t) && Enabled(s, step) && !Links(step, t)
    ensures Gone(Next(s, step), t)
  {
    var s' := Next(s, step);
    NextWellFormed(s, step);
    PostedAreHarmless(s, step, t);
    forall a | a in s'.nodes
      ensures t !in s'.nodes[a].known
      ensures t in s'.nodes[a].pending ==> s'.nodes[a].pending[t].delivered && Fileable(s, a, t)
    {
      NodesStayOut(s, step, t, a);
    }
    forall c | c in s'.copies && c.at in s'.nodes
      ensures !Brings(c, t)
      ensures HoldsKick(c, c.at, t) ==> Fileable(s, c.at, t)
    {
      CopiesStayOut(s, step, t, c);
    }
    forall c | c in s'.dials || c in s'.sessions ensures !CallsOut(c, t, s'.nodes.Keys) {
      CallsStayAway(s, step, t, c);
    }
    hide Next, Enabled, Brings, CallsOut, Harmless;
    forall l | l in s'.flushes && l.at in s'.nodes && l.target == t && !l.dialing ensures !Fileable(s', l.at, t) {
      FlushesStayIdle(s, step, t, l);
    }
  }

  lemma {:induction false} RunKeepsGone(s: State, steps: seq<Step>, t: DeviceId)
    requires WellFormed(s) && Gone(s, t) && CanRun(s, steps) && Unlinked(steps, t)
    ensures Gone(Run(s, steps), t)
    decreases |steps|
  {
    if steps != [] {
      assert steps[0] in steps;
      StepKeepsGone(s, steps[0], t);
      NextWellFormed(s, steps[0]);
      RunKeepsGone(Next(s, steps[0]), steps[1..], t);
    }
  }

  // ---- without Gone, some run brings t back ----

  ghost predicate CanReturn(s: State, t: DeviceId)
  {
    exists steps :: CanRun(s, steps) && Unlinked(steps, t) && Stored(Run(s, steps), t)
  }

  lemma ReturnsAfter(s: State, step: Step, t: DeviceId)
    requires Enabled(s, step) && !Links(step, t) && CanReturn(Next(s, step), t)
    ensures CanReturn(s, t)
  {
    var rest :| CanRun(Next(s, step), rest) && Unlinked(rest, t) && Stored(Run(Next(s, step), rest), t);
    var steps := [step] + rest;
    assert steps[0] == step && steps[1..] == rest;
    assert CanRun(s, steps) && Run(s, steps) == Run(Next(s, step), rest);
    forall x | x in steps ensures !Links(x, t) {
      assert x == step || x in rest;
    }
  }

  lemma ReturnsAt(s: State, a: DeviceId, t: DeviceId)
    requires a in s.nodes && t in s.nodes[a].known
    ensures CanReturn(s, t)
  {
    assert CanRun(s, []) && Unlinked([], t) && Run(s, []) == s;
  }

  lemma ReturnsAtOnce(s: State, step: Step, a: DeviceId, t: DeviceId)
    requires Enabled(s, step) && !Links(step, t) && a in Next(s, step).nodes && t in Next(s, step).nodes[a].known
    ensures CanReturn(s, t)
  {
    ReturnsAt(Next(s, step), a, t);
    ReturnsAfter(s, step, t);
  }

  /** A flush that has listed the kick of `t` and not come to it yet stores `t` when it does, so
      long as the kick is on file, though it be delivered by then. */
  lemma ListedKickReturns(s: State, l: Listing, t: DeviceId)
    requires l in s.flushes && l.at in s.nodes && l.target == t && !l.dialing && t in s.nodes[l.at].pending
    ensures CanReturn(s, t)
  {
    ReturnsAtOnce(s, FlushInsert(l), l.at, t);
  }

  /** A pending kick that was never delivered: the next flush stores the target. */
  lemma UndeliveredKickReturns(s: State, a: DeviceId, t: DeviceId)
    requires a in s.nodes && t in s.nodes[a].pending && !s.nodes[a].pending[t].delivered
    ensures CanReturn(s, t)
  {
    var l := Listing(a, t, s.nodes[a].pending[t].kicker, 0, false);
    ListedKickReturns(Next(s, ListKick(l)), l, t);
    ReturnsAfter(s, ListKick(l), t);
  }

  /** The same for a flush whose kick of `t` is off file but can be put back. */
  lemma FileableKickReturns(s: State, l: Listing, t: DeviceId)
    requires l in s.flushes && l.at in s.nodes && l.target == t && !l.dialing && Fileable(s, l.at, t)
    ensures CanReturn(s, t)
  {
    if t in s.nodes[l.at].pending {
      ListedKickReturns(s, l, t);
    } else if c :| c in s.copies && HoldsKick(c, l.at, t) {
      ListedKickReturns(Next(s, WriteKicks(c)), l, t);
      ReturnsAfter(s, WriteKicks(c), t);
    } else {
      var m :| m in s.net && TellsTarget(m, l.at, t);
      var link, tell := Link(t, m.from), Deliver(m, []);
      var linked := Next(s, link);
      ListedKickReturns(Next(linked, tell), l, t);
      ReturnsAfter(linked, tell, t);
      ReturnsAfter(s, link, t);
    }
  }

  /** A roster on its way to a dialing node is merged without any trust check. */
  lemma ReplyReturns(s: State, m: Message, t: DeviceId)
    requires WellFormed(s) && m in s.net && m.to in s.nodes && m.Roster? && t in m.ids && m.to != t
    requires m.side == ToDialer || (m.side == ToAcceptor && m.from in s.nodes[m.to].trusted)
    ensures CanReturn(s, t)
  {
    var n := s.nodes[m.to];
    assert t in Absorb(n, m.to, m.ids, m.mesh).known;
    ReturnsAtOnce(s, Deliver(m, m.mesh), m.to, t);
  }

  /** A roster for a guest: any later attempt to join its sender merges it. */
  lemma GuestRosterReturns(s: State, m: Message, t: DeviceId)
    requires WellFormed(s) && m in s.net && m.to in s.nodes && m.Roster? && t in m.ids && m.to != t
    requires m.side == ToGuest && m.from != t
    ensures CanReturn(s, t)
  {
    var begin := BeginLink(m.to, m.from);
    var c := CopyOf(m.to, Linking(m.from), s.nodes[m.to]);
    var s1 := Next(s, begin);
    assert t in Merged(c, m.ids).known;
    ReturnsAtOnce(s1, MergeCopy(c, m), m.to, t);
    ReturnsAfter(s, begin, t);
  }

  /** A stale roster or kick announcement: once its receiver links with its sender, it counts. */
  lemma StaleMessageReturns(s: State, m: Message, t: DeviceId)
    requires WellFormed(s) && m in s.net && m.to in s.nodes && !Harmless(m, t)
    ensures CanReturn(s, t)
  {
    var link := Link(m.to, m.from);
    var linked := Next(s, link);
    if m.Roster? && m.side == ToDialer {
      ReplyReturns(s, m, t);
    } else if m.Roster? && m.side == ToGuest {
      GuestRosterReturns(s, m, t);
    } else if m.Roster? {
      NextWellFormed(s, link);
      ReplyReturns(linked, m, t);
      ReturnsAfter(s, link, t);
    } else {
      var step := Deliver(m, []);
      UndeliveredKickReturns(Next(linked, step), m.to, t);
      ReturnsAfter(linked, step, t);
      ReturnsAfter(s, link, t);
    }
  }

  /** An open session to `t` itself: `t` may still answer with its roster. */
  lemma OpenSessionReturns(s: State, c: Call, t: DeviceId)
    requires WellFormed(s) && c in s.sessions && CallsOut(c, t, s.nodes.Keys)
    ensures CanReturn(s, t)
  {
    var step := ReplyRoster(c);
    NextWellFormed(s, step);
    ReplyReturns(Next(s, step), RosterMessage(s, t, c.dialer, ToDialer), t);
    ReturnsAfter(s, step, t);
  }

  /** A dial to `t` begun while it was trusted: it opens whenever `t` answers. */
  lemma BegunDialReturns(s: State, c: Call, t: DeviceId)
    requires WellFormed(s) && c in s.dials && CallsOut(c, t, s.nodes.Keys)
    ensures CanReturn(s, t)
  {
    var link, open := Link(t, c.dialer), Open(c);
    var linked := Next(s, link);
    NextWellFormed(s, link);
    NextWellFormed(linked, open);
    OpenSessionReturns(Next(linked, open), c, t);
    ReturnsAfter(linked, open, t);
    ReturnsAfter(s, link, t);
  }

  /** A command that read the store while it still had `t`, or its kick as undelivered, and
      waits on the network since: it writes all of it back. */
  lemma HeldCopyReturns(s: State, c: Copy, t: DeviceId)
    requires c in s.copies && c.at in s.nodes && Brings(c, t)
    ensures CanReturn(s, t)
  {
    if t in c.known {
      ReturnsAtOnce(s, WriteStore(c), c.at, t);
    } else {
      UndeliveredKickReturns(Next(s, WriteKicks(c)), c.at, t);
      ReturnsAfter(s, WriteKicks(c), t);
    }
  }

  /** An id stays out of every store on every run that does not link it, if and only if it
      is `Gone`. */
  lemma NoResurrectionIffGone(s: State, t: DeviceId)
    requires WellFormed(s)
    ensures Gone(s, t) <==>
      forall steps :: CanRun(s, steps) && Unlinked(steps, t) ==> !Stored(Run(s, steps), t)
  {
    if Gone(s, t) {
      forall steps | CanRun(s, steps) && Unlinked(steps, t) ensures !Stored(Run(s, steps), t) {
        RunKeepsGone(s, steps, t);
      }
    } else {
      NotGoneReturns(s, t);
    }
  }

  lemma NotGoneReturns(s: State, t: DeviceId)
    requires WellFormed(s) && !Gone(s, t)
    ensures CanReturn(s, t)
  {
    hide Harmless, Brings, CallsOut, Fileable, Enabled, Next;
    if a :| a in s.nodes && t in s.nodes[a].known {
      ReturnsAt(s, a, t);
    } else if a :| a in s.nodes && t in s.nodes[a].pending && !s.nodes[a].pending[t].delivered {
      UndeliveredKickReturns(s, a, t);
    } else if m :| m in s.net && m.to in s.nodes && !Harmless(m, t) {
      StaleMessageReturns(s, m, t);
    } else if c :| c in s.sessions && CallsOut(c, t, s.nodes.Keys) {
      OpenSessionReturns(s, c, t);
    } else if c :| c in s.dials && CallsOut(c, t, s.nodes.Keys) {
      BegunDialReturns(s, c, t);
    } else if c :| c in s.copies && c.at in s.nodes && Brings(c, t) {
      HeldCopyReturns(s, c, t);
    } else {
      var l :| l in s.flushes && l.at in s.nodes && l.target == t && !l.dialing && Fileable(s, l.at, t);
      FileableKickReturns(s, l, t);
    }
  }

  /** An id that no store has, and none of whose kicks is undelivered, is gone for good once what is
      loose has ended, and it always can: messages lost, calls hung up, commands and flushes over. */
  lemma CanBeGoneForGood(s: State, t: DeviceId) returns (steps: seq<Step>)
    requires WellFormed(s) && !Stored(s, t)
    requires forall a :: a in s.nodes && t in s.nodes[a].pending ==> s.nodes[a].pending[t].delivered
    ensures CanRun(s, steps) && Unlinked(steps, t) && Gone(Run(s, steps), t)
  {
    steps := Effects.AllCanEnd(s);
    forall step | step in steps ensures !Links(step, t) { assert Effects.IsEnding(step); }
    var e := Run(s, steps);
    assert e.net == {} && e.dials == {} && e.sessions == {} && e.copies == {} && e.flushes == {};
  }
}
