/** What the messages and steps of the mesh come to, id by id: who is on record, who is
    trusted, which kick is on file, and that nobody else is touched. */
module Effects {
  import opened Foundations
  import opened MeshNet

  /** Everything but node `a` is as it was. */
  ghost predicate OnlyAt(s: State, s': State, a: DeviceId)
  {
    && s'.nodes.Keys == s.nodes.Keys
    && (forall b :: b in s.nodes && b != a ==> s'.nodes[b] == s.nodes[b])
    && s'.net == s.net && s'.dials == s.dials && s'.sessions == s.sessions
    && s'.flushes == s.flushes && s'.copies == s.copies
  }

  /** The receiver heeds a kick: it comes on the channel it reads, from its author, whom the
      receiver trusts. */
  predicate Heeds(n: Node, m: Message)
  {
    (m.KickAnnounce? || m.KickNotice?) && m.side == ToAcceptor && m.kicker in n.trusted && (m.KickAnnounce? ==> m.kicker == m.from)
  }

  /** An announced kick that is heeded takes its target off the receiver's store and puts the
      kick on file, still to be delivered; every other id and kick is as before. */
  lemma AnnouncedTargetGoes(s: State, m: Message, freshMesh: MeshId)
    requires Enabled(s, Deliver(m, freshMesh)) && m.KickAnnounce? && Heeds(s.nodes[m.to], m) && m.target != m.to
    ensures var s' := Next(s, Deliver(m, freshMesh)); var n, n' := s.nodes[m.to], s'.nodes[m.to];
      && OnlyAt(s, s', m.to)
      && m.target !in n'.known && m.target !in n'.trusted
      && (forall x :: x != m.target ==> (x in n'.known <==> x in n.known) && (x in n'.trusted <==> x in n.trusted))
      && m.target in n'.pending && n'.pending[m.target].kicker == m.kicker && !n'.pending[m.target].delivered
      && (forall x :: x != m.target ==>
            (x in n'.pending <==> x in n.pending) && (x in n.pending ==> n'.pending[x] == n.pending[x]))
      && n'.mesh == n.mesh
  {
  }

  /** Whoever heeds its own kick, announced or noticed, trusts nobody any more and is in a mesh
      of its own; records that were not trusted stay. */
  lemma KickedNodeLeaves(s: State, m: Message, freshMesh: MeshId)
    requires Enabled(s, Deliver(m, freshMesh)) && Heeds(s.nodes[m.to], m) && m.target == m.to
    ensures var s' := Next(s, Deliver(m, freshMesh)); var n, n' := s.nodes[m.to], s'.nodes[m.to];
      && OnlyAt(s, s', m.to)
      && n'.trusted == {} && n'.mesh == freshMesh
      && (forall x :: x in n'.known <==> x in n.known && x !in n.trusted)
      && (m.KickNotice? ==> n'.pending == n.pending)
      && (m.KickAnnounce? ==> m.to in n'.pending && n'.pending[m.to].delivered && n'.pending[m.to].kicker == m.kicker)
  {
  }

  /** A kick that is not heeded changes nothing, nor does a notice meant for another. */
  lemma UnheededKickIsIgnored(s: State, m: Message, freshMesh: MeshId)
    requires Enabled(s, Deliver(m, freshMesh)) && (m.KickAnnounce? || m.KickNotice?)
    requires !Heeds(s.nodes[m.to], m) || (m.KickNotice? && m.target != m.to)
    ensures OnlyAt(s, Next(s, Deliver(m, freshMesh)), m.to) && Next(s, Deliver(m, freshMesh)).nodes[m.to] == s.nodes[m.to]
  {
  }

  /** A leave acknowledgement takes its target off the store and marks its kick told; no other id
      or kick is touched. */
  lemma AcknowledgedTargetGoes(s: State, m: Message, freshMesh: MeshId)
    requires Enabled(s, Deliver(m, freshMesh)) && m.LeaveAck? && m.side == ToAcceptor
    ensures var s' := Next(s, Deliver(m, freshMesh)); var n, n' := s.nodes[m.to], s'.nodes[m.to];
      && OnlyAt(s, s', m.to)
      && (forall x :: (x in n'.known <==> x in n.known && x != m.target) && (x in n'.trusted <==> x in n.trusted && x != m.target))
      && (forall x :: (x in n'.pending <==> x in n.pending) && (x in n.pending ==>
            && n'.pending[x].kicker == n.pending[x].kicker
            && n'.pending[x].delivered == (n.pending[x].delivered || x == m.target)))
      && n'.mesh == n.mesh
  {
  }

  /** The receiver merges a roster: one that answers its own request, or one from a trusted peer. */
  predicate Merges(n: Node, m: Message)
  {
    m.Roster? && (m.side == ToDialer || (m.side == ToAcceptor && m.from in n.trusted))
  }

  /** A merged roster adds its ids, less the receiver, to records and trust, takes none away, and
      leaves the lesser mesh id; the dirty mark is made exactly if somebody was not trusted yet. */
  lemma RosterAdds(s: State, m: Message, freshMesh: MeshId)
    requires Enabled(s, Deliver(m, freshMesh)) && m.Roster? && s.nodes[m.to].trusted <= s.nodes[m.to].known
    ensures var s' := Next(s, Deliver(m, freshMesh)); var n, n' := s.nodes[m.to], s'.nodes[m.to];
      && OnlyAt(s, s', m.to) && n'.pending == n.pending
      && (!Merges(n, m) ==> n' == n)
      && (Merges(n, m) ==>
            && (forall x :: x in n'.trusted <==> x in n.trusted || (x in m.ids && x != m.to))
            && (forall x :: x in n'.known <==> x in n.known || (x in m.ids && x != m.to))
            && Le(n'.mesh, n.mesh) && Le(n'.mesh, m.mesh) && (n'.mesh == n.mesh || n'.mesh == m.mesh)
            && n'.marks == n.marks + (if exists x :: x in m.ids && x != m.to && x !in n.trusted then 1 else 0))
  {
    MergedAdds(s.nodes[m.to], m.to, m.ids, m.mesh);
    hide Absorb, Le;
  }

  lemma MergedAdds(n: Node, me: DeviceId, ids: set<DeviceId>, mesh: MeshId)
    requires n.trusted <= n.known
    ensures var n' := Absorb(n, me, ids, mesh);
      && n'.pending == n.pending
      && (forall x :: x in n'.trusted <==> x in n.trusted || (x in ids && x != me))
      && (forall x :: x in n'.known <==> x in n.known || (x in ids && x != me))
      && Le(n'.mesh, n.mesh) && Le(n'.mesh, mesh) && (n'.mesh == n.mesh || n'.mesh == mesh)
      && n'.marks == n.marks + (if exists x :: x in ids && x != me && x !in n.trusted then 1 else 0)
  {
    LeTotal(n.mesh, mesh);
    LeReflexive(n.mesh);
    LeReflexive(mesh);
    hide Le;
    if x :| x in ids && x != me && x !in n.trusted {
      assert x in ids - {me} - n.trusted;
    }
  }

  /** A delivered kick has its target off the store and is marked told; the notice is on its way. */
  lemma FlushedTargetGoes(s: State, l: Listing)
    requires Enabled(s, FlushFinish(l))
    ensures var s' := Next(s, FlushFinish(l)); var n, n' := s.nodes[l.at], s'.nodes[l.at];
      && (forall x :: (x in n'.known <==> x in n.known && x != l.target) && (x in n'.trusted <==> x in n.trusted && x != l.target))
      && n'.pending.Keys == n.pending.Keys
      && (l.target in n.pending ==> n'.pending[l.target].delivered)
      && (forall x :: x in n.pending && x != l.target ==> n'.pending[x] == n.pending[x])
      && KickNotice(l.at, l.target, ToAcceptor, l.target, l.kicker) in s'.net
      && l !in s'.flushes
  {
  }

  /** A kick command that nothing comes in between: its target is off the store, everybody else
      is as before, the kick is on file, told or not, and notice and announcements are out. */
  lemma KickTakesTargetOff(s: State, a: DeviceId, target: DeviceId, told: bool)
    requires Enabled(s, BeginKick(a, target))
    ensures var c := CopyOf(a, Kicking(target), FilePending(s.nodes[a], target, a));
      var steps := [BeginKick(a, target)] + (if told then [WriteKicks(c)] else []) + [WriteStore(c)];
      && CanRun(s, steps) && a in Run(s, steps).nodes
      && var n, n' := s.nodes[a], Run(s, steps).nodes[a];
         && (forall x :: (x in n'.known <==> x in n.known && x != target) && (x in n'.trusted <==> x in n.trusted && x != target))
         && target in n'.pending && n'.pending[target].kicker == a && n'.pending[target].delivered == told
         && (forall x :: x in n.pending && x != target ==> x in n'.pending && n'.pending[x] == n.pending[x])
  {
    UndisturbedKick(s, a, target, told);
  }

  /** Beginning a kick tells the target and announces it to every other trusted peer, in words
      that a receiver who trusts the kicker heeds. */
  lemma KickIsAnnounced(s: State, a: DeviceId, target: DeviceId, p: DeviceId)
    requires Enabled(s, BeginKick(a, target)) && p in s.nodes && a in s.nodes[p].trusted && p in s.nodes[a].trusted
    ensures exists m :: m in Next(s, BeginKick(a, target)).net && m.to == p && Heeds(s.nodes[p], m)
                        && m.target == target && (m.KickAnnounce? <==> p != target)
  {
    var m := if p == target then KickNotice(a, target, ToAcceptor, target, a) else KickAnnounce(a, p, ToAcceptor, target, a);
    assert m in Next(s, BeginKick(a, target)).net;
  }

  /** A command that writes the store back leaves in it what it had read, changed by what it is
      for, and nothing of what was there since. */
  lemma WrittenBackIsHeld(s: State, c: Copy)
    requires Enabled(s, WriteStore(c))
    ensures var n, n' := s.nodes[c.at], Next(s, WriteStore(c)).nodes[c.at];
      && (match c.job
          case Kicking(t) =>
            forall x :: (x in n'.known <==> x in c.known && x != t) && (x in n'.trusted <==> x in c.trusted && x != t)
          case Linking(p) =>
            forall x :: (x in n'.known <==> x in c.known || x == p) && (x in n'.trusted <==> x in c.trusted || x == p))
      && n'.pending == n.pending && n'.mesh == n.mesh
  {
  }

  /** Linking trusts exactly the peer, unlinking stops trusting exactly the peer. */
  lemma LinkTrusts(s: State, a: DeviceId, peer: DeviceId)
    requires a in s.nodes
    ensures var s' := Next(s, Link(a, peer));
      OnlyAt(s, s', a) && s'.nodes[a] == s.nodes[a].(known := s'.nodes[a].known, trusted := s'.nodes[a].trusted)
      && forall x :: (x in s'.nodes[a].known <==> x in s.nodes[a].known || x == peer)
                  && (x in s'.nodes[a].trusted <==> x in s.nodes[a].trusted || x == peer)
    ensures peer in s.nodes[a].known ==>
      var s' := Next(s, Unlink(a, peer));
      OnlyAt(s, s', a) && s'.nodes[a].known == s.nodes[a].known
      && forall x :: x in s'.nodes[a].trusted <==> x in s.nodes[a].trusted && x != peer
  {
  }

  // ---- what is said ----

  /** The roster of a node: itself and whom it trusts, with its mesh id. */
  ghost predicate IsRosterOf(s: State, m: Message, from: DeviceId)
  {
    && from in s.nodes && m.Roster? && m.from == from && m.mesh == s.nodes[from].mesh
    && forall x :: x in m.ids <==> x == from || x in s.nodes[from].trusted
  }

  /** What a push, an answer and a guest's answer put on the wire. */
  ghost predicate IsSentBy(s: State, step: Step, m: Message)
  {
    match step
    case PushRoster(a, b) => IsRosterOf(s, m, a) && m.to == b && m.side == ToAcceptor
    case ReplyRoster(c) => IsRosterOf(s, m, c.acceptor) && m.to == c.dialer && m.side == ToDialer
    case JoinReply(c) => c.job.Linking? && IsRosterOf(s, m, c.job.peer) && m.to == c.at && m.side == ToGuest
    case _ => false
  }

  /** Each of them sends the sender's roster to the end that reads it, and changes nothing else. */
  lemma RostersAreSent(s: State, step: Step)
    requires Enabled(s, step) && (step.PushRoster? || step.ReplyRoster? || step.JoinReply?)
    ensures var s' := Next(s, step);
      s'.nodes == s.nodes && exists m :: m in s'.net && s'.net == s.net + {m} && IsSentBy(s, step, m)
  {
    var m;
    match step {
      case PushRoster(a, b) => m := RosterMessage(s, a, b, ToAcceptor);
      case ReplyRoster(c) => m := RosterMessage(s, c.acceptor, c.dialer, ToDialer);
      case JoinReply(c) => m := RosterMessage(s, c.job.peer, c.at, ToGuest);
    }
    assert m in Next(s, step).net && Next(s, step).net == s.net + {m} && IsSentBy(s, step, m);
  }

  /** A greeting announces every kick on file to the dialing end, gives it notice of its own if
      that is still to be delivered, and says nothing else. */
  lemma GreetingTellsKicks(s: State, c: Call)
    requires Enabled(s, GreetKicks(c))
    ensures var s' := Next(s, GreetKicks(c)); var pending := s.nodes[c.acceptor].pending;
      && s'.nodes == s.nodes && s.net <= s'.net
      && (forall x :: x in pending ==> KickAnnounce(c.acceptor, c.dialer, ToDialer, x, pending[x].kicker) in s'.net)
      && (forall m :: m in s'.net && m !in s.net ==>
            (m.KickAnnounce? || m.KickNotice?) && m.target in pending && m.kicker == pending[m.target].kicker
            && m.from == c.acceptor && m.to == c.dialer && m.side == ToDialer
            && (m.KickNotice? ==> m.target == c.dialer && !pending[c.dialer].delivered))
      && (c.dialer in pending && !pending[c.dialer].delivered ==>
            KickNotice(c.acceptor, c.dialer, ToDialer, c.dialer, pending[c.dialer].kicker) in s'.net)
  {
  }

  /** A leave acknowledgement names its sender as the one that left. */
  lemma LeaveIsAcknowledged(s: State, a: DeviceId, b: DeviceId)
    requires Enabled(s, SendLeaveAck(a, b))
    ensures var s' := Next(s, SendLeaveAck(a, b));
      s'.nodes == s.nodes && s'.net == s.net + {LeaveAck(a, b, ToAcceptor, a)}
  {
  }

  // ---- what is begun ----

  /** A dial, a link and a kick hold on to what they found. */
  lemma BegunIsHeld(s: State, step: Step)
    requires Enabled(s, step)
    ensures step.Dial? ==> step.call in Next(s, step).dials && Next(s, step).nodes == s.nodes
    ensures step.Open? ==> step.call in Next(s, step).sessions && step.call !in Next(s, step).dials && Next(s, step).nodes == s.nodes
    ensures step.BeginLink? ==>
      var n := s.nodes[step.a];
      && Next(s, step).nodes == s.nodes
      && Copy(step.a, Linking(step.peer), n.known, n.trusted, n.pending) in Next(s, step).copies
    ensures step.ListKick? ==> step.entry in Next(s, step).flushes && Next(s, step).nodes == s.nodes
  {
  }

  /** A guest that merges its host's roster writes what it held with the roster's ids, and holds
      that from then on. */
  lemma GuestMergeWritesHeld(s: State, c: Copy, m: Message)
    requires Enabled(s, MergeCopy(c, m)) && c.trusted <= c.known
    ensures var s' := Next(s, MergeCopy(c, m)); var n, n' := s.nodes[c.at], s'.nodes[c.at];
      && (forall x :: x in n'.known <==> x in c.known || (x in m.ids && x != c.at))
      && (forall x :: x in n'.trusted <==> x in c.trusted || (x in m.ids && x != c.at))
      && n'.pending == n.pending && (n'.mesh == n.mesh || n'.mesh == m.mesh)
      && exists c' :: c' in s'.copies && c'.at == c.at && c'.job == c.job && c'.known == n'.known && c'.trusted == n'.trusted
  {
    hide Le, Absorb;
    AbsorbKeeps(s.nodes[c.at], c.at, m.ids, m.mesh);
    assert Merged(c, m.ids) in Next(s, MergeCopy(c, m)).copies;
  }

  lemma AbsorbKeeps(n: Node, me: DeviceId, ids: set<DeviceId>, mesh: MeshId)
    ensures var n' := Absorb(n, me, ids, mesh); n'.pending == n.pending && (n'.mesh == n.mesh || n'.mesh == mesh)
  {
  }

  /** A flush that comes to a kick trusts its target if that has no record and the kick is on
      file; it touches nothing else, and has come to it once. */
  lemma FlushComesTo(s: State, l: Listing)
    requires Enabled(s, FlushInsert(l))
    ensures var s' := Next(s, FlushInsert(l)); var n, n' := s.nodes[l.at], s'.nodes[l.at];
      && (forall x :: (x in n'.known <==> x in n.known || (x == l.target && l.target in n.pending)))
      && (forall x :: (x in n'.trusted <==> x in n.trusted || (x == l.target && l.target in n.pending && l.target !in n.known)))
      && n'.pending == n.pending && n'.mesh == n.mesh
      && l !in s'.flushes && l.(dialing := true) in s'.flushes
  {
  }

  // ---- what comes to an end ----

  /** A sweep takes its kick off file and nothing else. */
  lemma SweptKickGoes(s: State, a: DeviceId, t: DeviceId)
    requires Enabled(s, Gc(a, t))
    ensures var s' := Next(s, Gc(a, t)); var n, n' := s.nodes[a], s'.nodes[a];
      && OnlyAt(s, s', a) && n'.known == n.known && n'.trusted == n.trusted && n'.mesh == n.mesh
      && (forall x :: x in n'.pending <==> x in n.pending && x != t)
      && (forall x :: x in n'.pending ==> n'.pending[x] == n.pending[x])
  {
  }

  /** A message that is lost, a call that is hung up, a command that gives up and a flush that gives
      up leave the nodes as they are. */
  predicate IsEnding(step: Step)
  {
    step.Close? || step.Drop? || step.EndJob? || step.FlushGiveUp?
  }

  ghost function Loose(s: State): nat
  {
    |s.net| + |s.dials| + |s.sessions| + |s.copies| + |s.flushes|
  }

  lemma EndingEnds(s: State, step: Step)
    requires IsEnding(step)
    requires match step
      case Close(c) => c in s.dials || c in s.sessions
      case Drop(m) => m in s.net
      case EndJob(c) => c in s.copies
      case FlushGiveUp(l) => l in s.flushes
      case _ => true
    ensures Enabled(s, step) && Next(s, step).nodes == s.nodes && Loose(Next(s, step)) < Loose(s)
    ensures Next(s, step).net <= s.net && Next(s, step).dials <= s.dials && Next(s, step).sessions <= s.sessions
    ensures Next(s, step).copies <= s.copies && Next(s, step).flushes <= s.flushes
  {
    var s' := Next(s, step);
    SubsetSize(s'.net, s.net);
    SubsetSize(s'.dials, s.dials);
    SubsetSize(s'.sessions, s.sessions);
    SubsetSize(s'.copies, s.copies);
    SubsetSize(s'.flushes, s.flushes);
  }

  /** From every state, endings alone lead to one with nothing loose, and every node as it was. */
  lemma {:induction false} AllCanEnd(s: State) returns (steps: seq<Step>)
    ensures CanRun(s, steps) && (forall step :: step in steps ==> IsEnding(step))
    ensures Run(s, steps).nodes == s.nodes && Loose(Run(s, steps)) == 0
    decreases Loose(s)
  {
    var step: Step;
    if m :| m in s.net {
      step := Drop(m);
    } else if c :| c in s.dials {
      step := Close(c);
    } else if c :| c in s.sessions {
      step := Close(c);
    } else if c :| c in s.copies {
      step := EndJob(c);
    } else if l :| l in s.flushes {
      step := FlushGiveUp(l);
    } else {
      steps := [];
      return;
    }
    EndingEnds(s, step);
    var rest := AllCanEnd(Next(s, step));
    steps := [step] + rest;
    assert steps[0] == step && steps[1..] == rest;
    forall x | x in steps ensures IsEnding(x) { assert x == step || x in rest; }
  }
}
