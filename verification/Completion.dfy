/** What the steps of the mesh can bring about together: a kick, a flush, a join and a session
    can each be run to their end, from every state they can start in, and leave what they are for. */
module Completion {
  import opened Foundations
  import opened MeshNet
  import opened Effects

  /** Some run leads from `s` to `e`. */
  ghost predicate Reaches(s: State, e: State)
  {
    exists steps :: CanRun(s, steps) && Run(s, steps) == e
  }

  lemma Stays(s: State)
    ensures Reaches(s, s)
  {
    assert CanRun(s, []) && Run(s, []) == s;
  }

  lemma OneMore(s: State, e: State, step: Step)
    requires Reaches(s, e) && Enabled(e, step)
    ensures Reaches(s, Next(e, step))
  {
    var steps :| CanRun(s, steps) && Run(s, steps) == e;
    RunOne(e, step);
    RunsJoin(s, steps, [step]);
    RunConcat(s, steps, [step]);
    hide Enabled, Next;
    assert CanRun(s, steps + [step]);
  }

  /** Everything but who `p` has on record and trusts, and the kicks it has on file, is as it was. */
  ghost predicate OnlyNodes(s: State, e: State, ps: set<DeviceId>)
  {
    e.nodes.Keys == s.nodes.Keys && forall b :: b in s.nodes && b !in ps ==> e.nodes[b] == s.nodes[b]
  }

  /** The node has dropped `t`, and nothing else. */
  ghost predicate Dropped(n: Node, n': Node, t: DeviceId)
  {
    && (forall x :: (x in n'.known <==> x in n.known && x != t) && (x in n'.trusted <==> x in n.trusted && x != t))
    && (forall x :: x != t ==> (x in n'.pending <==> x in n.pending) && (x in n.pending ==> n'.pending[x] == n.pending[x]))
  }

  // ---- a kick ----

  /** The kick has been begun and written, and its notice and announcements are out. */
  lemma KickBegins(s: State, a: DeviceId, t: DeviceId) returns (e: State)
    requires Enabled(s, BeginKick(a, t)) && a != t
    ensures Reaches(s, e) && OnlyNodes(s, e, {a}) && a in e.nodes && Dropped(s.nodes[a], e.nodes[a], t)
    ensures t in e.nodes[a].pending && e.nodes[a].pending[t] == PendingView(a, false)
    ensures KickNotice(a, t, ToAcceptor, t, a) in e.net
    ensures forall p :: p in s.nodes[a].trusted && p != t ==> KickAnnounce(a, p, ToAcceptor, t, a) in e.net
  {
    var c := CopyOf(a, Kicking(t), FilePending(s.nodes[a], t, a));
    Stays(s);
    OneMore(s, s, BeginKick(a, t));
    var s1 := Next(s, BeginKick(a, t));
    OneMore(s, s1, WriteStore(c));
    WrittenBackIsHeld(s1, c);
    e := Next(s1, WriteStore(c));
  }

  lemma AnnouncementArrives(s: State, a: DeviceId, t: DeviceId, p: DeviceId) returns (e: State)
    requires p in s.nodes && p != t && a in s.nodes[p].trusted && KickAnnounce(a, p, ToAcceptor, t, a) in s.net
    ensures Reaches(s, e) && OnlyNodes(s, e, {p}) && e.net == s.net && Dropped(s.nodes[p], e.nodes[p], t)
  {
    var m := KickAnnounce(a, p, ToAcceptor, t, a);
    Stays(s);
    OneMore(s, s, Deliver(m, []));
    AnnouncedTargetGoes(s, m, []);
    e := Next(s, Deliver(m, []));
  }

  /** Every announcement that is out can be delivered, and its receiver drops the target. */
  lemma {:induction false} AnnouncementsArrive(s: State, a: DeviceId, t: DeviceId, ps: set<DeviceId>) returns (e: State)
    requires forall p :: p in ps ==>
      p in s.nodes && p != t && a in s.nodes[p].trusted && KickAnnounce(a, p, ToAcceptor, t, a) in s.net
    ensures Reaches(s, e) && OnlyNodes(s, e, ps) && e.net == s.net
    ensures forall p :: p in ps ==> Dropped(s.nodes[p], e.nodes[p], t)
    decreases |ps|
  {
    hide Reaches, Dropped;
    if p :| p in ps {
      var before := AnnouncementsArrive(s, a, t, ps - {p});
      e := AnnouncementArrives(before, a, t, p);
      ReachesOn(s, before, e);
    } else {
      Stays(s);
      e := s;
    }
  }

  /** The target hears of its kick, leaves, says so, and its kick is swept. */
  lemma TargetLeaves(s: State, a: DeviceId, t: DeviceId, freshMesh: MeshId) returns (e: State)
    requires a in s.nodes && t in s.nodes && a != t && a in s.nodes[t].trusted && t in s.nodes[a].pending
    requires KickNotice(a, t, ToAcceptor, t, a) in s.net
    ensures Reaches(s, e) && OnlyNodes(s, e, {a, t}) && Dropped(s.nodes[a], e.nodes[a], t) && t !in e.nodes[a].pending
    ensures e.nodes[t].trusted == {} && e.nodes[t].mesh == freshMesh
    ensures forall x :: x in e.nodes[t].known <==> x in s.nodes[t].known && x !in s.nodes[t].trusted
  {
    hide Reaches, Next;
    var notice, ack := KickNotice(a, t, ToAcceptor, t, a), LeaveAck(t, a, ToAcceptor, t);
    Stays(s);
    OneMore(s, s, Deliver(notice, freshMesh));
    KickedNodeLeaves(s, notice, freshMesh);
    var s1 := Next(s, Deliver(notice, freshMesh));
    OneMore(s, s1, SendLeaveAck(t, a));
    LeaveIsAcknowledged(s1, t, a);
    var s2 := Next(s1, SendLeaveAck(t, a));
    OneMore(s, s2, Deliver(ack, []));
    AcknowledgedTargetGoes(s2, ack, []);
    var s3 := Next(s2, Deliver(ack, []));
    OneMore(s, s3, Gc(a, t));
    SweptKickGoes(s3, a, t);
    e := Next(s3, Gc(a, t));
  }

  lemma DroppedTwice(n: Node, middle: Node, n': Node, t: DeviceId)
    requires Dropped(n, middle, t) && Dropped(middle, n', t)
    ensures Dropped(n, n', t)
  {
  }

  lemma KickSpreads(s: State, a: DeviceId, t: DeviceId, ps: set<DeviceId>) returns (e: State)
    requires Enabled(s, BeginKick(a, t)) && a != t && a !in ps && t !in ps
    requires forall p :: p in ps ==> p in s.nodes && p in s.nodes[a].trusted && a in s.nodes[p].trusted
    ensures Reaches(s, e) && OnlyNodes(s, e, ps + {a}) && a in e.nodes && Dropped(s.nodes[a], e.nodes[a], t)
    ensures t in e.nodes[a].pending && KickNotice(a, t, ToAcceptor, t, a) in e.net
    ensures forall p :: p in ps ==> Dropped(s.nodes[p], e.nodes[p], t)
  {
    var begun := KickBegins(s, a, t);
    hide Reaches, Next, Enabled, Dropped;
    e := AnnouncementsArrive(begun, a, t, ps);
    ReachesOn(s, begun, e);
  }

  /** A kick can always be carried through: some run has its target off the kicker's store and off
      the store of every peer that trusts the kicker and is trusted by it, the target itself
      trusting nobody, and the kick off file; nobody else loses anybody. */
  lemma KickCanComplete(s: State, a: DeviceId, t: DeviceId, freshMesh: MeshId) returns (e: State)
    requires Enabled(s, BeginKick(a, t)) && a != t && t in s.nodes && a in s.nodes[t].trusted
    ensures Reaches(s, e) && e.nodes.Keys == s.nodes.Keys
    ensures Dropped(s.nodes[a], e.nodes[a], t) && t !in e.nodes[a].pending
    ensures e.nodes[t].trusted == {} && e.nodes[t].mesh == freshMesh
    ensures forall p :: p in s.nodes && p != a && p != t ==>
      if p in s.nodes[a].trusted && a in s.nodes[p].trusted then Dropped(s.nodes[p], e.nodes[p], t)
      else e.nodes[p] == s.nodes[p]
  {
    var ps := set p | p in s.nodes && p != a && p != t && p in s.nodes[a].trusted && a in s.nodes[p].trusted;
    hide Reaches, Next, Enabled, Dropped;
    var announced := KickSpreads(s, a, t, ps);
    e := TargetLeaves(announced, a, t, freshMesh);
    ReachesOn(s, announced, e);
    DroppedTwice(s.nodes[a], announced.nodes[a], e.nodes[a], t);
  }

  lemma ReachesOn(s: State, middle: State, e: State)
    requires Reaches(s, middle) && Reaches(middle, e)
    ensures Reaches(s, e)
  {
    var front :| CanRun(s, front) && Run(s, front) == middle;
    var back :| CanRun(middle, back) && Run(middle, back) == e;
    RunsJoin(s, front, back);
    RunConcat(s, front, back);
    assert CanRun(s, front + back);
  }

  /** An undelivered kick can always be flushed: its target, trusted for the time of one call, is off
      the store again, has been told, and leaves. */
  lemma FlushCanComplete(s: State, a: DeviceId, t: DeviceId, freshMesh: MeshId) returns (e: State)
    requires a in s.nodes && t in s.nodes && a != t && t in s.nodes[a].pending && !s.nodes[a].pending[t].delivered
    requires t !in s.nodes[a].known && s.nodes[a].trusted <= s.nodes[a].known
    requires a in s.nodes[t].trusted && s.nodes[a].pending[t].kicker in s.nodes[t].trusted
    ensures Reaches(s, e) && OnlyNodes(s, e, {a, t}) && Dropped(s.nodes[a], e.nodes[a], t)
    ensures t in e.nodes[a].pending && e.nodes[a].pending[t].delivered
    ensures e.nodes[t].trusted == {} && e.nodes[t].mesh == freshMesh
  {
    hide Reaches;
    var kicker := s.nodes[a].pending[t].kicker;
    var listed, call := Listing(a, t, kicker, 0, false), Call(a, t, 0);
    var told, notice := listed.(dialing := true), KickNotice(a, t, ToAcceptor, t, kicker);
    Stays(s);
    OneMore(s, s, ListKick(listed));
    var s1 := Next(s, ListKick(listed));
    OneMore(s, s1, FlushInsert(listed));
    FlushComesTo(s1, listed);
    var s2 := Next(s1, FlushInsert(listed));
    var s3 := CallCanOpen(s2, call);
    ReachesOn(s, s2, s3);
    OneMore(s, s3, FlushFinish(told));
    FlushedTargetGoes(s3, told);
    var s4 := Next(s3, FlushFinish(told));
    OneMore(s, s4, Deliver(notice, freshMesh));
    KickedNodeLeaves(s4, notice, freshMesh);
    e := Next(s4, Deliver(notice, freshMesh));
  }

  // ---- a session ----

  /** Between two nodes that trust each other a call can be begun and opened. */
  lemma CallCanOpen(s: State, c: Call) returns (e: State)
    requires c.dialer in s.nodes && c.acceptor in s.nodes
    requires c.acceptor in s.nodes[c.dialer].trusted && c.dialer in s.nodes[c.acceptor].trusted
    ensures Reaches(s, e) && e == s.(dials := e.dials, sessions := e.sessions) && c in e.sessions
  {
    Stays(s);
    OneMore(s, s, Dial(c));
    BegunIsHeld(s, Dial(c));
    var s1 := Next(s, Dial(c));
    OneMore(s, s1, Open(c));
    e := Next(s1, Open(c));
  }

  /** And over it the dialing end can get the roster of the other, and hear of its kicks. */
  lemma SessionCanTeach(s: State, c: Call) returns (e: State)
    requires c.dialer in s.nodes && c.acceptor in s.nodes && s.nodes[c.dialer].trusted <= s.nodes[c.dialer].known
    requires c.acceptor in s.nodes[c.dialer].trusted && c.dialer in s.nodes[c.acceptor].trusted
    ensures Reaches(s, e) && OnlyNodes(s, e, {c.dialer})
    ensures forall x :: x in e.nodes[c.dialer].trusted <==>
      x in s.nodes[c.dialer].trusted || (x in s.nodes[c.acceptor].trusted && x != c.dialer)
    ensures Le(e.nodes[c.dialer].mesh, s.nodes[c.acceptor].mesh) && Le(e.nodes[c.dialer].mesh, s.nodes[c.dialer].mesh)
    ensures forall x :: x in s.nodes[c.acceptor].pending ==> exists m :: m in e.net && m.KickAnnounce? && m.to == c.dialer && m.target == x
  {
    hide Reaches, Le, Receive;
    var s1 := CallCanOpen(s, c);
    OneMore(s, s1, GreetKicks(c));
    GreetingTellsKicks(s1, c);
    var s2 := Next(s1, GreetKicks(c));
    OneMore(s, s2, ReplyRoster(c));
    var s3, m := Next(s2, ReplyRoster(c)), RosterMessage(s2, c.acceptor, c.dialer, ToDialer);
    OneMore(s, s3, Deliver(m, []));
    RosterAdds(s3, m, []);
    e := Next(s3, Deliver(m, []));
  }

  // ---- a join ----

  /** A guest can always be joined to a host: then each trusts the other, and the guest whomever
      the host trusts. */
  lemma JoinCanComplete(s: State, guest: DeviceId, host: DeviceId) returns (e: State)
    requires guest in s.nodes && host in s.nodes && guest != host && s.nodes[guest].trusted <= s.nodes[guest].known
    ensures Reaches(s, e) && OnlyNodes(s, e, {guest, host})
    ensures forall x :: x in e.nodes[guest].trusted <==>
      x in s.nodes[guest].trusted || x == host || (x in s.nodes[host].trusted && x != guest)
    ensures forall x :: x in e.nodes[host].trusted <==> x in s.nodes[host].trusted || x == guest
  {
    hide Reaches, Receive, Le, Absorb;
    var n := s.nodes[guest];
    var c := Copy(guest, Linking(host), n.known, n.trusted, n.pending);
    Stays(s);
    OneMore(s, s, BeginLink(guest, host));
    var s1 := Next(s, BeginLink(guest, host));
    OneMore(s, s1, Link(host, guest));
    LinkTrusts(s1, host, guest);
    var s2 := Next(s1, Link(host, guest));
    OneMore(s, s2, JoinReply(c));
    var s3, m := Next(s2, JoinReply(c)), RosterMessage(s2, host, guest, ToGuest);
    OneMore(s, s3, MergeCopy(c, m));
    GuestMergeWritesHeld(s3, c, m);
    var s4 := Next(s3, MergeCopy(c, m));
    var c' :| c' in s4.copies && c'.at == c.at && c'.job == c.job && c'.trusted == s4.nodes[guest].trusted;
    OneMore(s, s4, WriteStore(c'));
    WrittenBackIsHeld(s4, c');
    e := Next(s4, WriteStore(c'));
  }
}
