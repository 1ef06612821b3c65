/** The mesh as a transition system: every node's roster, mesh id and pending kicks, the
    messages on the wire, and whatever is half done: dials, sessions, flushes of pending
    kicks, and commands that hold the store open while they wait.

    `Deliver` may pick any message in `net` and leaves it there, so a run covers every order,
    delay and duplication of deliveries; `Drop` is a message that can no longer arrive.
    Nodes are honest: a message is signed by the node that sent it, so a signature check
    always agrees with `from`. */
module MeshNet {
  import opened Foundations

  type MeshId = Bytes

  /** A pending kick, as far as rosters depend on it: who ordered it, and whether the
      target has been told. */
  datatype PendingView = PendingView(kicker: DeviceId, delivered: bool)

  datatype Node = Node(
    known: set<DeviceId>,     // ids that have a record, whatever its trust state
    trusted: set<DeviceId>,   // ids whose record is Trusted
    mesh: MeshId,
    pending: map<DeviceId, PendingView>,
    added: nat,               // members learned by gossip so far
    marks: nat                // dirty marks made by gossip so far
  )

  /** A connection has a dialing end and an accepting end, and they read different messages;
      so does the command that joins a host as its guest. */
  datatype Side = ToAcceptor | ToDialer | ToGuest

  datatype Message =
    | Roster(from: DeviceId, to: DeviceId, side: Side, ids: set<DeviceId>, mesh: MeshId)
    | KickAnnounce(from: DeviceId, to: DeviceId, side: Side, target: DeviceId, kicker: DeviceId)
    | KickNotice(from: DeviceId, to: DeviceId, side: Side, target: DeviceId, kicker: DeviceId)
    | LeaveAck(from: DeviceId, to: DeviceId, side: Side, target: DeviceId)

  /** Calls between the same two nodes are told apart by a number. */
  datatype Call = Call(dialer: DeviceId, acceptor: DeviceId, number: nat)

  /** A kick on the list of a running flush. The list is made once; `dialing` says whether the
      flush has come to this entry. */
  datatype Listing = Listing(at: DeviceId, target: DeviceId, kicker: DeviceId, flush: nat, dialing: bool)

  /** What a command is about that holds the store open while it waits on the network. */
  datatype Job = Kicking(target: DeviceId) | Linking(peer: DeviceId)

  /** The store as such a command read it; when it writes, it writes all of this back. */
  datatype Copy = Copy(
    at: DeviceId,
    job: Job,
    known: set<DeviceId>,
    trusted: set<DeviceId>,
    pending: map<DeviceId, PendingView>
  )

  datatype State = State(
    nodes: map<DeviceId, Node>,
    net: set<Message>,
    dials: set<Call>,         // begun by a trusting dialer, not yet answered
    sessions: set<Call>,
    flushes: set<Listing>,
    copies: set<Copy>
  )

  datatype Step =
    | Dial(call: Call)
    | Open(call: Call)
    | Close(call: Call)
    | PushRoster(a: DeviceId, b: DeviceId)
    | ReplyRoster(call: Call)
    | GreetKicks(call: Call)
    | Deliver(m: Message, freshMesh: MeshId)
    | Drop(m: Message)
    | BeginKick(a: DeviceId, target: DeviceId)
    | BeginLink(a: DeviceId, peer: DeviceId)
    | JoinReply(copy: Copy)
    | MergeCopy(copy: Copy, m: Message)
    | WriteKicks(copy: Copy)
    | WriteStore(copy: Copy)
    | EndJob(copy: Copy)
    | ListKick(entry: Listing)
    | FlushInsert(entry: Listing)
    | FlushFinish(entry: Listing)
    | FlushGiveUp(entry: Listing)
    | SendLeaveAck(a: DeviceId, b: DeviceId)
    | Gc(a: DeviceId, target: DeviceId)
    | Unlink(a: DeviceId, peer: DeviceId)
    | Link(a: DeviceId, peer: DeviceId)

  // ---- what one node does ----

  /** The ids a node advertises: itself and its trusted peers. */
  function RosterIds(me: DeviceId, n: Node): set<DeviceId>
  {
    {me} + n.trusted
  }

  function MinMesh(own: MeshId, other: MeshId): MeshId
  {
    if Le(own, other) then own else other
  }

  /** Merging a roster: the per-id view of `apply_membership`. */
  function Absorb(n: Node, me: DeviceId, ids: set<DeviceId>, mesh: MeshId): Node
  {
    var learned := ids - {me} - n.trusted;
    n.(known := n.known + learned,
       trusted := n.trusted + learned,
       mesh := MinMesh(n.mesh, mesh),
       added := n.added + |learned|,
       marks := if learned == {} then n.marks else n.marks + 1)
  }

  /** A merge is a union: trusted peers and known peers both grow by the roster, less itself. */
  lemma AbsorbIsUnion(n: Node, me: DeviceId, ids: set<DeviceId>, mesh: MeshId)
    requires n.trusted <= n.known
    ensures Absorb(n, me, ids, mesh).trusted == n.trusted + (ids - {me})
    ensures Absorb(n, me, ids, mesh).known == n.known + (ids - {me})
  {
  }

  function AddPeer(n: Node, peer: DeviceId): Node
  {
    n.(known := n.known + {peer}, trusted := n.trusted + {peer})
  }

  /** The operator's kick, once it is written back with nothing in between, and a kick that
      was announced: filing it and dropping its target. */
  function FileKick(n: Node, target: DeviceId, kicker: DeviceId, told: bool): Node
  {
    Forget(n.(pending := n.pending[target := PendingView(kicker, told)]), target)
  }

  function FilePending(n: Node, target: DeviceId, kicker: DeviceId): Node
  {
    n.(pending := n.pending[target := PendingView(kicker, false)])
  }

  /** Trusting a kicked target for the time of one dial, if it has no record and its kick is
      still on file, delivered or not. */
  function FlushAdd(n: Node, target: DeviceId): Node
  {
    if target in n.known || target !in n.pending then n else AddPeer(n, target)
  }

  function Forget(n: Node, peer: DeviceId): Node
  {
    n.(known := n.known - {peer}, trusted := n.trusted - {peer})
  }

  function MarkTold(n: Node, target: DeviceId): Node
  {
    if target in n.pending
    then n.(pending := n.pending[target := n.pending[target].(delivered := true)])
    else n
  }

  /** Leaving after a kick: every trusted record goes, and the mesh id is replaced. */
  function LeaveMesh(n: Node, freshMesh: MeshId): Node
  {
    n.(known := n.known - n.trusted, trusted := {}, mesh := freshMesh)
  }

  /** What node `me` makes of one delivered message. */
  function Receive(n: Node, me: DeviceId, m: Message, freshMesh: MeshId): Node
  {
    match m
    case Roster(from, _, side, ids, mesh) =>
      if side == ToGuest || (side == ToAcceptor && from !in n.trusted) then n else Absorb(n, me, ids, mesh)
    case KickAnnounce(from, _, side, target, kicker) =>
      if side != ToAcceptor || kicker !in n.trusted || kicker != from then n
      else if target == me then
        LeaveMesh(n.(pending := n.pending[target := PendingView(kicker, true)]), freshMesh)
      else
        FileKick(n, target, kicker, false)
    case KickNotice(_, _, side, target, kicker) =>
      if side != ToAcceptor || kicker !in n.trusted || target != me then n else LeaveMesh(n, freshMesh)
    case LeaveAck(_, _, side, target) =>
      if side != ToAcceptor then n else MarkTold(Forget(n, target), target)
  }

  // ---- what a command does that holds the store ----

  function CopyOf(a: DeviceId, job: Job, n: Node): Copy
  {
    Copy(a, job, n.known, n.trusted, n.pending)
  }

  /** The copy with the change the command is for. */
  function Changed(c: Copy): Copy
  {
    match c.job
    case Kicking(target) => c.(known := c.known - {target}, trusted := c.trusted - {target})
    case Linking(peer) => c.(known := c.known + {peer}, trusted := c.trusted + {peer})
  }

  function Told(c: Copy): map<DeviceId, PendingView>
    requires c.job.Kicking?
  {
    if c.job.target in c.pending
    then c.pending[c.job.target := c.pending[c.job.target].(delivered := true)] else c.pending
  }

  /** A guest merges its host's roster into its copy. */
  function Merged(c: Copy, ids: set<DeviceId>): Copy
  {
    var learned := ids - {c.at} - c.trusted;
    c.(known := c.known + learned, trusted := c.trusted + learned)
  }

  function Overwritten(n: Node, c: Copy): Node
  {
    n.(known := c.known, trusted := c.trusted)
  }

  // ---- what the whole mesh does ----

  function RosterMessage(s: State, from: DeviceId, to: DeviceId, side: Side): Message
    requires from in s.nodes
  {
    Roster(from, to, side, RosterIds(from, s.nodes[from]), s.nodes[from].mesh)
  }

  ghost predicate HasSession(s: State, a: DeviceId, b: DeviceId)
  {
    exists c :: c in s.sessions && c.dialer == a && c.acceptor == b
  }

  ghost predicate Enabled(s: State, step: Step)
  {
    match step
    case Dial(c) => c.dialer in s.nodes && c.acceptor in s.nodes[c.dialer].trusted
    case Open(c) =>
      c in s.dials && c.dialer in s.nodes && c.acceptor in s.nodes && c.dialer in s.nodes[c.acceptor].trusted
    case Close(_) => true
    case PushRoster(a, b) => a in s.nodes && (b in s.nodes[a].trusted || HasSession(s, a, b))
    case ReplyRoster(c) => c in s.sessions && c.acceptor in s.nodes
    case GreetKicks(c) => c in s.sessions && c.acceptor in s.nodes
    case Deliver(m, _) => m in s.net && m.to in s.nodes
    case Drop(_) => true
    case BeginKick(a, target) => a in s.nodes && target in s.nodes[a].trusted
    case BeginLink(a, _) => a in s.nodes
    case JoinReply(c) => c in s.copies && c.job.Linking? && c.job.peer in s.nodes
    case MergeCopy(c, m) =>
      && c in s.copies && c.job.Linking? && c.at in s.nodes
      && m in s.net && m.Roster? && m.side == ToGuest && m.to == c.at && m.from == c.job.peer
    case WriteKicks(c) => c in s.copies && c.job.Kicking? && c.at in s.nodes
    case WriteStore(c) => c in s.copies && c.at in s.nodes
    case EndJob(_) => true
    case ListKick(l) =>
      && l.at in s.nodes && !l.dialing
      && l.target in s.nodes[l.at].pending && s.nodes[l.at].pending[l.target] == PendingView(l.kicker, false)
    case FlushInsert(l) => l in s.flushes && l.at in s.nodes && !l.dialing
    case FlushFinish(l) => l in s.flushes && l.at in s.nodes && l.dialing
    case FlushGiveUp(_) => true
    case SendLeaveAck(a, _) => a in s.nodes
    case Gc(a, target) => a in s.nodes && target in s.nodes[a].pending && s.nodes[a].pending[target].delivered
    case Unlink(a, peer) => a in s.nodes && peer in s.nodes[a].known
    case Link(a, _) => a in s.nodes
  }

  ghost function SetNode(s: State, a: DeviceId, n: Node): State
  {
    s.(nodes := s.nodes[a := n])
  }

  ghost function Post(s: State, ms: set<Message>): State
  {
    s.(net := s.net + ms)
  }

  ghost function Next(s: State, step: Step): State
    requires Enabled(s, step)
  {
    match step
    case Dial(c) => s.(dials := s.dials + {c})
    case Open(c) => s.(dials := s.dials - {c}, sessions := s.sessions + {c})
    case Close(c) => s.(dials := s.dials - {c}, sessions := s.sessions - {c})
    case PushRoster(a, b) => Post(s, {RosterMessage(s, a, b, ToAcceptor)})
    case ReplyRoster(c) => Post(s, {RosterMessage(s, c.acceptor, c.dialer, ToDialer)})
    case GreetKicks(c) =>
      var a, d, pending := c.acceptor, c.dialer, s.nodes[c.acceptor].pending;
      Post(s, (set x | x in pending :: KickAnnounce(a, d, ToDialer, x, pending[x].kicker))
            + (set x | x in pending && x == d && !pending[x].delivered :: KickNotice(a, d, ToDialer, x, pending[x].kicker)))
    case Deliver(m, freshMesh) => SetNode(s, m.to, Receive(s.nodes[m.to], m.to, m, freshMesh))
    case Drop(m) => s.(net := s.net - {m})
    case BeginKick(a, target) =>
      var n := FilePending(s.nodes[a], target, a);
      Post(SetNode(s, a, n).(copies := s.copies + {CopyOf(a, Kicking(target), n)}),
           {KickNotice(a, target, ToAcceptor, target, a)}
           + (set p | p in n.trusted - {target} :: KickAnnounce(a, p, ToAcceptor, target, a)))
    case BeginLink(a, peer) => s.(copies := s.copies + {CopyOf(a, Linking(peer), s.nodes[a])})
    case JoinReply(c) => Post(s, {RosterMessage(s, c.job.peer, c.at, ToGuest)})
    case MergeCopy(c, m) =>
      var merged, n := Merged(c, m.ids), Absorb(s.nodes[c.at], c.at, m.ids, m.mesh);
      SetNode(s, c.at, Overwritten(n, merged)).(copies := s.copies - {c} + {merged})
    case WriteKicks(c) => SetNode(s, c.at, s.nodes[c.at].(pending := Told(c)))
    case WriteStore(c) =>
      SetNode(s, c.at, Overwritten(s.nodes[c.at], Changed(c)))
        .(copies := s.copies - {c} + if c.job.Linking? then {Changed(c)} else {})
    case EndJob(c) => s.(copies := s.copies - {c})
    case ListKick(l) => s.(flushes := s.flushes + {l})
    case FlushInsert(l) =>
      SetNode(s, l.at, FlushAdd(s.nodes[l.at], l.target)).(flushes := s.flushes - {l} + {l.(dialing := true)})
    case FlushFinish(l) =>
      Post(SetNode(s, l.at, MarkTold(Forget(s.nodes[l.at], l.target), l.target)).(flushes := s.flushes - {l}),
           {KickNotice(l.at, l.target, ToAcceptor, l.target, l.kicker)})
    case FlushGiveUp(l) => s.(flushes := s.flushes - {l})
    case SendLeaveAck(a, b) => Post(s, {LeaveAck(a, b, ToAcceptor, a)})
    case Gc(a, target) => SetNode(s, a, s.nodes[a].(pending := s.nodes[a].pending - {target}))
    case Unlink(a, peer) => SetNode(s, a, s.nodes[a].(trusted := s.nodes[a].trusted - {peer}))
    case Link(a, peer) => SetNode(s, a, AddPeer(s.nodes[a], peer))
  }

  // ---- runs ----

  ghost predicate CanRun(s: State, steps: seq<Step>)
    decreases |steps|
  {
    steps == [] || (Enabled(s, steps[0]) && CanRun(Next(s, steps[0]), steps[1..]))
  }

  ghost function Run(s: State, steps: seq<Step>): State
    requires CanRun(s, steps)
    decreases |steps|
  {
    if steps == [] then s else Run(Next(s, steps[0]), steps[1..])
  }

  lemma {:induction false} RunConcat(s: State, front: seq<Step>, back: seq<Step>)
    requires CanRun(s, front + back)
    ensures CanRun(s, front) && CanRun(Run(s, front), back)
    ensures Run(s, front + back) == Run(Run(s, front), back)
    decreases |front|
  {
    if front == [] {
      assert front + back == back;
    } else {
      assert (front + back)[1..] == front[1..] + back;
      RunConcat(Next(s, front[0]), front[1..], back);
    }
  }

  lemma {:induction false} RunsJoin(s: State, front: seq<Step>, back: seq<Step>)
    requires CanRun(s, front) && CanRun(Run(s, front), back)
    ensures CanRun(s, front + back)
    decreases |front|
  {
    if front == [] {
      assert front + back == back;
    } else {
      assert (front + back)[1..] == front[1..] + back;
      RunsJoin(Next(s, front[0]), front[1..], back);
    }
  }

  /** Trusted peers always have a record, in the store and in every copy of it. */
  ghost predicate WellFormed(s: State)
  {
    && (forall a :: a in s.nodes ==> s.nodes[a].trusted <= s.nodes[a].known)
    && (forall c :: c in s.copies ==> c.trusted <= c.known)
  }

  lemma NextWellFormed(s: State, step: Step)
    requires WellFormed(s) && Enabled(s, step)
    ensures WellFormed(Next(s, step))
    ensures Next(s, step).nodes.Keys == s.nodes.Keys
  {
    NextNodesWellFormed(s, step);
    NextCopiesWellFormed(s, step);
    hide Next;
  }

  lemma NextNodesWellFormed(s: State, step: Step)
    requires WellFormed(s) && Enabled(s, step)
    ensures Next(s, step).nodes.Keys == s.nodes.Keys
    ensures forall a :: a in s.nodes ==> Next(s, step).nodes[a].trusted <= Next(s, step).nodes[a].known
  {
    if step.Deliver? { ReceiveWellFormed(s.nodes[step.m.to], step.m.to, step.m, step.freshMesh); }
    hide Receive;
  }

  lemma ReceiveWellFormed(n: Node, me: DeviceId, m: Message, freshMesh: MeshId)
    requires n.trusted <= n.known
    ensures Receive(n, me, m, freshMesh).trusted <= Receive(n, me, m, freshMesh).known
  {
  }

  lemma NextCopiesWellFormed(s: State, step: Step)
    requires WellFormed(s) && Enabled(s, step)
    ensures forall c :: c in Next(s, step).copies ==> c.trusted <= c.known
  {
    hide Receive, Absorb, FlushAdd, MarkTold, RosterMessage, MinMesh, Told;
    forall c | c in Next(s, step).copies && c !in s.copies ensures c.trusted <= c.known {
      if step.MergeCopy? || step.WriteStore? { assert step.copy in s.copies; }
    }
  }

  /** A kick that nothing comes in between is what filing it and dropping its target is. */
  lemma UndisturbedKick(s: State, a: DeviceId, target: DeviceId, told: bool)
    requires Enabled(s, BeginKick(a, target))
    ensures var c := CopyOf(a, Kicking(target), FilePending(s.nodes[a], target, a));
      var steps := [BeginKick(a, target)] + (if told then [WriteKicks(c)] else []) + [WriteStore(c)];
      CanRun(s, steps) && a in Run(s, steps).nodes && Run(s, steps).nodes[a] == FileKick(s.nodes[a], target, a, told)
  {
    var c := CopyOf(a, Kicking(target), FilePending(s.nodes[a], target, a));
    var front := [BeginKick(a, target)];
    var begun := Next(s, BeginKick(a, target));
    RunOne(s, front[0]);
    if told {
      RunOne(begun, WriteKicks(c));
      RunsJoin(s, front, [WriteKicks(c)]);
      RunConcat(s, front, [WriteKicks(c)]);
      front := front + [WriteKicks(c)];
    } else {
      assert front + [] == front;
    }
    var s1 := Run(s, front);
    RunOne(s1, WriteStore(c));
    RunsJoin(s, front, [WriteStore(c)]);
    RunConcat(s, front, [WriteStore(c)]);
  }

  lemma RunOne(s: State, step: Step)
    requires Enabled(s, step)
    ensures CanRun(s, [step]) && Run(s, [step]) == Next(s, step)
  {
    assert [step][1..] == [];
    assert CanRun(Next(s, step), []);
  }
}
