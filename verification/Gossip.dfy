/** Gossip without kicks, joins or unlinks: it does a bounded amount of work, it never
    loses what a node knows, and enough rounds leave every node with the full roster and
    the least mesh id. */
module Gossip {
  import opened Foundations
  import opened MeshNet

  /** The steps of a mesh in which nobody joins, leaves or is kicked. */
  predicate IsGossip(step: Step)
  {
    || step.Dial? || step.Open? || step.Close? || step.PushRoster? || step.ReplyRoster? || step.Drop?
    || (step.Deliver? && step.m.Roster?)
  }

  predicate AllGossip(steps: seq<Step>)
  {
    forall step :: step in steps ==> IsGossip(step)
  }

  /** Every id that is stored or in flight belongs to one of the nodes. */
  ghost predicate Closed(s: State)
  {
    && (forall a :: a in s.nodes ==> s.nodes[a].trusted <= s.nodes.Keys)
    && (forall m :: m in s.net && m.Roster? ==> m.ids <= s.nodes.Keys)
  }

  // ---- what one step can change ----

  /** `later` is `earlier` after some gossip: trust only grows, mesh ids only go down. */
  ghost predicate Advanced(earlier: State, later: State)
  {
    && earlier.nodes.Keys == later.nodes.Keys
    && forall a :: a in earlier.nodes ==>
         && earlier.nodes[a].trusted <= later.nodes[a].trusted
         && Le(later.nodes[a].mesh, earlier.nodes[a].mesh)
  }

  /** A gossip step leaves every node alone but the one that merges a delivered roster. */
  lemma StepTouches(s: State, step: Step)
    requires Enabled(s, step) && IsGossip(step)
    ensures var nodes := Next(s, step).nodes;
      nodes == if step.Deliver?
        then s.nodes[step.m.to := Receive(s.nodes[step.m.to], step.m.to, step.m, step.freshMesh)] else s.nodes
    ensures step.Deliver? ==> var n, m := s.nodes[step.m.to], step.m;
      Receive(n, m.to, m, step.freshMesh) == n || Receive(n, m.to, m, step.freshMesh) == Absorb(n, m.to, m.ids, m.mesh)
  {
  }

  /** What it puts on the wire is the roster of one of the nodes. */
  lemma StepPosts(s: State, step: Step, m: Message)
    requires Enabled(s, step) && IsGossip(step) && m in Next(s, step).net && m !in s.net
    ensures m.Roster? && m.from in s.nodes && m.ids == RosterIds(m.from, s.nodes[m.from]) && m.mesh == s.nodes[m.from].mesh
  {
  }

  lemma StepAdvances(s: State, step: Step)
    requires Enabled(s, step) && IsGossip(step)
    ensures Advanced(s, Next(s, step))
    ensures Closed(s) ==> Closed(Next(s, step))
  {
    forall a | a in s.nodes ensures Le(Next(s, step).nodes[a].mesh, s.nodes[a].mesh) {
      LeReflexive(s.nodes[a].mesh);
      if step.Deliver? {
        LeTotal(s.nodes[a].mesh, step.m.mesh);
      }
    }
  }

  lemma {:induction false} RunAdvances(s: State, steps: seq<Step>)
    requires CanRun(s, steps) && AllGossip(steps)
    ensures Advanced(s, Run(s, steps))
    ensures Closed(s) ==> Closed(Run(s, steps))
    decreases |steps|
  {
    if steps == [] {
      forall a | a in s.nodes ensures Le(s.nodes[a].mesh, s.nodes[a].mesh) { LeReflexive(s.nodes[a].mesh); }
    } else {
      var next := Next(s, steps[0]);
      StepAdvances(s, steps[0]);
      RunAdvances(next, steps[1..]);
      forall a | a in s.nodes ensures Le(Run(s, steps).nodes[a].mesh, s.nodes[a].mesh) {
        LeTransitive(Run(s, steps).nodes[a].mesh, next.nodes[a].mesh, s.nodes[a].mesh);
      }
    }
  }

  // ---- quiescence: a conserved quantity ----

  /** How many of the mesh's nodes are still missing from the roster of `a`. */
  ghost function Missing(s: State, a: DeviceId): int
  {
    if a in s.nodes then |s.nodes.Keys - RosterIds(a, s.nodes[a])| else 0
  }

  ghost function Added(s: State, a: DeviceId): int
  {
    if a in s.nodes then s.nodes[a].added else 0
  }

  ghost function Marks(s: State, a: DeviceId): int
  {
    if a in s.nodes then s.nodes[a].marks else 0
  }

  ghost function TotalMissing(s: State, names: seq<DeviceId>): int { Sum(names, a => Missing(s, a)) }
  ghost function TotalAdded(s: State, names: seq<DeviceId>): int { Sum(names, a => Added(s, a)) }
  ghost function TotalMarks(s: State, names: seq<DeviceId>): int { Sum(names, a => Marks(s, a)) }

  /** `names` lists the nodes, each once. */
  ghost predicate Lists(names: seq<DeviceId>, s: State)
  {
    NoDuplicates(names) && Elements(names) == s.nodes.Keys
  }

  lemma LearningIsFinding(all: set<DeviceId>, trusted: set<DeviceId>, a: DeviceId, ids: set<DeviceId>)
    requires ids <= all
    ensures var learned := ids - {a} - trusted;
      |all - ({a} + (trusted + learned))| == |all - ({a} + trusted)| - |learned|
  {
    var learned, missing := ids - {a} - trusted, all - ({a} + trusted);
    SubsetSize(learned, missing);
    assert all - ({a} + (trusted + learned)) == missing - learned;
  }

  /** Learning is exact bookkeeping at the node that merges a roster: what it learns is
      what it stops missing, and it makes a dirty mark just when it learns something. */
  lemma AbsorbAccounts(s: State, a: DeviceId, ids: set<DeviceId>, mesh: MeshId)
    requires a in s.nodes && ids <= s.nodes.Keys
    ensures var n' := Absorb(s.nodes[a], a, ids, mesh); var s' := SetNode(s, a, n');
      && Missing(s', a) + Added(s', a) == Missing(s, a) + Added(s, a)
      && 0 <= Marks(s', a) - Marks(s, a) <= Added(s', a) - Added(s, a)
      && (Marks(s', a) > Marks(s, a) <==> Missing(s', a) < Missing(s, a))
  {
    var n := s.nodes[a];
    var n' := Absorb(n, a, ids, mesh);
    LearningIsFinding(s.nodes.Keys, n.trusted, a, ids);
    assert SetNode(s, a, n').nodes.Keys == s.nodes.Keys;
    assert n'.trusted == n.trusted + (ids - {a} - n.trusted);
  }

  /** The same bookkeeping for a whole step: only the node a roster reaches is touched. */
  lemma StepAccounts(s: State, step: Step, a: DeviceId)
    requires Enabled(s, step) && IsGossip(step) && Closed(s)
    ensures var s' := Next(s, step);
      && Missing(s', a) + Added(s', a) == Missing(s, a) + Added(s, a)
      && 0 <= Marks(s', a) - Marks(s, a) <= Added(s', a) - Added(s, a)
      && (Marks(s', a) > Marks(s, a) <==> Missing(s', a) < Missing(s, a))
      && (!step.Deliver? || a != step.m.to ==>
            Missing(s', a) == Missing(s, a) && Added(s', a) == Added(s, a) && Marks(s', a) == Marks(s, a))
  {
    var s' := Next(s, step);
    StepTouches(s, step);
    hide Next, Enabled, Receive, Absorb;
    assert s'.nodes.Keys == s.nodes.Keys;
    if step.Deliver? && a == step.m.to {
      AbsorbAccounts(s, a, step.m.ids, step.m.mesh);
    }
  }

  lemma {:induction false} StepConserves(s: State, step: Step, names: seq<DeviceId>)
    requires Enabled(s, step) && IsGossip(step) && Closed(s) && Lists(names, s)
    ensures var s' := Next(s, step);
      && TotalMissing(s', names) + TotalAdded(s', names) == TotalMissing(s, names) + TotalAdded(s, names)
      && 0 <= TotalMarks(s', names) - TotalMarks(s, names) <= TotalAdded(s', names) - TotalAdded(s, names)
      && (TotalMarks(s', names) > TotalMarks(s, names) <==> TotalMissing(s', names) < TotalMissing(s, names))
  {
    var s' := Next(s, step);
    forall a { StepAccounts(s, step, a); }
    var at: DeviceId :| step.Deliver? ==> at == step.m.to;
    SumChangesAt(names, a => Missing(s, a), a => Missing(s', a), at);
    SumChangesAt(names, a => Added(s, a), a => Added(s', a), at);
    SumChangesAt(names, a => Marks(s, a), a => Marks(s', a), at);
    if step.Deliver? {
      assert at in Elements(names);
    }
  }

  /** Over any gossip run, members learned and members still missing add up to a constant,
      and a dirty mark is only ever made by a merge that shrinks what is missing. */
  lemma {:induction false} RunConserves(s: State, steps: seq<Step>, names: seq<DeviceId>)
    requires CanRun(s, steps) && AllGossip(steps) && Closed(s) && Lists(names, s)
    ensures var s' := Run(s, steps);
      && TotalMissing(s', names) + TotalAdded(s', names) == TotalMissing(s, names) + TotalAdded(s, names)
      && 0 <= TotalMarks(s', names) - TotalMarks(s, names) <= TotalAdded(s', names) - TotalAdded(s, names)
    decreases |steps|
  {
    if steps != [] {
      StepConserves(s, steps[0], names);
      StepAdvances(s, steps[0]);
      RunConserves(Next(s, steps[0]), steps[1..], names);
    }
  }

  lemma MissingBounded(s: State, names: seq<DeviceId>)
    requires Lists(names, s)
    ensures 0 <= TotalMissing(s, names) <= |s.nodes| * (|s.nodes| - 1)
  {
    forall a | a in names ensures 0 <= Missing(s, a) <= |s.nodes| - 1 {
      assert a in Elements(names);
      SubsetSize(s.nodes.Keys - RosterIds(a, s.nodes[a]), s.nodes.Keys - {a});
      SubsetSize({a}, s.nodes.Keys);
    }
    DistinctLength(names);
    if names != [] {
      SumBounded(names, a => Missing(s, a), |s.nodes| - 1);
    } else {
      assert s.nodes.Keys == {};
    }
  }

  /** Gossip quiesces: N nodes make at most N(N-1) dirty marks, however long they run and
      whatever is delayed, reordered or delivered twice. */
  lemma {:induction false} GossipQuiesces(s: State, steps: seq<Step>, names: seq<DeviceId>)
    requires CanRun(s, steps) && AllGossip(steps) && Closed(s) && Lists(names, s)
    ensures TotalMarks(Run(s, steps), names) - TotalMarks(s, names) <= TotalMissing(s, names)
    ensures TotalMarks(Run(s, steps), names) - TotalMarks(s, names) <= |s.nodes| * (|s.nodes| - 1)
  {
    RunConserves(s, steps, names);
    RunAdvances(s, steps);
    MissingBounded(s, names);
    MissingBounded(Run(s, steps), names);
  }

  // ---- completeness ----

  ghost predicate Mutual(s: State, a: DeviceId, b: DeviceId)
  {
    a in s.nodes && b in s.nodes && b in s.nodes[a].trusted && a in s.nodes[b].trusted
  }

  ghost predicate IsPath(s: State, path: seq<DeviceId>)
  {
    && path != []
    && (forall i :: 0 <= i < |path| ==> path[i] in s.nodes)
    && forall i :: 0 <= i < |path| - 1 ==> Mutual(s, path[i], path[i + 1])
  }

  /** Any two nodes are joined by a path of mutually trusting nodes of at most `d` hops. */
  ghost predicate Connected(s: State, d: nat)
  {
    forall a, b :: a in s.nodes && b in s.nodes ==> Linked(s, a, b, d)
  }

  ghost predicate Linked(s: State, a: DeviceId, b: DeviceId, d: nat)
  {
    exists path :: IsPath(s, path) && |path| <= d + 1 && path[0] == a && path[|path| - 1] == b
  }

  /** Nothing is left to gossip: the roster any node would send now teaches its peer nothing. */
  ghost predicate Quiet(s: State)
  {
    forall a, b :: Mutual(s, a, b) ==>
      (Receive(s.nodes[b], b, RosterMessage(s, a, b, ToAcceptor), s.nodes[b].mesh)).added == s.nodes[b].added
  }

  lemma {:induction false} QuietAlongPath(s: State, path: seq<DeviceId>)
    requires Quiet(s) && IsPath(s, path)
    ensures path[0] in RosterIds(path[|path| - 1], s.nodes[path[|path| - 1]])
    decreases |path|
  {
    if |path| > 1 {
      var init := path[..|path| - 1];
      QuietAlongPath(s, init);
      var a, b := path[|path| - 2], path[|path| - 1];
      assert Mutual(s, a, b);
      var learned := RosterIds(a, s.nodes[a]) - {b} - s.nodes[b].trusted;
      assert learned == {};
      assert path[0] !in learned;
    }
  }

  /** On a connected trust graph, a mesh with nothing left to gossip is complete: every
      roster is the set of all nodes, so all rosters are the same. A roster never merges
      into a larger one, so the converse holds too. */
  lemma QuietIffComplete(s: State, d: nat)
    requires Connected(s, d) && Closed(s)
    ensures Quiet(s) <==> forall a :: a in s.nodes ==> RosterIds(a, s.nodes[a]) == s.nodes.Keys
  {
    if Quiet(s) {
      forall a, x | a in s.nodes && x in s.nodes ensures x in RosterIds(a, s.nodes[a]) {
        assert Linked(s, x, a, d);
        var path :| IsPath(s, path) && |path| <= d + 1 && path[0] == x && path[|path| - 1] == a;
        QuietAlongPath(s, path);
      }
      forall a | a in s.nodes ensures RosterIds(a, s.nodes[a]) == s.nodes.Keys {
      }
    }
    if forall a :: a in s.nodes ==> RosterIds(a, s.nodes[a]) == s.nodes.Keys {
      forall a, b | Mutual(s, a, b)
        ensures (Receive(s.nodes[b], b, RosterMessage(s, a, b, ToAcceptor), s.nodes[b].mesh)).added == s.nodes[b].added
      {
        assert RosterIds(b, s.nodes[b]) == s.nodes.Keys;
        assert RosterIds(a, s.nodes[a]) - {b} - s.nodes[b].trusted == {};
      }
    }
  }

  // ---- convergence in rounds ----

  /** Every mesh id in flight is no lower than the lowest id some node holds. */
  ghost predicate Bounded(s: State, low: MeshId)
  {
    && (forall a :: a in s.nodes ==> Le(low, s.nodes[a].mesh))
    && (forall m :: m in s.net && m.Roster? ==> Le(low, m.mesh))
  }

  /** Mesh ids a node could ever show: those held or in flight. */
  ghost predicate Offers(s: State, id: MeshId)
  {
    || (exists a :: a in s.nodes && s.nodes[a].mesh == id)
    || (exists m :: m in s.net && m.Roster? && m.mesh == id)
  }

  lemma StepOffers(s: State, step: Step, id: MeshId)
    requires Enabled(s, step) && IsGossip(step) && Offers(Next(s, step), id)
    ensures Offers(s, id)
  {
    var s' := Next(s, step);
    StepTouches(s, step);
    if a :| a in s'.nodes && s'.nodes[a].mesh == id {
    } else {
      var m :| m in s'.net && m.Roster? && m.mesh == id;
      if m !in s.net { StepPosts(s, step, m); }
    }
  }

  lemma StepBounded(s: State, step: Step, id: MeshId)
    requires Enabled(s, step) && IsGossip(step) && Bounded(s, id)
    ensures Bounded(Next(s, step), id)
  {
    var s' := Next(s, step);
    StepTouches(s, step);
    forall m | m in s'.net && m.Roster? ensures Le(id, m.mesh) {
      if m !in s.net { StepPosts(s, step, m); }
    }
  }

  lemma StepInherits(s: State, step: Step, id: MeshId)
    requires Enabled(s, step) && IsGossip(step)
    ensures Offers(Next(s, step), id) ==> Offers(s, id)
    ensures Bounded(s, id) ==> Bounded(Next(s, step), id)
  {
    if Offers(Next(s, step), id) { StepOffers(s, step, id); }
    if Bounded(s, id) { StepBounded(s, step, id); }
  }

  /** Gossip invents no mesh id, and never goes below a bound. */
  lemma {:induction false} MeshIdsAreInherited(s: State, steps: seq<Step>, id: MeshId)
    requires CanRun(s, steps) && AllGossip(steps)
    ensures Offers(Run(s, steps), id) ==> Offers(s, id)
    ensures Bounded(s, id) ==> Bounded(Run(s, steps), id)
    decreases |steps|
  {
    if steps != [] {
      StepInherits(s, steps[0], id);
      MeshIdsAreInherited(Next(s, steps[0]), steps[1..], id);
    }
  }

  /** In segment `seg` starting at `s`, node `a` pushes its roster to `b` and that very
      message is delivered. */
  ghost predicate Covers(s: State, seg: seq<Step>, a: DeviceId, b: DeviceId)
    requires CanRun(s, seg)
  {
    exists p, q :: 0 <= p < q < |seg| && CoversAt(s, seg, a, b, p, q)
  }

  ghost predicate CoversAt(s: State, seg: seq<Step>, a: DeviceId, b: DeviceId, p: nat, q: nat)
    requires CanRun(s, seg) && p < q < |seg|
  {
    && seg[p] == PushRoster(a, b)
    && seg[q].Deliver?
    && CanRun(s, seg[..p])
    && a in Run(s, seg[..p]).nodes
    && seg[q].m == RosterMessage(Run(s, seg[..p]), a, b, ToAcceptor)
  }

  /** A pushed roster that is delivered to a node that trusts its sender is merged. */
  lemma DeliveredIsMerged(s: State, m: Message, freshMesh: MeshId)
    requires Enabled(s, Deliver(m, freshMesh)) && m.Roster? && m.side == ToAcceptor && m.from in s.nodes[m.to].trusted
    ensures var after := Next(s, Deliver(m, freshMesh));
      m.to in after.nodes && Le(after.nodes[m.to].mesh, m.mesh) && m.ids <= RosterIds(m.to, after.nodes[m.to])
  {
    LeTotal(s.nodes[m.to].mesh, m.mesh);
    LeReflexive(m.mesh);
  }

  /** Cutting a run at a step. */
  lemma RunAround(s: State, seg: seq<Step>, q: nat)
    requires CanRun(s, seg) && AllGossip(seg) && q < |seg|
    ensures CanRun(s, seg[..q]) && Enabled(Run(s, seg[..q]), seg[q])
    ensures Advanced(s, Run(s, seg[..q]))
    ensures Advanced(Next(Run(s, seg[..q]), seg[q]), Run(s, seg))
  {
    hide Enabled, Next;
    assert seg == seg[..q] + seg[q..];
    RunConcat(s, seg[..q], seg[q..]);
    RunAdvances(s, seg[..q]);
    assert seg[q..][0] == seg[q] && seg[q..][1..] == seg[q + 1..];
    RunAdvances(Next(Run(s, seg[..q]), seg[q]), seg[q + 1..]);
  }

  /** A covered edge carries everything its sender knew at the start of the segment. */
  lemma CoverCarries(s: State, seg: seq<Step>, a: DeviceId, b: DeviceId)
    requires CanRun(s, seg) && AllGossip(seg) && Mutual(s, a, b) && Covers(s, seg, a, b)
    ensures var s' := Run(s, seg);
      && b in s'.nodes
      && Le(s'.nodes[b].mesh, s.nodes[a].mesh)
      && RosterIds(a, s.nodes[a]) <= RosterIds(b, s'.nodes[b])
  {
    hide Enabled, Next, Run, CanRun, IsGossip;
    var p: nat, q: nat :| p < q < |seg| && CoversAt(s, seg, a, b, p, q);
    var m := seg[q].m;
    RunAround(s, seg, p);
    RunAround(s, seg, q);
    var before := Run(s, seg[..q]);
    var after, s' := Next(before, seg[q]), Run(s, seg);
    assert seg[q] == Deliver(m, seg[q].freshMesh);
    DeliveredIsMerged(before, m, seg[q].freshMesh);
    LeTransitive(s'.nodes[b].mesh, after.nodes[b].mesh, m.mesh);
    LeTransitive(s'.nodes[b].mesh, m.mesh, s.nodes[a].mesh);
  }

  /** A sequence of segments, each of which covers every edge that was mutual at the start. */
  ghost predicate Rounds(s: State, start: State, rounds: seq<seq<Step>>)
    decreases |rounds|
  {
    rounds != [] ==>
      && CanRun(s, rounds[0]) && AllGossip(rounds[0])
      && (forall a, b :: Mutual(start, a, b) ==> Covers(s, rounds[0], a, b))
      && Rounds(Run(s, rounds[0]), start, rounds[1..])
  }

  ghost function RunRounds(s: State, start: State, rounds: seq<seq<Step>>): State
    requires Rounds(s, start, rounds)
    decreases |rounds|
  {
    if rounds == [] then s else RunRounds(Run(s, rounds[0]), start, rounds[1..])
  }

  lemma {:induction false} RoundsAdvance(s: State, start: State, rounds: seq<seq<Step>>)
    requires Rounds(s, start, rounds)
    ensures Advanced(s, RunRounds(s, start, rounds))
    ensures Closed(s) ==> Closed(RunRounds(s, start, rounds))
    ensures forall low :: Bounded(s, low) ==> Bounded(RunRounds(s, start, rounds), low)
    decreases |rounds|
  {
    if rounds == [] {
      RunAdvances(s, []);
    } else {
      var mid := Run(s, rounds[0]);
      var end := RunRounds(s, start, rounds);
      RunAdvances(s, rounds[0]);
      RoundsAdvance(mid, start, rounds[1..]);
      forall a | a in s.nodes ensures Le(end.nodes[a].mesh, s.nodes[a].mesh) {
        LeTransitive(end.nodes[a].mesh, mid.nodes[a].mesh, s.nodes[a].mesh);
      }
      forall low | Bounded(s, low) ensures Bounded(end, low) {
        MeshIdsAreInherited(s, rounds[0], low);
      }
    }
  }

  /** After as many rounds as a path has hops, its far end knows what its near end knew. */
  lemma {:induction false} RoundsCarry(s: State, start: State, rounds: seq<seq<Step>>, path: seq<DeviceId>)
    requires Rounds(s, start, rounds) && Advanced(start, s)
    requires IsPath(start, path) && |path| <= |rounds| + 1
    ensures var end := RunRounds(s, start, rounds); var far := path[|path| - 1];
      && path[0] in s.nodes && far in end.nodes
      && Le(end.nodes[far].mesh, s.nodes[path[0]].mesh)
      && RosterIds(path[0], s.nodes[path[0]]) <= RosterIds(far, end.nodes[far])
    decreases |rounds|
  {
    var a := path[0];
    if |path| == 1 {
      RoundsAdvance(s, start, rounds);
    } else {
      var b := path[1];
      assert Mutual(start, a, b);
      assert Mutual(s, a, b);
      CoverCarries(s, rounds[0], a, b);
      RunAdvances(s, rounds[0]);
      var mid := Run(s, rounds[0]);
      forall x | x in start.nodes ensures Le(mid.nodes[x].mesh, start.nodes[x].mesh) {
        LeTransitive(mid.nodes[x].mesh, s.nodes[x].mesh, start.nodes[x].mesh);
      }
      var tail := path[1..];
      assert forall i :: 0 <= i < |tail| ==> tail[i] == path[i + 1];
      RoundsCarry(mid, start, rounds[1..], tail);
      var end := RunRounds(s, start, rounds);
      var far := path[|path| - 1];
      LeTransitive(end.nodes[far].mesh, mid.nodes[b].mesh, s.nodes[a].mesh);
    }
  }

  /** On a trust graph of diameter at most `d`, `d` rounds leave every node with the least
      mesh id of all and the full roster, whatever else is delivered, however late or often. */
  lemma {:induction false} GossipConverges(s: State, rounds: seq<seq<Step>>, d: nat, least: DeviceId)
    requires Connected(s, d) && Closed(s) && Rounds(s, s, rounds) && d <= |rounds|
    requires least in s.nodes && Bounded(s, s.nodes[least].mesh)
    ensures var end := RunRounds(s, s, rounds);
      && end.nodes.Keys == s.nodes.Keys
      && forall a :: a in end.nodes ==>
           end.nodes[a].mesh == s.nodes[least].mesh && RosterIds(a, end.nodes[a]) == s.nodes.Keys
  {
    var end := RunRounds(s, s, rounds);
    RunAdvances(s, []);
    RoundsAdvance(s, s, rounds);
    forall a, x | a in s.nodes && x in s.nodes
      ensures Le(end.nodes[a].mesh, s.nodes[x].mesh) && x in RosterIds(a, end.nodes[a])
    {
      assert Linked(s, x, a, d);
      var path :| IsPath(s, path) && |path| <= d + 1 && path[0] == x && path[|path| - 1] == a;
      RoundsCarry(s, s, rounds, path);
    }
    forall a | a in end.nodes
      ensures end.nodes[a].mesh == s.nodes[least].mesh && RosterIds(a, end.nodes[a]) == s.nodes.Keys
    {
      LeAntisymmetric(end.nodes[a].mesh, s.nodes[least].mesh);
    }
  }

  // ---- rounds can always be run ----

  lemma CoverSurvives(s: State, seg: seq<Step>, more: seq<Step>, a: DeviceId, b: DeviceId)
    requires CanRun(s, seg) && CanRun(s, seg + more) && Covers(s, seg, a, b)
    ensures Covers(s, seg + more, a, b)
  {
    var p: nat, q: nat :| p < q < |seg| && CoversAt(s, seg, a, b, p, q);
    assert (seg + more)[..p] == seg[..p];
    assert CoversAt(s, seg + more, a, b, p, q);
  }

  /** Pushing and at once delivering a roster covers one more edge. */
  lemma CoverEdge(s: State, front: seq<Step>, a: DeviceId, b: DeviceId) returns (more: seq<Step>)
    requires CanRun(s, front) && AllGossip(front) && Mutual(s, a, b)
    ensures CanRun(s, front + more) && AllGossip(front + more) && Covers(s, front + more, a, b)
  {
    RunAdvances(s, front);
    var mid := Run(s, front);
    assert Mutual(mid, a, b);
    var push := PushRoster(a, b);
    var deliver := Deliver(RosterMessage(mid, a, b, ToAcceptor), []);
    RunOne(mid, push);
    RunOne(Next(mid, push), deliver);
    RunsJoin(mid, [push], [deliver]);
    more := [push] + [deliver];
    hide Next, Enabled;
    RunsJoin(s, front, more);
    var seg := front + more;
    assert seg[..|front|] == front && seg[|front|] == push && seg[|front| + 1] == deliver;
    assert CoversAt(s, seg, a, b, |front|, |front| + 1);
  }

  lemma {:induction false} SegmentExists(s: State, edges: seq<(DeviceId, DeviceId)>) returns (seg: seq<Step>)
    requires forall e :: e in edges ==> Mutual(s, e.0, e.1)
    ensures CanRun(s, seg) && AllGossip(seg)
    ensures forall e :: e in edges ==> Covers(s, seg, e.0, e.1)
    decreases |edges|
  {
    if edges == [] {
      seg := [];
    } else {
      var last := edges[|edges| - 1];
      var front := SegmentExists(s, edges[..|edges| - 1]);
      var more := CoverEdge(s, front, last.0, last.1);
      seg := front + more;
      forall e | e in edges ensures Covers(s, seg, e.0, e.1) {
        if e in edges[..|edges| - 1] { CoverSurvives(s, front, more, e.0, e.1); }
      }
    }
  }

  /** The rounds that convergence asks for can be run from any state, as many as wanted. */
  lemma {:induction false} RoundsExist(s: State, start: State, count: nat) returns (rounds: seq<seq<Step>>)
    requires Advanced(start, s)
    ensures Rounds(s, start, rounds) && |rounds| == count
    decreases count
  {
    rounds := [];
    if count > 0 {
      var pairs := set a, b | a in start.nodes && b in start.nodes && Mutual(start, a, b) :: (a, b);
      var edges := ListOf(pairs);
      forall e | e in edges ensures Mutual(s, e.0, e.1) { assert e in Elements(edges); }
      var seg := SegmentExists(s, edges);
      RunAdvances(s, seg);
      var mid := Run(s, seg);
      forall x | x in start.nodes ensures Le(mid.nodes[x].mesh, start.nodes[x].mesh) {
        LeTransitive(mid.nodes[x].mesh, s.nodes[x].mesh, start.nodes[x].mesh);
      }
      var rest := RoundsExist(mid, start, count - 1);
      rounds := [seg] + rest;
      forall a, b | Mutual(start, a, b) ensures Covers(s, seg, a, b) {
        assert (a, b) in Elements(edges);
      }
    }
  }
}
