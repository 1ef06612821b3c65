/** How long an undelivered kick waits, with everything else that goes on in the mesh. */
module KickWaits {
  import opened Foundations
  import opened MeshNet

  ghost predicate Waits(s: State, a: DeviceId, t: DeviceId)
  {
    a in s.nodes && t in s.nodes[a].pending && !s.nodes[a].pending[t].delivered
  }

  /** The steps that end the wait of the kick of `t` at `a`: its delivery, the target's own
      confirmation, word of it to the target, and a kick command that writes back what it read
      before the kick was filed. */
  ghost predicate EndsWait(s: State, step: Step, a: DeviceId, t: DeviceId)
  {
    match step
    case FlushFinish(l) => l.at == a && l.target == t
    case Deliver(m, _) =>
      m.to == a && m.side == ToAcceptor && m in s.net && !m.Roster? && m.target == t
      && (m.LeaveAck? || (m.KickAnnounce? && a == t && a in s.nodes && m.from in s.nodes[a].trusted && m.kicker == m.from))
    case WriteKicks(c) =>
      c.at == a && !(c.job.Kicking? && c.job.target != t && t in c.pending && !c.pending[t].delivered)
    case _ => false
  }

  /** No step on the way ends the wait. */
  ghost predicate NeverEnds(s: State, steps: seq<Step>, a: DeviceId, t: DeviceId)
    requires CanRun(s, steps)
    decreases |steps|
  {
    steps != [] ==> !EndsWait(s, steps[0], a, t) && NeverEnds(Next(s, steps[0]), steps[1..], a, t)
  }

  /** Nothing else does: over any run without such a step, whatever is gossiped, linked, kicked,
      flushed or swept, the kick is still on file and still to be delivered. */
  lemma {:induction false} UndeliveredKickWaits(s: State, steps: seq<Step>, a: DeviceId, t: DeviceId)
    requires CanRun(s, steps) && Waits(s, a, t) && NeverEnds(s, steps, a, t)
    ensures Waits(Run(s, steps), a, t)
    decreases |steps|
  {
    if steps != [] {
      WaitsIff(s, steps[0], a, t);
      UndeliveredKickWaits(Next(s, steps[0]), steps[1..], a, t);
    }
  }

  /** And each of them does end it. */
  lemma WaitsIff(s: State, step: Step, a: DeviceId, t: DeviceId)
    requires Enabled(s, step) && Waits(s, a, t)
    ensures Waits(Next(s, step), a, t) <==> !EndsWait(s, step, a, t)
  {
    if step.Deliver? {
      DeliverWaits(s, step.m, step.freshMesh, a, t);
    } else if step.WriteKicks? || step.FlushFinish? {
      DeliveryWaits(s, step, a, t);
    } else {
      OtherStepWaits(s, step, a, t);
    }
    hide Next, Enabled;
  }

  lemma DeliveryWaits(s: State, step: Step, a: DeviceId, t: DeviceId)
    requires (step.WriteKicks? || step.FlushFinish?) && Enabled(s, step) && Waits(s, a, t)
    ensures Waits(Next(s, step), a, t) <==> !EndsWait(s, step, a, t)
  {
  }

  lemma DeliverWaits(s: State, m: Message, freshMesh: MeshId, a: DeviceId, t: DeviceId)
    requires Enabled(s, Deliver(m, freshMesh)) && Waits(s, a, t)
    ensures Waits(Next(s, Deliver(m, freshMesh)), a, t) <==> !EndsWait(s, Deliver(m, freshMesh), a, t)
  {
  }

  lemma OtherStepWaits(s: State, step: Step, a: DeviceId, t: DeviceId)
    requires !step.Deliver? && !step.WriteKicks? && !step.FlushFinish? && Enabled(s, step) && Waits(s, a, t)
    ensures Waits(Next(s, step), a, t)
  {
    if step.BeginKick? || step.Gc? {
      FilingWaits(s, step, a, t);
    } else if step.MergeCopy? {
      MergeWaits(s, step, a, t);
    } else {
      PendingStays(s, step, a);
      hide Next, Enabled;
    }
  }

  lemma FilingWaits(s: State, step: Step, a: DeviceId, t: DeviceId)
    requires (step.BeginKick? || step.Gc?) && Enabled(s, step) && Waits(s, a, t)
    ensures Waits(Next(s, step), a, t)
  {
  }

  lemma MergeWaits(s: State, step: Step, a: DeviceId, t: DeviceId)
    requires step.MergeCopy? && Enabled(s, step) && Waits(s, a, t)
    ensures Waits(Next(s, step), a, t)
  {
  }

  /** Besides those, deliveries and writes of the kick file, no step touches that file. */
  lemma PendingStays(s: State, step: Step, a: DeviceId)
    requires !step.Deliver? && !step.WriteKicks? && !step.FlushFinish? && Enabled(s, step) && a in s.nodes
    requires !step.BeginKick? && !step.Gc? && !step.MergeCopy?
    ensures a in Next(s, step).nodes && Next(s, step).nodes[a].pending == s.nodes[a].pending
  {
  }

  /** A kick command loses a waiting kick exactly if that was filed after the command read the
      file, or was filed as told then: writing back marks its own target and nothing more. */
  lemma StaleWriteLosesIff(s: State, c: Copy, t: DeviceId)
    requires Enabled(s, WriteKicks(c)) && Waits(s, c.at, t) && t != c.job.target
    ensures !Waits(Next(s, WriteKicks(c)), c.at, t) <==> t !in c.pending || c.pending[t].delivered
  {
  }

  /** It happens: a kick announced while a kick command waits is gone once that writes. */
  lemma KickCanBeLost(s: State, a: DeviceId, u: DeviceId, m: Message)
    requires Enabled(s, BeginKick(a, u))
    requires m in s.net && m.to == a && m.KickAnnounce? && m.side == ToAcceptor && m.kicker == m.from
    requires m.from in s.nodes[a].trusted && m.target != a && m.target != u && m.target !in s.nodes[a].pending
    ensures var c := CopyOf(a, Kicking(u), FilePending(s.nodes[a], u, a)); var s1 := Next(s, BeginKick(a, u));
      && Enabled(s1, Deliver(m, []))
      && var s2 := Next(s1, Deliver(m, []));
         Waits(s2, a, m.target) && Enabled(s2, WriteKicks(c)) && m.target !in Next(s2, WriteKicks(c)).nodes[a].pending
  {
  }
}
