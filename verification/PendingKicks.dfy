/** Kicks that wait for delivery and for the members' acknowledgements. */
module PendingKicks {
  import opened Foundations

  datatype PendingKick = PendingKick(
    target: DeviceId,
    kicker: DeviceId,
    force: bool,
    createdAt: int,           // nanoseconds
    delivered: bool,
    acks: seq<DeviceId>,
    expected: seq<DeviceId>
  )

  type Kicks = map<DeviceId, PendingKick>

  const NANOS_PER_HOUR := 3600 * 1_000_000_000

  // ---- one kick ----

  predicate AllAcked(k: PendingKick)
  {
    forall e :: e in k.expected ==> e in k.acks
  }

  /** Whole hours between two instants, cut toward zero. */
  function Hours(from: int, to: int): int
  {
    var d := to - from;
    if d >= 0 then d / NANOS_PER_HOUR else -((-d) / NANOS_PER_HOUR)
  }

  /** Delivered, and either every expected member acknowledged, or forced and a day old. */
  predicate Completed(k: PendingKick, now: int)
  {
    k.delivered && (AllAcked(k) || (k.force && Hours(k.createdAt, now) >= 24))
  }

  function Acked(k: PendingKick, from: DeviceId): PendingKick
  {
    if from in k.acks then k else k.(acks := k.acks + [from])
  }

  /** A day in nanoseconds. */
  const NANOS_PER_DAY := 86_400_000_000_000

  /** When a sweep may drop a kick: it was delivered, and everybody expected has acknowledged or
      it was forced at least a day ago. */
  ghost predicate MayGo(k: PendingKick, now: int)
  {
    && k.delivered
    && ((forall e :: e in k.expected ==> e in k.acks) || (k.force && now - k.createdAt >= NANOS_PER_DAY))
  }

  lemma CompletedIffMayGo(k: PendingKick, now: int)
    ensures Completed(k, now) <==> MayGo(k, now)
  {
  }

  // ---- the operations, as functions of the table ----

  datatype Op =
    | Upsert(kick: PendingKick)
    | MarkDelivered(target: DeviceId)
    | AddAck(target: DeviceId, from: DeviceId)
    | Remove(target: DeviceId)
    | Gc(now: int)

  function Apply(kicks: Kicks, op: Op): Kicks
  {
    match op
    case Upsert(k) => kicks[k.target := k]
    case MarkDelivered(t) => if t in kicks then kicks[t := kicks[t].(delivered := true)] else kicks
    case AddAck(t, from) => if t in kicks then kicks[t := Acked(kicks[t], from)] else kicks
    case Remove(t) => kicks - {t}
    case Gc(now) => map t | t in kicks && !Completed(kicks[t], now) :: kicks[t]
  }

  function ApplyAll(kicks: Kicks, ops: seq<Op>): Kicks
    decreases |ops|
  {
    if ops == [] then kicks else ApplyAll(Apply(kicks, ops[0]), ops[1..])
  }

  lemma ApplyTwo(kicks: Kicks, a: Op, b: Op)
    ensures ApplyAll(kicks, [a, b]) == Apply(Apply(kicks, a), b)
  {
    assert [a, b][1..] == [b];
    assert ApplyAll(Apply(kicks, a), [b]) == ApplyAll(Apply(Apply(kicks, a), b), []);
  }

  lemma ApplyFour(kicks: Kicks, a: Op, b: Op, c: Op, d: Op)
    ensures ApplyAll(kicks, [a, b, c, d]) == Apply(Apply(Apply(Apply(kicks, a), b), c), d)
  {
    assert [a, b, c, d][1..] == [b, c, d] && [b, c, d][1..] == [c, d];
    ApplyTwo(Apply(Apply(kicks, a), b), c, d);
    assert ApplyAll(Apply(kicks, a), [b, c, d]) == ApplyAll(Apply(Apply(kicks, a), b), [c, d]);
  }

  // ---- the store, as the code has it ----

  class Store {
    var kicks: Kicks

    constructor ()
      ensures kicks == map[]
    {
      kicks := map[];
    }

    method Upsert(k: PendingKick)
      modifies this
      ensures kicks == Apply(old(kicks), Op.Upsert(k))
      ensures k.target in kicks && kicks[k.target] == k && kicks - {k.target} == old(kicks) - {k.target}
    {
      kicks := kicks[k.target := k];
    }

    method MarkDelivered(target: DeviceId)
      modifies this
      ensures kicks == Apply(old(kicks), Op.MarkDelivered(target))
      ensures kicks == if target in old(kicks) then old(kicks)[target := old(kicks)[target].(delivered := true)] else old(kicks)
    {
      if target in kicks {
        var k := kicks[target];
        k := k.(delivered := true);
        kicks := kicks[target := k];
      }
    }

    /** Records an acknowledgement and says whether the kick now looks finished. */
    method AddAck(target: DeviceId, from: DeviceId) returns (done: bool)
      modifies this
      ensures kicks == Apply(old(kicks), Op.AddAck(target, from))
      ensures done <==> target in kicks && LooksDone(kicks[target])
      ensures kicks.Keys == old(kicks).Keys && forall t :: t in kicks && t != target ==> kicks[t] == old(kicks)[t]
      ensures target in kicks ==>
        && from in kicks[target].acks
        && kicks[target].acks == old(kicks)[target].acks + (if from in old(kicks)[target].acks then [] else [from])
        && kicks[target] == old(kicks)[target].(acks := kicks[target].acks)
      ensures done <==>
        && target in kicks && kicks[target].delivered
        && ((forall e :: e in kicks[target].expected ==> e in kicks[target].acks)
            || (kicks[target].force && |kicks[target].acks| >= |kicks[target].expected|))
    {
      done := false;
      if target in kicks {
        var k := kicks[target];
        if from !in k.acks {
          k := k.(acks := k.acks + [from]);
        }
        var complete := k.delivered && (forall e :: e in k.expected ==> e in k.acks || e == from);
        complete := complete || (k.force && k.delivered && |k.acks| >= |k.expected|);
        kicks := kicks[target := k];
        done := complete;
      }
    }

    method Remove(target: DeviceId)
      modifies this
      ensures kicks == Apply(old(kicks), Op.Remove(target))
      ensures target !in kicks && kicks == old(kicks) - {target}
    {
      kicks := kicks - {target};
    }

    /** A command that read the kicks earlier writes back all of what it read. */
    method Overwrite(held: Kicks)
      modifies this
      ensures kicks == held
    {
      kicks := held;
    }

    /** Drops the completed kicks and says how many there were. */
    method GcCompleted(now: int) returns (n: nat)
      modifies this
      ensures kicks == Apply(old(kicks), Gc(now))
      ensures n == |old(kicks)| - |kicks|
      ensures forall t :: t in old(kicks) ==> (t !in kicks <==> MayGo(old(kicks)[t], now))
      ensures forall t :: t in kicks ==> t in old(kicks) && kicks[t] == old(kicks)[t]
    {
      var before := kicks;
      forall t | t in before ensures Completed(before[t], now) <==> MayGo(before[t], now) {
        CompletedIffMayGo(before[t], now);
      }
      kicks := map t | t in before && !Completed(before[t], now) :: before[t];
      SubsetSize(kicks.Keys, before.Keys);
      n := |before| - |kicks|;
    }
  }

  /** The test `add_ack` makes: all acknowledged, or forced and enough acknowledgements. */
  predicate LooksDone(k: PendingKick)
  {
    k.delivered && (AllAcked(k) || (k.force && |k.acks| >= |k.expected|))
  }

  // ---- add_ack against gc_completed ----

  lemma NotForcedLooksDoneIffCompleted(k: PendingKick, now: int)
    requires !k.force
    ensures LooksDone(k) <==> Completed(k, now)
  {
  }

  /** Counting acknowledgements is the same as checking them when only expected members,
      each at most once, have acknowledged and none is expected twice (pigeonhole). */
  lemma CountingIsChecking(k: PendingKick)
    requires NoDuplicates(k.acks) && NoDuplicates(k.expected)
    requires forall a :: a in k.acks ==> a in k.expected
    ensures |k.acks| >= |k.expected| <==> AllAcked(k)
  {
    var acks, expected := Elements(k.acks), Elements(k.expected);
    DistinctLength(k.acks);
    DistinctLength(k.expected);
    SubsetSize(acks, expected);
    if |k.acks| >= |k.expected| {
      forall e | e in k.expected ensures e in k.acks { assert e in expected; }
    }
    if AllAcked(k) {
      assert expected <= acks;
    }
  }

  /** For a forced kick, `add_ack` reports completion that `gc_completed` does not see just
      when an acknowledgement from outside the expected list makes up for a missing one. */
  lemma ForcedReportIsEarlyIff(k: PendingKick, now: int)
    requires k.force && NoDuplicates(k.acks) && NoDuplicates(k.expected) && Hours(k.createdAt, now) < 24
    ensures LooksDone(k) && !Completed(k, now) <==>
      && k.delivered
      && !AllAcked(k)
      && |Elements(k.acks) - Elements(k.expected)| >= |Elements(k.expected) - Elements(k.acks)|
  {
    DistinctLength(k.acks);
    DistinctLength(k.expected);
    SizesByDifference(Elements(k.acks), Elements(k.expected));
  }

  // ---- whole runs ----

  /** No step marks `t` delivered, drops it by hand, or files a kick of `t` as delivered. */
  predicate NeverTold(ops: seq<Op>, t: DeviceId)
  {
    forall op :: op in ops ==>
      && op != MarkDelivered(t)
      && op != Op.Remove(t)
      && (op.Upsert? && op.kick.target == t ==> !op.kick.delivered)
  }

  /** An undelivered kick is never lost: whatever else happens, it is still there, still
      undelivered. */
  lemma {:induction false} UndeliveredIsKept(kicks: Kicks, ops: seq<Op>, t: DeviceId)
    requires t in kicks && !kicks[t].delivered && NeverTold(ops, t)
    ensures var end := ApplyAll(kicks, ops); t in end && !end[t].delivered
    decreases |ops|
  {
    if ops != [] {
      assert ops[0] in ops;
      UndeliveredIsKept(Apply(kicks, ops[0]), ops[1..], t);
    }
  }

  ghost predicate AcksDistinct(kicks: Kicks)
  {
    forall t :: t in kicks ==> NoDuplicates(kicks[t].acks)
  }

  lemma {:induction false} AcksStayDistinct(kicks: Kicks, ops: seq<Op>)
    requires AcksDistinct(kicks)
    requires forall op :: op in ops && op.Upsert? ==> NoDuplicates(op.kick.acks)
    ensures AcksDistinct(ApplyAll(kicks, ops))
    decreases |ops|
  {
    if ops != [] {
      assert ops[0] in ops;
      AcksStayDistinct(Apply(kicks, ops[0]), ops[1..]);
    }
  }

  /** What the run so far shows for the kick filed as `k`: it still stands with no more
      delivery and no more acknowledgements than the steps account for. */
  ghost predicate Explained(k: PendingKick, now: PendingKick, told: bool, ackers: set<DeviceId>)
  {
    && now.expected == k.expected && now.force == k.force && now.createdAt == k.createdAt
    && (now.delivered ==> told)
    && forall a :: a in now.acks ==> a in ackers
  }

  /** Why a run dropped the kick `k`: it was delivered, and every expected member had
      acknowledged it or it was forced and a sweep came a day later. */
  ghost predicate Earned(k: PendingKick, ops: seq<Op>, told: bool, ackers: set<DeviceId>)
  {
    && (told || MarkDelivered(k.target) in ops)
    && (|| (forall e :: e in k.expected ==> e in ackers || AddAck(k.target, e) in ops)
        || (k.force && exists now :: Gc(now) in ops && Hours(k.createdAt, now) >= 24))
  }

  lemma {:induction false} DropsAreEarned(k: PendingKick, kicks: Kicks, ops: seq<Op>, told: bool, ackers: set<DeviceId>)
    requires k.target in kicks && Explained(k, kicks[k.target], told, ackers)
    requires forall op :: op in ops ==> op != Op.Remove(k.target) && !(op.Upsert? && op.kick.target == k.target)
    ensures k.target !in ApplyAll(kicks, ops) ==> Earned(k, ops, told, ackers)
    decreases |ops|
  {
    if ops != [] {
      var t, op, rest := k.target, ops[0], ops[1..];
      assert forall x :: x in rest ==> x in ops;
      var kicks' := Apply(kicks, op);
      if t !in kicks' {
        assert op.Gc? && Completed(kicks[t], op.now);
      } else {
        var told' := told || op == MarkDelivered(t);
        var ackers' := ackers + if op.AddAck? && op.target == t then {op.from} else {};
        DropsAreEarned(k, kicks', rest, told', ackers');
        if Earned(k, rest, told', ackers') {
          forall e | e in k.expected && (e in ackers' || AddAck(t, e) in rest) ensures e in ackers || AddAck(t, e) in ops {
          }
        }
      }
    }
  }

  /** A freshly filed kick leaves the table only after it was marked delivered and every
      expected member's acknowledgement came in, or by a sweep a day later if it was forced. */
  lemma KickLeavesOnlyWhenEarned(k: PendingKick, kicks: Kicks, ops: seq<Op>)
    requires !k.delivered && k.acks == []
    requires forall op :: op in ops ==> op != Op.Remove(k.target) && !(op.Upsert? && op.kick.target == k.target)
    requires k.target !in ApplyAll(Apply(kicks, Op.Upsert(k)), ops)
    ensures MarkDelivered(k.target) in ops
    ensures || (forall e :: e in k.expected ==> AddAck(k.target, e) in ops)
            || (k.force && exists now :: Gc(now) in ops && Hours(k.createdAt, now) >= 24)
  {
    DropsAreEarned(k, Apply(kicks, Op.Upsert(k)), ops, false, {});
  }

  // ---- and every earned kick leaves ----

  /** The run neither drops the kick by hand nor files another in its place. */
  predicate LeavesAlone(ops: seq<Op>, t: DeviceId)
  {
    forall op :: op in ops ==> op != Op.Remove(t) && !(op.Upsert? && op.kick.target == t)
  }

  /** What a run makes of a kick that is still there: told if it was or is, acknowledged by all
      who had or do, and otherwise as filed. */
  lemma {:induction false} RunRecords(kicks: Kicks, ops: seq<Op>, t: DeviceId)
    requires t in kicks && LeavesAlone(ops, t)
    ensures var end := ApplyAll(kicks, ops);
      t in end ==>
        && (end[t].delivered <==> kicks[t].delivered || MarkDelivered(t) in ops)
        && (forall m :: m in end[t].acks <==> m in kicks[t].acks || AddAck(t, m) in ops)
        && end[t] == kicks[t].(delivered := end[t].delivered, acks := end[t].acks)
    decreases |ops|
  {
    if ops != [] {
      var op, rest := ops[0], ops[1..];
      assert op in ops && forall x :: x in ops <==> x == op || x in rest;
      var next := Apply(kicks, op);
      if t in next {
        RunRecords(next, rest, t);
      } else {
        StaysAway(next, rest, t);
      }
    }
  }

  lemma {:induction false} StaysAway(kicks: Kicks, ops: seq<Op>, t: DeviceId)
    requires t !in kicks && LeavesAlone(ops, t)
    ensures t !in ApplyAll(kicks, ops)
    decreases |ops|
  {
    if ops != [] {
      assert ops[0] in ops && forall x :: x in ops[1..] ==> x in ops;
      StaysAway(Apply(kicks, ops[0]), ops[1..], t);
    }
  }

  lemma {:induction false} SweepLast(kicks: Kicks, ops: seq<Op>, now: int)
    ensures ApplyAll(kicks, ops + [Gc(now)]) == Apply(ApplyAll(kicks, ops), Gc(now))
    decreases |ops|
  {
    if ops == [] {
      assert [] + [Gc(now)] == [Gc(now)] && [Gc(now)][1..] == [];
    } else {
      assert (ops + [Gc(now)])[1..] == ops[1..] + [Gc(now)];
      SweepLast(Apply(kicks, ops[0]), ops[1..], now);
    }
  }

  /** A kick that is filed, marked delivered and acknowledged by everybody expected, or forced for
      a day, in whatever order and with whatever else goes on, is off the table after the next
      sweep; and one of which that is not true is still on it. */
  lemma KickIsSweptIffEarned(k: PendingKick, kicks: Kicks, ops: seq<Op>, now: int)
    requires !k.delivered && k.acks == [] && LeavesAlone(ops, k.target)
    requires forall op :: op in ops ==> !op.Gc?
    ensures k.target !in ApplyAll(Apply(kicks, Op.Upsert(k)), ops + [Gc(now)]) <==>
      && MarkDelivered(k.target) in ops
      && ((forall e :: e in k.expected ==> AddAck(k.target, e) in ops) || (k.force && now - k.createdAt >= NANOS_PER_DAY))
  {
    var t, filed := k.target, Apply(kicks, Op.Upsert(k));
    RunRecords(filed, ops, t);
    UnsweptStays(filed, ops, t);
    SweepLast(filed, ops, now);
    CompletedIffMayGo(ApplyAll(filed, ops)[t], now);
  }

  /** The sweep that comes may be any later one: an earned kick is gone after it whatever swept
      before. */
  lemma EarnedKickIsGone(k: PendingKick, kicks: Kicks, ops: seq<Op>, now: int)
    requires !k.delivered && k.acks == [] && LeavesAlone(ops, k.target)
    requires MarkDelivered(k.target) in ops
    requires (forall e :: e in k.expected ==> AddAck(k.target, e) in ops) || (k.force && now - k.createdAt >= NANOS_PER_DAY)
    ensures k.target !in ApplyAll(Apply(kicks, Op.Upsert(k)), ops + [Gc(now)])
  {
    var t, filed := k.target, Apply(kicks, Op.Upsert(k));
    RunRecords(filed, ops, t);
    SweepLast(filed, ops, now);
    if t in ApplyAll(filed, ops) { CompletedIffMayGo(ApplyAll(filed, ops)[t], now); }
  }

  lemma {:induction false} UnsweptStays(kicks: Kicks, ops: seq<Op>, t: DeviceId)
    requires t in kicks && LeavesAlone(ops, t) && forall op :: op in ops ==> !op.Gc?
    ensures t in ApplyAll(kicks, ops)
    decreases |ops|
  {
    if ops != [] {
      assert ops[0] in ops;
      UnsweptStays(Apply(kicks, ops[0]), ops[1..], t);
    }
  }
}
