/** The joining side: waiting for the host's answer, and what is trusted by the end of it. */
module Guest {
  import opened Foundations
  import opened Numbers
  import opened DeviceStore
  import Agent
  import MeshNet
  import Material
  import MeshSync

  /** What comes in from the host. `Broken` is a lost connection or a timeout; a list of
      events that ends is a connection that does. */
  datatype Event =
    | JoinPending
    | JoinAccept(host: DeviceId, name: Bytes, labelText: string, capabilities: seq<Capability>, signature: Material.Signature)
    | Snapshot(from: DeviceId, mesh: Bytes, members: seq<MeshSync.Member>, ts: i64, signature: Material.Signature)
    | JoinDeny
    | Garbled
    | Broken
    | Other

  function AcceptMaterial(host: DeviceId, name: Bytes): Bytes
  {
    host.bytes + name + Material.Ascii("mymesh-join-accept-v1")
  }

  predicate IsAccept(e: Event)
  {
    e.JoinAccept? && Material.Verify(e.host, AcceptMaterial(e.host, e.name), e.signature)
  }

  predicate IsRoster(e: Event)
  {
    e.Snapshot? && Material.Verify(e.from, Material.MembershipMaterial(e.mesh, e.from, e.ts, Agent.MemberIds(e.members)), e.signature)
  }

  /** A valid accept is one its own host signed over its id and name; a valid roster one its sender
      signed over mesh, time and members. */
  lemma ValidIsSigned(e: Event)
    ensures IsAccept(e) <==>
      e.JoinAccept? && e.signature == Material.Signature(e.host, e.host.bytes + e.name + Material.Ascii("mymesh-join-accept-v1"))
    ensures IsRoster(e) <==>
      && e.Snapshot?
      && e.signature == Material.Signature(e.from,
           Material.MembershipMaterial(e.mesh, e.from, e.ts, Agent.MemberIds(e.members)))
  {
  }

  /** An accept's bytes say who accepts under which name. */
  lemma AcceptMaterialInjective(a: DeviceId, name1: Bytes, b: DeviceId, name2: Bytes)
    ensures AcceptMaterial(a, name1) == AcceptMaterial(b, name2) <==> a == b && name1 == name2
  {
    var end := Material.Ascii("mymesh-join-accept-v1");
    if AcceptMaterial(a, name1) == AcceptMaterial(b, name2) {
      assert |name1| == |name2|;
      SplitEqual(a.bytes + name1, end, b.bytes + name2, end);
      SplitEqual(a.bytes, name1, b.bytes, name2);
    }
  }

  // ---- what the loop comes to ----

  datatype Pace = GoOn | Joined | Failed

  /** What one event does to a guest that has (`accepted`) or has not been accepted yet. */
  function PaceOf(e: Event, accepted: bool): Pace
  {
    match e
    case JoinPending => GoOn
    case JoinAccept(_, _, _, _, _) => if IsAccept(e) then GoOn else Failed
    case Snapshot(_, _, _, _, _) => if !IsRoster(e) then Failed else if accepted then Joined else GoOn
    case JoinDeny => Failed
    case Garbled => Failed
    case _ => if accepted then Joined else Failed
  }

  /** Whether the guest ends up joined. */
  function Joins(events: seq<Event>, accepted: bool): bool
  {
    if events == [] then accepted
    else
      match PaceOf(events[0], accepted)
      case Joined => true
      case Failed => false
      case GoOn => Joins(events[1..], accepted || events[0].JoinAccept?)
  }

  function IdsOf(e: Event, self: DeviceId): set<DeviceId>
  {
    if IsAccept(e) then {e.host} else if IsRoster(e) then MeshSync.Ids(e.members) - {self} else {}
  }

  /** The ids the events make trusted, up to where the guest stops. */
  function Gains(events: seq<Event>, self: DeviceId, accepted: bool): set<DeviceId>
  {
    if events == [] then {}
    else
      IdsOf(events[0], self) +
      if PaceOf(events[0], accepted).GoOn? then Gains(events[1..], self, accepted || events[0].JoinAccept?) else {}
  }

  /** The mesh id after the rosters the guest merges. */
  function LeastMesh(events: seq<Event>, accepted: bool, mesh: Bytes): Bytes
  {
    if events == [] then mesh
    else
      var next := MeshOf(events[0], mesh);
      if PaceOf(events[0], accepted).GoOn? then LeastMesh(events[1..], accepted || events[0].JoinAccept?, next) else next
  }

  function MeshOf(e: Event, mesh: Bytes): Bytes
  {
    if IsRoster(e) then MeshNet.MinMesh(mesh, e.mesh) else mesh
  }

  method TakeAccept(store: Store, e: Event, self: DeviceId, now: int, fingerprint: DeviceId -> string)
    returns (rec: Option<DeviceRecord>)
    requires store.Valid() && e.JoinAccept?
    modifies store
    ensures store.Valid() && (rec.Some? <==> IsAccept(e))
    ensures TrustedIds(store.devices) == TrustedIds(old(store.devices)) + IdsOf(e, self)
    ensures rec.Some? ==> rec.value.capabilities == e.capabilities && rec.value.labelText == Label(e.labelText)
    ensures rec.Some? ==> rec.value.id == e.host && rec.value.trust == Trusted && store.devices[e.host := rec.value] == store.devices
  {
    if !Material.Verify(e.host, AcceptMaterial(e.host, e.name), e.signature) {
      return None;
    }
    var r := DeviceRecord(e.host, Label(e.labelText), fingerprint(e.host), e.capabilities, Trusted, now, Some(now),
                          None, None, [], []);
    store.Upsert(r);
    return Some(r);
  }

  method TakeSnapshot(store: Store, mesh: MeshSync.MeshState, e: Event, self: DeviceId, now: int) returns (ok: bool)
    requires store.Valid() && mesh.Valid() && e.Snapshot?
    modifies store, mesh
    ensures store.Valid() && mesh.Valid() && (ok <==> IsRoster(e))
    ensures mesh.meshId == MeshOf(e, old(mesh.meshId))
    ensures TrustedIds(store.devices) == TrustedIds(old(store.devices)) + IdsOf(e, self)
  {
    hide TrustedIds, MeshSync.Merge, MeshSync.Tag, Material.MembershipMaterial, Agent.MemberIds, AcceptMaterial;
    ok := Material.Verify(e.from, Material.MembershipMaterial(e.mesh, e.from, e.ts, Agent.MemberIds(e.members)), e.signature);
    if ok {
      var _ := MeshSync.ApplyMembership(store, mesh, e.from, e.mesh, e.members, self, now);
    }
  }

  method RunJoinAsGuest(store: Store, mesh: MeshSync.MeshState, self: DeviceId, events: seq<Event>, now: int,
                        fingerprint: DeviceId -> string)
    returns (host: Option<DeviceRecord>)
    requires store.Valid() && mesh.Valid()
    modifies store, mesh
    ensures store.Valid() && mesh.Valid()
    ensures host.Some? <==> Joins(events, false)
    ensures TrustedIds(store.devices) == TrustedIds(old(store.devices)) + Gains(events, self, false)
    ensures mesh.meshId == LeastMesh(events, false, old(mesh.meshId))
    ensures host.Some? ==>
      host.value.trust == Trusted && exists e :: e in events && e.JoinAccept? && IsAccept(e) && e.host == host.value.id
  {
    hide Joins, Gains, LeastMesh, IsAccept, IsRoster, IdsOf, MeshOf, TrustedIds;
    host := None;
    var i := 0;
    assert events[0..] == events;
    ghost var before := TrustedIds(store.devices);
    while i < |events|
      invariant 0 <= i <= |events| && store.Valid() && mesh.Valid()
      invariant Joins(events[i..], host.Some?) <==> Joins(events, false)
      invariant TrustedIds(store.devices) + Gains(events[i..], self, host.Some?) == before + Gains(events, self, false)
      invariant LeastMesh(events[i..], host.Some?, mesh.meshId) == LeastMesh(events, false, old(mesh.meshId))
      invariant host.Some? ==>
        host.value.trust == Trusted && exists e :: e in events && e.JoinAccept? && IsAccept(e) && e.host == host.value.id
    {
      var e := events[i];
      OneEvent(events, i, self, host.Some?, mesh.meshId);
      i := i + 1;
      match e {
        case JoinPending =>
          NoIds(e, self, mesh.meshId);
        case JoinAccept(_, _, _, _, _) =>
          var rec := TakeAccept(store, e, self, now, fingerprint);
          if rec.None? {
            return None;
          }
          host := rec;
        case Snapshot(_, _, _, _, _) =>
          var ok := TakeSnapshot(store, mesh, e, self, now);
          if !ok {
            return None;
          }
          if host.Some? {
            return;
          }
        case JoinDeny =>
          NoIds(e, self, mesh.meshId);
          return None;
        case Garbled =>
          NoIds(e, self, mesh.meshId);
          return None;
        case _ =>
          NoIds(e, self, mesh.meshId);
          return;
      }
    }
    NoEvents(self, host.Some?, mesh.meshId);
    assert events[i..] == [];
  }

  lemma NoIds(e: Event, self: DeviceId, mesh: Bytes)
    requires !e.JoinAccept? && !e.Snapshot?
    ensures IdsOf(e, self) == {} && MeshOf(e, mesh) == mesh
  {
  }

  lemma OneEvent(events: seq<Event>, i: nat, self: DeviceId, accepted: bool, mesh: Bytes)
    requires i < |events|
    ensures var e := events[i]; var accepted' := accepted || e.JoinAccept?;
      && Joins(events[i..], accepted) ==
           (match PaceOf(e, accepted) case Joined => true case Failed => false case GoOn => Joins(events[i + 1..], accepted'))
      && Gains(events[i..], self, accepted) ==
           IdsOf(e, self) + (if PaceOf(e, accepted).GoOn? then Gains(events[i + 1..], self, accepted') else {})
      && LeastMesh(events[i..], accepted, mesh) ==
           (if PaceOf(e, accepted).GoOn? then LeastMesh(events[i + 1..], accepted', MeshOf(e, mesh)) else MeshOf(e, mesh))
      && (e.JoinAccept? ==> MeshOf(e, mesh) == mesh)
  {
    assert events[i..][1..] == events[i + 1..];
  }

  lemma NoEvents(self: DeviceId, accepted: bool, mesh: Bytes)
    ensures Joins([], accepted) == accepted && Gains([], self, accepted) == {} && LeastMesh([], accepted, mesh) == mesh
  {
  }

  // ---- when it joins ----

  /** Before the accept only waiting and rosters; after it waiting and accepts, and then a
      roster, silence or something unknown, but nothing that fails. */
  ghost predicate AcceptedAt(events: seq<Event>, k: int, end: int)
  {
    && 0 <= k < end <= |events|
    && IsAccept(events[k])
    && (forall j :: 0 <= j < k ==> events[j].JoinPending? || IsRoster(events[j]))
    && (forall j :: k < j < end ==> events[j].JoinPending? || IsAccept(events[j]))
    && (end < |events| ==> IsRoster(events[end]) || events[end].Broken? || events[end].Other?)
  }

  lemma {:induction false} JoinsAfterAcceptIff(events: seq<Event>)
    ensures Joins(events, true) <==> exists end :: HeldUntil(events, end)
  {
    if events == [] {
      assert HeldUntil(events, 0);
    } else {
      var e, rest := events[0], events[1..];
      JoinsAfterAcceptIff(rest);
      if PaceOf(e, true).Joined? {
        assert HeldUntil(events, 0);
      } else if PaceOf(e, true).GoOn? {
        if end :| HeldUntil(rest, end) {
          assert HeldUntil(events, end + 1);
        }
        if end :| HeldUntil(events, end) {
          assert HeldUntil(rest, end - 1);
        }
      }
    }
  }

  ghost predicate HeldUntil(events: seq<Event>, end: int)
  {
    && 0 <= end <= |events|
    && (forall j :: 0 <= j < end ==> events[j].JoinPending? || IsAccept(events[j]))
    && (end < |events| ==> IsRoster(events[end]) || events[end].Broken? || events[end].Other?)
  }

  lemma FirstIsAccept(events: seq<Event>)
    requires events != [] && IsAccept(events[0])
    ensures (exists k, end :: AcceptedAt(events, k, end)) <==> exists end :: HeldUntil(events[1..], end)
  {
    hide IsAccept, IsRoster;
    if end :| HeldUntil(events[1..], end) { assert AcceptedAt(events, 0, end + 1); }
    if k, end :| AcceptedAt(events, k, end) {
      AcceptsDiffer(events[0]);
      assert k == 0;
      assert HeldUntil(events[1..], end - 1);
    }
  }

  lemma AcceptsDiffer(e: Event)
    requires IsAccept(e)
    ensures !e.JoinPending? && !IsRoster(e)
  {
  }

  lemma FirstIsOther(events: seq<Event>)
    requires events != [] && !IsAccept(events[0])
    ensures (exists k, end :: AcceptedAt(events, k, end)) <==>
      (events[0].JoinPending? || IsRoster(events[0])) && exists k, end :: AcceptedAt(events[1..], k, end)
  {
    hide IsAccept, IsRoster;
    var e, rest := events[0], events[1..];
    if e.JoinPending? || IsRoster(e) {
      if k, end :| AcceptedAt(rest, k, end) { assert AcceptedAt(events, k + 1, end + 1); }
    }
    if k, end :| AcceptedAt(events, k, end) {
      assert k > 0;
      assert AcceptedAt(rest, k - 1, end - 1);
    }
  }

  /** The guest joins exactly when a valid accept comes with nothing but waiting and rosters
      before it, and nothing that fails between it and what ends the wait. */
  lemma {:induction false} JoinsIffAccepted(events: seq<Event>)
    ensures Joins(events, false) <==> exists k, end :: AcceptedAt(events, k, end)
  {
    if events != [] {
      JoinsIffAccepted(events[1..]);
      JoinsAfterAcceptIff(events[1..]);
      if IsAccept(events[0]) { FirstIsAccept(events); } else { FirstIsOther(events); }
      hide AcceptedAt, HeldUntil;
    }
  }

  // ---- what it trusts by the end, joined or not ----

  /** Event `j` does not stop the guest: waiting, a valid accept, or a valid roster with no
      accept before it. */
  ghost predicate Passes(events: seq<Event>, accepted: bool, j: nat)
    requires j < |events|
  {
    || events[j].JoinPending?
    || IsAccept(events[j])
    || (IsRoster(events[j]) && !accepted && forall k :: 0 <= k < j ==> !events[k].JoinAccept?)
  }

  /** The guest gets as far as event `i`. */
  ghost predicate Reads(events: seq<Event>, accepted: bool, i: nat)
  {
    i < |events| && forall j :: 0 <= j < i ==> Passes(events, accepted, j)
  }

  ghost predicate GainedAt(events: seq<Event>, self: DeviceId, accepted: bool, x: DeviceId, i: int)
  {
    0 <= i && Reads(events, accepted, i) && x in IdsOf(events[i], self)
  }

  lemma ReadsShift(events: seq<Event>, accepted: bool, i: nat)
    requires events != []
    ensures var rest, accepted' := events[1..], accepted || events[0].JoinAccept?;
      Reads(events, accepted, i + 1) <==> PaceOf(events[0], accepted).GoOn? && Reads(rest, accepted', i)
  {
    var rest, accepted' := events[1..], accepted || events[0].JoinAccept?;
    assert Passes(events, accepted, 0) <==> PaceOf(events[0], accepted).GoOn?;
    forall j | 0 <= j < |rest| ensures Passes(events, accepted, j + 1) <==> Passes(rest, accepted', j) {
      assert rest[j] == events[j + 1];
      assert forall k :: 0 <= k < j ==> rest[k] == events[k + 1];
      if forall k :: 0 <= k < j ==> !rest[k].JoinAccept? {
        assert forall k :: 1 <= k < j + 1 ==> !events[k].JoinAccept? by {
          forall k | 1 <= k < j + 1 ensures !events[k].JoinAccept? { assert !rest[k - 1].JoinAccept?; }
        }
      }
    }
    if Reads(events, accepted, i + 1) {
      forall j | 0 <= j < i ensures Passes(rest, accepted', j) { assert Passes(events, accepted, j + 1); }
    }
    if PaceOf(events[0], accepted).GoOn? && Reads(rest, accepted', i) {
      forall j | 0 <= j < i + 1 ensures Passes(events, accepted, j) {
        if j > 0 { assert Passes(rest, accepted', j - 1); }
      }
    }
  }

  /** Whether it ends joined or not, the guest has come to trust exactly the ids named by the
      valid accepts and rosters up to and at the event that stops it: rosters count from the
      start, with no accept at all. */
  lemma {:induction false} GainsIff(events: seq<Event>, self: DeviceId, accepted: bool, x: DeviceId)
    ensures x in Gains(events, self, accepted) <==> exists i :: GainedAt(events, self, accepted, x, i)
  {
    if events != [] {
      var rest, accepted' := events[1..], accepted || events[0].JoinAccept?;
      GainsIff(rest, self, accepted', x);
      if x in IdsOf(events[0], self) {
        assert GainedAt(events, self, accepted, x, 0);
      } else {
        if PaceOf(events[0], accepted).GoOn? {
          if i :| GainedAt(rest, self, accepted', x, i) {
            ReadsShift(events, accepted, i);
            assert GainedAt(events, self, accepted, x, i + 1);
          }
        }
        if i :| GainedAt(events, self, accepted, x, i) {
          ReadsShift(events, accepted, i - 1);
          assert GainedAt(rest, self, accepted', x, i - 1);
        }
      }
    }
  }

  /** A call that fails leaves the trusted set as it was exactly when every valid accept and
      roster it read named trusted ids only. */
  lemma FailedLeavesTrustIff(events: seq<Event>, self: DeviceId, trusted: set<DeviceId>)
    requires !Joins(events, false)
    ensures trusted + Gains(events, self, false) == trusted <==>
      forall i: nat :: Reads(events, false, i) ==> IdsOf(events[i], self) <= trusted
  {
    forall x { GainsIff(events, self, false, x); }
    if trusted + Gains(events, self, false) == trusted {
      forall i: nat | Reads(events, false, i) ensures IdsOf(events[i], self) <= trusted {
        forall x | x in IdsOf(events[i], self) ensures x in trusted {
          assert GainedAt(events, self, false, x, i);
        }
      }
    } else {
      var x :| x in Gains(events, self, false) && x !in trusted;
      var i :| GainedAt(events, self, false, x, i);
    }
  }

  /** Such a list: one valid accept or roster of anybody new, and a refusal. */
  lemma RefusedAfter(e: Event, self: DeviceId)
    requires IsAccept(e) || IsRoster(e)
    ensures !Joins([e, JoinDeny], false) && Gains([e, JoinDeny], self, false) == IdsOf(e, self)
  {
    assert [e, JoinDeny][1..] == [JoinDeny];
  }

  /** The mesh id ends as the least of its own and those of the rosters read. */
  lemma {:induction false} LeastMeshIsLeast(events: seq<Event>, accepted: bool, mesh: Bytes)
    ensures var least := LeastMesh(events, accepted, mesh);
      && Le(least, mesh)
      && (forall i: nat :: Reads(events, accepted, i) && IsRoster(events[i]) ==> Le(least, events[i].mesh))
      && (least == mesh || exists i: nat :: Reads(events, accepted, i) && IsRoster(events[i]) && least == events[i].mesh)
  {
    var least := LeastMesh(events, accepted, mesh);
    LeReflexive(mesh);
    if events != [] {
      var rest, accepted', next := events[1..], accepted || events[0].JoinAccept?, MeshOf(events[0], mesh);
      MeshOfIsLess(events[0], mesh);
      var goes := PaceOf(events[0], accepted).GoOn?;
      if goes {
        LeastMeshIsLeast(rest, accepted', next);
        LeTransitive(least, next, mesh);
        if IsRoster(events[0]) { LeTransitive(least, next, events[0].mesh); }
      }
      forall i: nat | Reads(events, accepted, i) && IsRoster(events[i]) ensures Le(least, events[i].mesh) {
        if i > 0 { ReadsShift(events, accepted, i - 1); }
      }
      if least != mesh {
        if goes && least != next {
          var i: nat :| Reads(rest, accepted', i) && IsRoster(rest[i]) && least == rest[i].mesh;
          ReadsShift(events, accepted, i);
          assert Reads(events, accepted, i + 1) && least == events[i + 1].mesh;
        } else {
          assert Reads(events, accepted, 0);
        }
      }
    }
  }

  lemma MeshOfIsLess(e: Event, mesh: Bytes)
    ensures Le(MeshOf(e, mesh), mesh) && Le(MeshOf(e, mesh), MeshOf(e, mesh))
    ensures IsRoster(e) ==> Le(MeshOf(e, mesh), e.mesh)
  {
    LeReflexive(MeshOf(e, mesh));
    if IsRoster(e) { LeTotal(mesh, e.mesh); }
  }
}
