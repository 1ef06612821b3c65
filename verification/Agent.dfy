/** One node's agent: its stores, and what each control message does to them. Every handler
    is proved to act on the node as the transition system says it does. */
module Agent {
  import opened Foundations
  import opened Numbers
  import DeviceStore
  import Material
  import MeshNet
  import MeshSync
  import PendingKicks

  function MemberIds(members: seq<MeshSync.Member>): (ids: seq<DeviceId>)
    ensures |ids| == |members|
  {
    seq(|members|, i requires 0 <= i < |members| => members[i].id)
  }

  function PendingViews(kicks: PendingKicks.Kicks): map<DeviceId, MeshNet.PendingView>
  {
    map t | t in kicks :: MeshNet.PendingView(kicks[t].kicker, kicks[t].delivered)
  }

  /** The node as the transition system sees it. */
  function NodeView(devices: DeviceStore.Devices, mesh: Bytes, marks: nat, kicks: PendingKicks.Kicks, added: nat): MeshNet.Node
  {
    MeshNet.Node(devices.Keys, DeviceStore.TrustedIds(devices), mesh, PendingViews(kicks), added, marks)
  }

  /** A merge that adds `ids` to keys and trusted peers and counts the new ones is `Absorb`. */
  lemma MergeIsAbsorb(n: MeshNet.Node, n': MeshNet.Node, self: DeviceId, ids: set<DeviceId>, mesh: Bytes)
    requires n.trusted <= n.known
    requires n'.known == n.known + (ids - {self}) && n'.trusted == n.trusted + (ids - {self})
    requires n'.mesh == MeshNet.MinMesh(n.mesh, mesh) && n'.pending == n.pending
    requires n'.added == n.added + |ids - {self} - n.trusted|
    requires n'.marks == n.marks + (if n'.added > n.added then 1 else 0)
    ensures n' == MeshNet.Absorb(n, self, ids, mesh)
  {
    MeshNet.AbsorbIsUnion(n, self, ids, mesh);
  }

  /** What the transition system sees of one operation on the pending kicks. */
  lemma ViewsFollow(kicks: PendingKicks.Kicks, op: PendingKicks.Op)
    ensures var views, views' := PendingViews(kicks), PendingViews(PendingKicks.Apply(kicks, op));
      match op
      case Upsert(k) => views' == views[k.target := MeshNet.PendingView(k.kicker, k.delivered)]
      case MarkDelivered(t) => views' == if t in views then views[t := views[t].(delivered := true)] else views
      case AddAck(_, _) => views' == views
      case Remove(t) => views' == views - {t}
      case Gc(_) =>
        && (forall t :: t in views' ==> t in views && views'[t] == views[t])
        && (forall t :: t in views && t !in views' ==> views[t].delivered)
  {
  }

  /** `after` is `before` with some delivered kicks swept away. */
  ghost predicate Swept(before: MeshNet.Node, after: MeshNet.Node)
  {
    && after == before.(pending := after.pending)
    && (forall t :: t in after.pending ==> t in before.pending && after.pending[t] == before.pending[t])
    && (forall t :: t in before.pending && t !in after.pending ==> before.pending[t].delivered)
  }

  /** A kick as it is filed: nobody has acknowledged it yet. */
  predicate FiledAs(k: PendingKicks.PendingKick, target: DeviceId, kicker: DeviceId, force: bool, now: int, told: bool)
  {
    k.target == target && k.kicker == kicker && k.force == force && k.createdAt == now && k.delivered == told && k.acks == []
  }

  class Agent {
    const self: DeviceId
    const store: DeviceStore.Store
    const mesh: MeshSync.MeshState
    const kicks: PendingKicks.Store
    ghost var added: nat

    ghost predicate Valid()
      reads this, store, mesh, kicks
    {
      store.Valid() && mesh.Valid()
    }

    ghost function View(): MeshNet.Node
      reads this, store, mesh, kicks
    {
      NodeView(store.devices, mesh.meshId, mesh.dirtyMarks, kicks.kicks, added)
    }

    constructor (self: DeviceId, store: DeviceStore.Store, mesh: MeshSync.MeshState, kicks: PendingKicks.Store)
      requires store.Valid() && mesh.Valid()
      ensures Valid() && this.self == self && this.store == store && this.mesh == mesh && this.kicks == kicks
    {
      this.self, this.store, this.mesh, this.kicks, this.added := self, store, mesh, kicks, 0;
    }

    /** A roster on an accepted connection: only the peer's own, and only from a trusted peer. */
    method OnRoster(peer: DeviceId, from: DeviceId, meshId: Bytes, members: seq<MeshSync.Member>,
                    ts: i64, signature: Material.Signature, now: int)
      requires Valid()
      modifies this`added, store, mesh
      ensures Valid()
      ensures
        if from == peer && Material.Verify(from, Material.MembershipMaterial(meshId, from, ts, MemberIds(members)), signature)
        then View() == MeshNet.Receive(old(View()), self,
               MeshNet.Roster(from, self, MeshNet.ToAcceptor, MeshSync.Ids(members), meshId), meshId)
        else View() == old(View())
    {
      if !DeviceStore.IsTrusted(store.devices, from) || from != peer {
        return;
      }
      if !Material.Verify(from, Material.MembershipMaterial(meshId, from, ts, MemberIds(members)), signature) {
        return;
      }
      Learn(from, meshId, members, now);
    }

    /** A snapshot that answers this node's own request: merged on its signature alone. */
    method OnSnapshot(from: DeviceId, meshId: Bytes, members: seq<MeshSync.Member>,
                      ts: i64, signature: Material.Signature, now: int)
      requires Valid()
      modifies this`added, store, mesh
      ensures Valid()
      ensures
        if Material.Verify(from, Material.MembershipMaterial(meshId, from, ts, MemberIds(members)), signature)
        then View() == MeshNet.Receive(old(View()), self,
               MeshNet.Roster(from, self, MeshNet.ToDialer, MeshSync.Ids(members), meshId), meshId)
        else View() == old(View())
    {
      if Material.Verify(from, Material.MembershipMaterial(meshId, from, ts, MemberIds(members)), signature) {
        Learn(from, meshId, members, now);
      }
    }

    method Learn(from: DeviceId, meshId: Bytes, members: seq<MeshSync.Member>, now: int)
      requires Valid()
      modifies this`added, store, mesh
      ensures Valid() && View() == MeshNet.Absorb(old(View()), self, MeshSync.Ids(members), meshId)
    {
      ghost var n := View();
      var learned := MeshSync.ApplyMembership(store, mesh, from, meshId, members, self, now);
      assert unchanged(kicks);
      added := added + learned;
      MergeIsAbsorb(n, View(), self, MeshSync.Ids(members), meshId);
    }

    /** A kick announced by its author: file it, and drop the target (or leave, if it is us). */
    method OnKickAnnounce(peer: DeviceId, target: DeviceId, kicker: DeviceId, force: bool, expected: seq<DeviceId>,
                          meshId: Bytes, ts: i64, signature: Material.Signature,
                          trusted: seq<DeviceId>, freshMesh: Bytes, now: int) returns (acknowledged: bool)
      requires Valid()
      requires Elements(trusted) == DeviceStore.TrustedIds(store.devices)
      modifies store, mesh, kicks
      ensures Valid()
      ensures
        if Material.Verify(kicker, Material.KickMaterial(meshId, target, kicker, ts), signature)
        then View() == MeshNet.Receive(old(View()), self,
               MeshNet.KickAnnounce(peer, self, MeshNet.ToAcceptor, target, kicker), freshMesh)
        else View() == old(View())
      ensures var accepted := kicker in old(View()).trusted && kicker == peer
                && Material.Verify(kicker, Material.KickMaterial(meshId, target, kicker, ts), signature);
        && (acknowledged <==> accepted && target != self)
        && (!accepted ==> kicks.kicks == old(kicks.kicks) && store.devices == old(store.devices))
        && (accepted && target != self ==> store.devices == old(store.devices) - {target})
        && (accepted && target == self ==> store.devices == old(store.devices) - DeviceStore.TrustedIds(old(store.devices)))
        && (accepted ==>
              && target in kicks.kicks && kicks.kicks == old(kicks.kicks)[target := kicks.kicks[target]]
              && FiledAs(kicks.kicks[target], target, kicker, force, now, target == self)
              && (if expected != [] then kicks.kicks[target].expected == expected
                  else Elements(kicks.kicks[target].expected) == old(View()).trusted - {target}))
    {
      acknowledged := false;
      if !DeviceStore.IsTrusted(store.devices, kicker) || kicker != peer {
        return;
      }
      if !Material.Verify(kicker, Material.KickMaterial(meshId, target, kicker, ts), signature) {
        return;
      }
      var awaited := expected;
      if awaited == [] {
        awaited := Without(trusted, target);
      }
      if target == self {
        LeaveAnnounced(kicker, force, awaited, trusted, freshMesh, now);
      } else {
        FileKick(target, kicker, force, awaited, false, now);
        acknowledged := true;
      }
    }

    /** This node learns of its own kick by announcement: the kick is filed, as told, and the
        mesh is left. */
    method LeaveAnnounced(kicker: DeviceId, force: bool, awaited: seq<DeviceId>, trusted: seq<DeviceId>,
                          freshMesh: Bytes, now: int)
      requires Valid()
      requires Elements(trusted) == DeviceStore.TrustedIds(store.devices)
      modifies store, mesh, kicks
      ensures Valid()
      ensures store.devices == old(store.devices) - DeviceStore.TrustedIds(old(store.devices))
      ensures View() == MeshNet.LeaveMesh(old(View()).(pending := old(View()).pending[self := MeshNet.PendingView(kicker, true)]), freshMesh)
      ensures kicks.kicks == old(kicks.kicks)[self := PendingKicks.PendingKick(self, kicker, force, now, true, [], awaited)]
    {
      var kick := PendingKicks.PendingKick(self, kicker, force, now, false, [], awaited);
      ViewsFollow(kicks.kicks, PendingKicks.Upsert(kick));
      kicks.Upsert(kick);
      MeshSync.ApplyKickNoticeLocal(store, mesh, trusted, kicker, freshMesh);
      ViewsFollow(kicks.kicks, PendingKicks.MarkDelivered(self));
      kicks.MarkDelivered(self);
    }

    /** Files a kick, possibly as already told to its target, and drops the target. */
    method FileKick(target: DeviceId, kicker: DeviceId, force: bool, expected: seq<DeviceId>, told: bool, now: int)
      requires Valid()
      modifies store, kicks
      ensures Valid() && View() == MeshNet.FileKick(old(View()), target, kicker, told)
      ensures store.devices == old(store.devices) - {target}
      ensures kicks.kicks == old(kicks.kicks)[target :=
        PendingKicks.PendingKick(target, kicker, force, now, told, [], expected)]
    {
      var kick := PendingKicks.PendingKick(target, kicker, force, now, false, [], expected);
      ViewsFollow(kicks.kicks, PendingKicks.Upsert(kick));
      kicks.Upsert(kick);
      ViewsFollow(kicks.kicks, PendingKicks.MarkDelivered(target));
      if told {
        kicks.MarkDelivered(target);
      }
      MeshSync.ApplyKickTarget(store, target);
    }

    /** We are told that we were kicked, by someone we trust. */
    method OnKickNotice(peer: DeviceId, kicker: DeviceId, meshId: Bytes, ts: i64, signature: Material.Signature,
                        trusted: seq<DeviceId>, freshMesh: Bytes) returns (left: bool)
      requires Valid()
      requires Elements(trusted) == DeviceStore.TrustedIds(store.devices)
      modifies store, mesh
      ensures Valid()
      ensures left <==> (&& kicker in old(View()).trusted
                         && Material.Verify(kicker, Material.KickMaterial(meshId, self, kicker, ts), signature))
      ensures left ==> View() == MeshNet.Receive(old(View()), self,
        MeshNet.KickNotice(peer, self, MeshNet.ToAcceptor, self, kicker), freshMesh)
      ensures !left ==> View() == old(View()) && store.devices == old(store.devices)
      ensures left ==> store.devices == old(store.devices) - DeviceStore.TrustedIds(old(store.devices)) && mesh.meshId == freshMesh
    {
      left := false;
      if !DeviceStore.IsTrusted(store.devices, kicker) {
        return;
      }
      if !Material.Verify(kicker, Material.KickMaterial(meshId, self, kicker, ts), signature) {
        return;
      }
      MeshSync.ApplyKickNoticeLocal(store, mesh, trusted, kicker, freshMesh);
      left := true;
    }

    /** The kicked device itself confirms: drop it, count it and the peer that brought the news. */
    method OnLeaveAck(peer: DeviceId, target: DeviceId, kicker: DeviceId, meshId: Bytes,
                      ts: i64, signature: Material.Signature, now: int)
      requires Valid()
      modifies store, kicks
      ensures Valid()
      ensures
        if Material.Verify(target, Material.LeaveAckMaterial(meshId, target, kicker, ts), signature)
        then
          && Swept(MeshNet.Receive(old(View()), self, MeshNet.LeaveAck(target, self, MeshNet.ToAcceptor, target), meshId), View())
          && kicks.kicks == PendingKicks.ApplyAll(old(kicks.kicks),
               [PendingKicks.MarkDelivered(target), PendingKicks.AddAck(target, target),
                PendingKicks.AddAck(target, peer), PendingKicks.Gc(now)])
        else View() == old(View()) && kicks.kicks == old(kicks.kicks)
      ensures store.devices ==
        if Material.Verify(target, Material.LeaveAckMaterial(meshId, target, kicker, ts), signature)
        then old(store.devices) - {target} else old(store.devices)
    {
      if !Material.Verify(target, Material.LeaveAckMaterial(meshId, target, kicker, ts), signature) {
        return;
      }
      PendingKicks.ApplyFour(kicks.kicks, PendingKicks.MarkDelivered(target), PendingKicks.AddAck(target, target),
                             PendingKicks.AddAck(target, peer), PendingKicks.Gc(now));
      MeshSync.ApplyKickTarget(store, target);
      ViewsFollow(kicks.kicks, PendingKicks.MarkDelivered(target));
      kicks.MarkDelivered(target);
      ViewsFollow(kicks.kicks, PendingKicks.AddAck(target, target));
      var _ := kicks.AddAck(target, target);
      ViewsFollow(kicks.kicks, PendingKicks.AddAck(target, peer));
      var _ := kicks.AddAck(target, peer);
      ViewsFollow(kicks.kicks, PendingKicks.Gc(now));
      var _ := kicks.GcCompleted(now);
    }

    /** A member confirms that it dropped the target. */
    method OnMemberAck(target: DeviceId, from: DeviceId, now: int)
      requires Valid()
      modifies kicks
      ensures Valid() && Swept(old(View()), View())
      ensures kicks.kicks == PendingKicks.ApplyAll(old(kicks.kicks),
                [PendingKicks.AddAck(target, from), PendingKicks.Gc(now)])
    {
      PendingKicks.ApplyTwo(kicks.kicks, PendingKicks.AddAck(target, from), PendingKicks.Gc(now));
      ViewsFollow(kicks.kicks, PendingKicks.AddAck(target, from));
      var _ := kicks.AddAck(target, from);
      ViewsFollow(kicks.kicks, PendingKicks.Gc(now));
      var _ := kicks.GcCompleted(now);
    }

    /** A flush comes to a kick: if that is still on file, its target gets a trusted record for
        the handshake, whatever has become of the kick since the flush listed it. */
    method BeginKickDelivery(target: DeviceId, now: int)
      requires Valid()
      modifies store
      ensures Valid() && View() == MeshNet.FlushAdd(old(View()), target)
      ensures target in old(store.devices) || target !in kicks.kicks ==> store.devices == old(store.devices)
      ensures target !in old(store.devices) && target in kicks.kicks ==>
        DeviceStore.IsTrusted(store.devices, target) && store.devices - {target} == old(store.devices)
    {
      if target !in store.devices && target in kicks.kicks {
        store.Upsert(DeviceStore.DeviceRecord(target, [], [], DeviceStore.ALL_CAPABILITIES, DeviceStore.Trusted,
                                              now, None, None, None, [], []));
      }
    }

    /** After the notice went out: take the record away again and note the delivery. */
    method FinishKickDelivery(target: DeviceId)
      requires Valid()
      modifies store, kicks
      ensures Valid() && View() == MeshNet.MarkTold(MeshNet.Forget(old(View()), target), target)
      ensures store.devices == old(store.devices) - {target}
      ensures target in kicks.kicks ==> kicks.kicks[target].delivered
    {
      MeshSync.ApplyKickTarget(store, target);
      ViewsFollow(kicks.kicks, PendingKicks.MarkDelivered(target));
      kicks.MarkDelivered(target);
    }

    /** The store and the kicks as the kick command holds them while it notifies everybody. */
    ghost function HeldCopy(target: DeviceId, devices: DeviceStore.Devices, filed: PendingKicks.Kicks): MeshNet.Copy
    {
      MeshNet.Copy(self, MeshNet.Kicking(target), devices.Keys, DeviceStore.TrustedIds(devices), PendingViews(filed))
    }

    /** The operator kicks a trusted peer: the kick is filed, and all other trusted peers are
        to be told of it, each once, and expected to acknowledge. */
    method BeginKick(target: DeviceId, force: bool, trusted: seq<DeviceId>, now: int)
      returns (ok: bool, announceTo: seq<DeviceId>, devices: DeviceStore.Devices, filed: PendingKicks.Kicks)
      requires Valid()
      requires NoDuplicates(trusted) && Elements(trusted) == DeviceStore.TrustedIds(store.devices)
      modifies kicks
      ensures Valid() && devices == store.devices && filed == kicks.kicks
      ensures ok <==> target in old(View()).trusted
      ensures !ok ==> kicks.kicks == old(kicks.kicks)
      ensures ok ==>
        && View() == MeshNet.FilePending(old(View()), target, self)
        && HeldCopy(target, devices, filed) == MeshNet.CopyOf(self, MeshNet.Kicking(target), View())
        && target in kicks.kicks && kicks.kicks == old(kicks.kicks)[target := kicks.kicks[target]]
        && FiledAs(kicks.kicks[target], target, self, force, now, false)
        && kicks.kicks[target].expected == announceTo
        && NoDuplicates(announceTo) && Elements(announceTo) == old(View()).trusted - {target}
    {
      ok, announceTo := DeviceStore.IsTrusted(store.devices, target), [];
      if ok {
        announceTo := Without(trusted, target);
        var kick := PendingKicks.PendingKick(target, self, force, now, false, [], announceTo);
        ViewsFollow(kicks.kicks, PendingKicks.Upsert(kick));
        kicks.Upsert(kick);
      }
      devices, filed := store.devices, kicks.kicks;
    }

    /** The target was told: the kicks go back to their file as they were read, marked. */
    method WriteHeldKicks(target: DeviceId, devices: DeviceStore.Devices, filed: PendingKicks.Kicks)
      requires Valid()
      modifies kicks
      ensures Valid()
      ensures View() == old(View()).(pending := MeshNet.Told(HeldCopy(target, devices, filed)))
      ensures kicks.kicks == if target in filed then filed[target := filed[target].(delivered := true)] else filed
    {
      ViewsFollow(filed, PendingKicks.MarkDelivered(target));
      kicks.Overwrite(filed);
      kicks.MarkDelivered(target);
    }

    /** Last, the store goes back to its file as it was read, less the target. */
    method WriteHeldStore(target: DeviceId, devices: DeviceStore.Devices, filed: PendingKicks.Kicks)
      requires Valid() && DeviceStore.Filed(devices)
      modifies store, mesh
      ensures Valid()
      ensures View() == MeshNet.Overwritten(old(View()), MeshNet.Changed(HeldCopy(target, devices, filed)))
                          .(marks := old(View()).marks + 1)
      ensures store.devices == devices - {target}
    {
      store.Overwrite(devices);
      MeshSync.ApplyKickTarget(store, target);
      mesh.BumpMeshDirty();
    }
  }

  /** The ids of a list other than one of them, in order. */
  method Without(ids: seq<DeviceId>, gone: DeviceId) returns (rest: seq<DeviceId>)
    ensures Elements(rest) == Elements(ids) - {gone}
    ensures NoDuplicates(ids) ==> NoDuplicates(rest)
  {
    rest := [];
    for i := 0 to |ids|
      invariant Elements(rest) == Elements(ids[..i]) - {gone}
      invariant NoDuplicates(ids) ==> NoDuplicates(rest)
    {
      assert Elements(ids[..i + 1]) == Elements(ids[..i]) + {ids[i]};
      if ids[i] != gone {
        assert NoDuplicates(ids) ==> ids[i] !in ids[..i];
        assert NoDuplicates(ids) ==> ids[i] !in Elements(rest);
        ghost var had := Elements(rest);
        rest := rest + [ids[i]];
        assert Elements(rest) == had + {ids[i]};
      }
    }
    assert ids[..|ids|] == ids;
  }
}
