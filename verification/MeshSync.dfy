/** Roster exchange at one node: merging a peer's members, applying kicks, leaving. */
module MeshSync {
  import opened Foundations
  import opened DeviceStore
  import Material
  import MeshNet
  import Sorting

  const U64_MAX: nat := 0xFFFF_FFFF_FFFF_FFFF

  /** A member as a roster carries it. `linkedAt` is `None` when the advertised time is one
      the clock library cannot represent. */
  datatype Member = Member(
    id: DeviceId,
    labelText: string,
    fingerprint: string,
    capabilities: seq<Capability>,
    linkedAt: Option<int>
  )

  /** The mesh file: which mesh this node is in, and how often its roster changed. */
  class MeshState {
    var meshId: Bytes
    var lastSync: Option<int>
    var kickedBy: Option<DeviceId>
    var generation: nat
    var dirtyMarks: nat       // writes of the dirty marker beside the file

    ghost predicate Valid()
      reads this
    {
      generation <= U64_MAX
    }

    constructor (meshId: Bytes)
      ensures Valid() && this.meshId == meshId && generation == 0 && dirtyMarks == 0
    {
      this.meshId, lastSync, kickedBy, generation, dirtyMarks := meshId, None, None, 0, 0;
    }

    /** Keeps the lesser of two mesh ids. */
    method AdoptMeshId(other: Bytes)
      modifies this`meshId
      ensures Le(meshId, old(meshId)) && Le(meshId, other)
      ensures meshId == MeshNet.MinMesh(old(meshId), other)
    {
      LeReflexive(meshId);
      LeReflexive(other);
      LeTotal(meshId, other);
      if !Le(meshId, other) {
        meshId := other;
      }
    }

    method BumpGeneration()
      requires Valid()
      modifies this`generation
      ensures Valid()
      ensures generation == old(generation) + (if old(generation) < U64_MAX then 1 else 0)
    {
      generation := if generation < U64_MAX then generation + 1 else generation;
    }

    method BumpMeshDirty()
      requires Valid()
      modifies this`generation, this`dirtyMarks
      ensures Valid() && dirtyMarks == old(dirtyMarks) + 1
      ensures generation == old(generation) + (if old(generation) < U64_MAX then 1 else 0)
    {
      BumpGeneration();
      dirtyMarks := dirtyMarks + 1;
    }
  }

  // ---- merging, as a function of the store ----

  function Learned(m: Member, mesh: Bytes, now: int): DeviceRecord
  {
    DeviceRecord(m.id, Label(m.labelText), m.fingerprint,
      if m.capabilities == [] then ALL_CAPABILITIES else m.capabilities,
      Trusted, if m.linkedAt.Some? then m.linkedAt.value else now, Some(now), None, Some(mesh), [], [])
  }

  function Refreshed(r: DeviceRecord, m: Member, mesh: Bytes, now: int): DeviceRecord
  {
    r.(labelText := Label(m.labelText), fingerprint := m.fingerprint,
       capabilities := if m.capabilities == [] then r.capabilities else m.capabilities,
       meshId := Some(mesh), lastSeen := Some(now))
  }

  function MergeMember(d: Devices, m: Member, self: DeviceId, mesh: Bytes, now: int): Devices
  {
    if m.id == self then d
    else if IsTrusted(d, m.id) then d[m.id := Refreshed(d[m.id], m, mesh, now)]
    else d[m.id := Learned(m, mesh, now)]
  }

  function Merge(d: Devices, members: seq<Member>, self: DeviceId, mesh: Bytes, now: int): Devices
  {
    if members == [] then d
    else MergeMember(Merge(d, members[..|members| - 1], self, mesh, now), members[|members| - 1], self, mesh, now)
  }

  function Tag(d: Devices, from: DeviceId, mesh: Bytes): Devices
  {
    if from in d then d[from := d[from].(meshId := Some(mesh))] else d
  }

  function Ids(members: seq<Member>): set<DeviceId>
  {
    set m | m in members :: m.id
  }

  // ---- what one entry makes of a record ----

  /** A peer already trusted keeps what the roster does not say: its capabilities if the entry has
      none, and all that is local. */
  lemma RefreshedKeeps(r: DeviceRecord, m: Member, mesh: Bytes, now: int)
    ensures var r' := Refreshed(r, m, mesh, now);
      && r'.capabilities == (if |m.capabilities| > 0 then m.capabilities else r.capabilities)
      && r'.fingerprint == m.fingerprint && r'.meshId == Some(mesh) && r'.lastSeen == Some(now)
      && r'.id == r.id && r'.trust == r.trust && r'.linkedAt == r.linkedAt && r'.endpointHint == r.endpointHint
      && r'.aliases == r.aliases && r'.groups == r.groups
      && r'.labelText <= m.labelText && |r'.labelText| == (if |m.labelText| <= 64 then |m.labelText| else 64)
  {
  }

  /** A new peer is trusted, with the four usual capabilities if the entry has none. */
  lemma LearnedHas(m: Member, mesh: Bytes, now: int)
    ensures var r := Learned(m, mesh, now);
      && r.id == m.id && r.trust == Trusted && r.fingerprint == m.fingerprint
      && r.capabilities == (if |m.capabilities| > 0 then m.capabilities else [Terminal, Files, Desktop, Tcp])
      && (m.linkedAt.Some? ==> r.linkedAt == m.linkedAt.value) && (m.linkedAt.None? ==> r.linkedAt == now)
      && r.lastSeen == Some(now) && r.meshId == Some(mesh) && r.endpointHint == None && r.aliases == [] && r.groups == []
      && r.labelText <= m.labelText && |r.labelText| == (if |m.labelText| <= 64 then |m.labelText| else 64)
  {
  }

  // ---- what a merge means, id by id ----

  lemma IdsGrow(members: seq<Member>, i: nat)
    requires i < |members|
    ensures members[..i + 1][..i] == members[..i]
    ensures Ids(members[..i + 1]) == Ids(members[..i]) + {members[i].id}
  {
    assert members[..i + 1] == members[..i] + [members[i]];
  }

  lemma MergeMemberTrusts(d: Devices, m: Member, self: DeviceId, mesh: Bytes, now: int)
    requires Filed(d)
    ensures var e := MergeMember(d, m, self, mesh, now);
      && Filed(e)
      && TrustedIds(e) == TrustedIds(d) + ({m.id} - {self})
      && e.Keys == d.Keys + ({m.id} - {self})
  {
  }

  /** The trusted peers after a merge are the ones before and everyone on the roster. */
  lemma {:induction false} MergeTrusts(d: Devices, members: seq<Member>, self: DeviceId, mesh: Bytes, now: int)
    requires Filed(d)
    ensures var e := Merge(d, members, self, mesh, now);
      && Filed(e)
      && TrustedIds(e) == TrustedIds(d) + (Ids(members) - {self})
      && e.Keys == d.Keys + (Ids(members) - {self})
  {
    if members != [] {
      var init, m := members[..|members| - 1], members[|members| - 1];
      MergeTrusts(d, init, self, mesh, now);
      MergeMemberTrusts(Merge(d, init, self, mesh, now), m, self, mesh, now);
      IdsGrow(members, |members| - 1);
      assert members[..|members|] == members;
    }
  }

  /** The ids a roster adds to the trusted peers of `d`. */
  function NewIds(d: Devices, members: seq<Member>, self: DeviceId): set<DeviceId>
  {
    Ids(members) - {self} - TrustedIds(d)
  }

  lemma OneMoreId(ids: set<DeviceId>, trusted: set<DeviceId>, self: DeviceId, id: DeviceId)
    ensures |ids + {id} - {self} - trusted| - |ids - {self} - trusted|
         == if id == self || id in trusted + (ids - {self}) then 0 else 1
  {
    if id == self || id in trusted + (ids - {self}) {
      assert ids + {id} - {self} - trusted == ids - {self} - trusted;
    } else {
      assert ids + {id} - {self} - trusted == (ids - {self} - trusted) + {id};
    }
  }

  lemma MergeGrows(d: Devices, members: seq<Member>, i: nat, self: DeviceId, mesh: Bytes, now: int)
    requires i < |members|
    ensures Merge(d, members[..i + 1], self, mesh, now)
         == MergeMember(Merge(d, members[..i], self, mesh, now), members[i], self, mesh, now)
  {
    assert members[..i + 1][..i] == members[..i];
  }

  /** One more entry adds one new id exactly when the merge so far does not yet trust it. */
  lemma {:induction false} NewIdsGrow(d: Devices, members: seq<Member>, i: nat, self: DeviceId, mesh: Bytes, now: int)
    requires Filed(d) && i < |members|
    ensures var id := members[i].id; var e := Merge(d, members[..i], self, mesh, now);
      |NewIds(d, members[..i + 1], self)| - |NewIds(d, members[..i], self)|
        == if id == self || IsTrusted(e, id) then 0 else 1
  {
    var id, e := members[i].id, Merge(d, members[..i], self, mesh, now);
    MergeTrusts(d, members[..i], self, mesh, now);
    IdsGrow(members, i);
    OneMoreId(Ids(members[..i]), TrustedIds(d), self, id);
    assert IsTrusted(e, id) <==> id in TrustedIds(e);
  }

  /** Peers off the roster keep their record; trusted peers on it keep what is local to
      this node: when they were linked, their aliases, groups and endpoint. */
  lemma {:induction false} MergeKeepsLocal(d: Devices, members: seq<Member>, self: DeviceId, mesh: Bytes, now: int, id: DeviceId)
    requires Filed(d) && id in d
    ensures var e := Merge(d, members, self, mesh, now);
      && id in e
      && (id !in Ids(members) || id == self ==> e[id] == d[id])
      && (IsTrusted(d, id) ==>
            && IsTrusted(e, id)
            && e[id].linkedAt == d[id].linkedAt && e[id].aliases == d[id].aliases
            && e[id].groups == d[id].groups && e[id].endpointHint == d[id].endpointHint)
  {
    if members != [] {
      var init, m := members[..|members| - 1], members[|members| - 1];
      assert Ids(members) == Ids(init) + {m.id};
      MergeKeepsLocal(d, init, self, mesh, now, id);
    }
  }

  /** When a roster names an id more than once, its last entry gives the label and
      fingerprint, and the first gives the link time of a newly learned peer. */
  lemma {:induction false} MergeTakesLast(d: Devices, members: seq<Member>, self: DeviceId, mesh: Bytes, now: int, i: nat)
    requires Filed(d) && i < |members| && members[i].id != self
    requires forall j :: i < j < |members| ==> members[j].id != members[i].id
    ensures var e := Merge(d, members, self, mesh, now); var m := members[i];
      && m.id in e
      && e[m.id].labelText == Label(m.labelText) && e[m.id].fingerprint == m.fingerprint
      && e[m.id].meshId == Some(mesh) && e[m.id].lastSeen == Some(now)
      && (m.capabilities != [] ==> e[m.id].capabilities == m.capabilities)
  {
    if i < |members| - 1 {
      assert members[..|members| - 1][i] == members[i];
      MergeTakesLast(d, members[..|members| - 1], self, mesh, now, i);
    }
  }

  lemma {:induction false} MergeDatesFirst(d: Devices, members: seq<Member>, self: DeviceId, mesh: Bytes, now: int, i: nat)
    requires Filed(d) && i < |members| && members[i].id != self && !IsTrusted(d, members[i].id)
    requires forall j :: 0 <= j < i ==> members[j].id != members[i].id
    ensures var e := Merge(d, members, self, mesh, now); var m := members[i];
      && m.id in e
      && e[m.id].linkedAt == (if m.linkedAt.Some? then m.linkedAt.value else now)
      && e[m.id].aliases == [] && e[m.id].groups == [] && e[m.id].endpointHint == None
  {
    var init, last := members[..|members| - 1], members[|members| - 1];
    var e := Merge(d, init, self, mesh, now);
    MergeTrusts(d, init, self, mesh, now);
    assert IsTrusted(e, members[i].id) <==> members[i].id in TrustedIds(e);
    assert IsTrusted(d, members[i].id) <==> members[i].id in TrustedIds(d);
    if i == |members| - 1 {
      assert forall x :: x in init ==> x.id != last.id;
    } else {
      assert init[i] == members[i] && members[i] in init;
      MergeDatesFirst(d, init, self, mesh, now, i);
    }
  }

  /** Merging the same roster again teaches nothing, and two rosters may come in either order. */
  lemma MergesCommuteOnTrust(d: Devices, p: seq<Member>, q: seq<Member>, self: DeviceId,
                             mesh: Bytes, mesh': Bytes, now: int, now': int)
    requires Filed(d)
    ensures TrustedIds(Merge(Merge(d, p, self, mesh, now), q, self, mesh', now'))
         == TrustedIds(Merge(Merge(d, q, self, mesh', now'), p, self, mesh, now))
    ensures Ids(p) - {self} - TrustedIds(Merge(d, p, self, mesh, now)) == {}
  {
    MergeTrusts(d, p, self, mesh, now);
    MergeTrusts(d, q, self, mesh', now');
    MergeTrusts(Merge(d, p, self, mesh, now), q, self, mesh', now');
    MergeTrusts(Merge(d, q, self, mesh', now'), p, self, mesh, now);
  }

  lemma TagTrusts(d: Devices, from: DeviceId, mesh: Bytes)
    requires Filed(d)
    ensures var e := Tag(d, from, mesh); Filed(e) && TrustedIds(e) == TrustedIds(d) && e.Keys == d.Keys
  {
  }

  lemma {:induction false} MergeAndTagTrust(d: Devices, members: seq<Member>, self: DeviceId, mesh: Bytes, now: int, from: DeviceId)
    requires Filed(d)
    ensures var e := Tag(Merge(d, members, self, mesh, now), from, mesh);
      && TrustedIds(e) == TrustedIds(d) + (Ids(members) - {self})
      && e.Keys == d.Keys + (Ids(members) - {self})
  {
    MergeTrusts(d, members, self, mesh, now);
    TagTrusts(Merge(d, members, self, mesh, now), from, mesh);
  }

  // ---- the code ----

  /** One member: a peer already trusted is refreshed, any other but self is learned. */
  method MergeOne(store: Store, m: Member, self: DeviceId, mesh: Bytes, now: int) returns (learned: bool)
    requires store.Valid()
    modifies store
    ensures store.Valid()
    ensures store.devices == MergeMember(old(store.devices), m, self, mesh, now)
    ensures learned <==> m.id != self && !IsTrusted(old(store.devices), m.id)
  {
    learned := false;
    if m.id == self {
      return;
    }
    if m.id in store.devices && store.devices[m.id].trust == Trusted {
      var r := store.devices[m.id];
      r := r.(labelText := Label(m.labelText), fingerprint := m.fingerprint);
      if m.capabilities != [] {
        r := r.(capabilities := m.capabilities);
      }
      r := r.(meshId := Some(mesh), lastSeen := Some(now));
      store.Upsert(r);
      return;
    }
    store.Upsert(DeviceRecord(m.id, Label(m.labelText), m.fingerprint,
      if m.capabilities == [] then ALL_CAPABILITIES else m.capabilities,
      Trusted, if m.linkedAt.Some? then m.linkedAt.value else now, Some(now), None, Some(mesh), [], []));
    learned := true;
  }

  /** The merge loop: refreshes the peers already trusted, learns the others, counts the latter. */
  method MergeMembers(store: Store, members: seq<Member>, self: DeviceId, mesh: Bytes, now: int) returns (added: nat)
    requires store.Valid()
    modifies store
    ensures store.Valid()
    ensures store.devices == Merge(old(store.devices), members, self, mesh, now)
    ensures added == |NewIds(old(store.devices), members, self)|
  {
    hide MergeMember, Merge, NewIds, IsTrusted;
    ghost var before := store.devices;
    added := 0;
    NothingMerged(before, self, mesh, now);
    assert members[..0] == [];
    for i := 0 to |members|
      modifies store
      invariant store.Valid()
      invariant store.devices == Merge(before, members[..i], self, mesh, now)
      invariant added == |NewIds(before, members[..i], self)|
    {
      MergeGrows(before, members, i, self, mesh, now);
      NewIdsGrow(before, members, i, self, mesh, now);
      var learned := MergeOne(store, members[i], self, mesh, now);
      if learned {
        added := added + 1;
      }
    }
    assert members[..|members|] == members;
  }

  lemma NothingMerged(d: Devices, self: DeviceId, mesh: Bytes, now: int)
    ensures Merge(d, [], self, mesh, now) == d && NewIds(d, [], self) == {}
  {
  }

  lemma NewIdsAre(d: Devices, members: seq<Member>, self: DeviceId)
    ensures NewIds(d, members, self) == Ids(members) - {self} - TrustedIds(d)
  {
  }

  lemma TagIs(d: Devices, from: DeviceId, mesh: Bytes)
    ensures var e := Tag(d, from, mesh);
      && e.Keys == d.Keys && (from in d ==> e[from] == d[from].(meshId := Some(mesh)))
      && forall id :: id in d && id != from ==> e[id] == d[id]
  {
  }

  lemma RecordsAfter(d: Devices, members: seq<Member>, self: DeviceId, mesh: Bytes, now: int, from: DeviceId)
    requires Filed(d)
    ensures var e := Tag(Merge(d, members, self, mesh, now), from, mesh);
      && (from in e ==> e[from].meshId == Some(mesh))
      && forall id :: id in d && id != from && id !in Ids(members) ==> id in e && e[id] == d[id]
  {
    TagIs(Merge(d, members, self, mesh, now), from, mesh);
    forall id | id in d && id !in Ids(members)
      ensures id in Merge(d, members, self, mesh, now) && Merge(d, members, self, mesh, now)[id] == d[id]
    {
      MergeKeepsLocal(d, members, self, mesh, now, id);
    }
    hide Merge, Tag, Ids;
  }

  method TagSender(store: Store, from: DeviceId, mesh: Bytes)
    requires store.Valid()
    modifies store
    ensures store.Valid() && store.devices == Tag(old(store.devices), from, mesh)
  {
    if from in store.devices {
      var r := store.devices[from];
      store.Upsert(r.(meshId := Some(mesh)));
    }
  }

  /** Merges a peer's roster and returns how many members were new. */
  method ApplyMembership(store: Store, mesh: MeshState, from: DeviceId, meshId: Bytes,
                         members: seq<Member>, self: DeviceId, now: int) returns (added: nat)
    requires store.Valid() && mesh.Valid()
    modifies store, mesh
    ensures store.Valid() && mesh.Valid()
    ensures store.devices == Tag(Merge(old(store.devices), members, self, mesh.meshId, now), from, mesh.meshId)
    ensures TrustedIds(store.devices) == TrustedIds(old(store.devices)) + (Ids(members) - {self})
    ensures store.devices.Keys == old(store.devices.Keys) + (Ids(members) - {self})
    ensures added == |Ids(members) - {self} - TrustedIds(old(store.devices))|
    ensures mesh.meshId == MeshNet.MinMesh(old(mesh.meshId), meshId)
    ensures from in store.devices ==> store.devices[from].meshId == Some(mesh.meshId)
    ensures forall id :: id in old(store.devices) && id != from && id !in Ids(members) ==> store.devices[id] == old(store.devices[id])
    ensures mesh.lastSync == Some(now) && mesh.kickedBy == old(mesh.kickedBy)
    ensures mesh.dirtyMarks == old(mesh.dirtyMarks) + (if added > 0 then 1 else 0)
    ensures mesh.generation == old(mesh.generation) + (if added > 0 && old(mesh.generation) < U64_MAX then 1 else 0)
  {
    hide Merge, Tag, Ids, NewIds, TrustedIds;
    ghost var before := store.devices;
    mesh.AdoptMeshId(meshId);
    mesh.lastSync := Some(now);
    added := MergeMembers(store, members, self, mesh.meshId, now);
    NewIdsAre(before, members, self);
    MergeAndTagTrust(before, members, self, mesh.meshId, now, from);
    TagSender(store, from, mesh.meshId);
    RecordsAfter(before, members, self, mesh.meshId, now, from);
    if added > 0 {
      mesh.BumpMeshDirty();
    }
  }

  // ---- the roster a node advertises ----

  function MemberOf(r: DeviceRecord): Member
  {
    Member(r.id, r.labelText, r.fingerprint, r.capabilities, Some(r.linkedAt))
  }

  function KeyOf(m: Member): Bytes
  {
    Material.IdText(m.id)
  }

  /** Self as given, and every other member as its record has it. */
  ghost predicate AsRecorded(out: seq<Member>, d: Devices, self: DeviceId, own: Member)
  {
    forall m :: m in out ==> if m.id == self then m == own else m.id in d && m == MemberOf(d[m.id])
  }

  ghost predicate IdsDiffer(out: seq<Member>)
  {
    forall i, j :: 0 <= i < j < |out| ==> out[i].id != out[j].id
  }

  lemma ListOneMore(out: seq<Member>, m: Member)
    requires IdsDiffer(out) && m.id !in Ids(out)
    ensures IdsDiffer(out + [m]) && Ids(out + [m]) == Ids(out) + {m.id}
  {
    assert forall x :: x in out ==> x.id in Ids(out);
    assert forall x :: x in out + [m] <==> x in out || x == m;
  }

  /** The loop over the records, in whatever order they are listed. */
  method CollectMembers(store: Store, order: seq<DeviceId>, self: DeviceId, own: Member) returns (out: seq<Member>)
    requires store.Valid()
    requires NoDuplicates(order) && Elements(order) == store.devices.Keys
    requires own.id == self
    ensures Ids(out) == {self} + TrustedIds(store.devices)
    ensures IdsDiffer(out) && AsRecorded(out, store.devices, self, own)
  {
    hide IdsDiffer, Ids;
    out := [own];
    JustOne(own);
    for i := 0 to |order|
      invariant Ids(out) == {self} + (TrustedIds(store.devices) * Elements(order[..i]))
      invariant IdsDiffer(out) && AsRecorded(out, store.devices, self, own)
    {
      assert order[i] in Elements(order);
      assert Elements(order[..i + 1]) == Elements(order[..i]) + {order[i]};
      var d := store.devices[order[i]];
      if d.trust != Trusted || d.id == self {
        continue;
      }
      ListOneMore(out, MemberOf(d));
      out := out + [MemberOf(d)];
    }
    assert order[..|order|] == order;
  }

  lemma JustOne(m: Member)
    ensures IdsDiffer([m]) && Ids([m]) == {m.id}
  {
  }

  /** The roster a node advertises: itself, then its trusted peers as their records have them,
      each once, in the order of their ids. */
  method MembersFromStore(store: Store, order: seq<DeviceId>, self: DeviceId, own: Member) returns (out: seq<Member>)
    requires store.Valid()
    requires NoDuplicates(order) && Elements(order) == store.devices.Keys
    requires own.id == self
    ensures Ids(out) == {self} + TrustedIds(store.devices)
    ensures IdsDiffer(out) && AsRecorded(out, store.devices, self, own)
    ensures forall m :: m in out && m.id != self ==>
      && m.id in store.devices
      && var r := store.devices[m.id];
         m.labelText == r.labelText && m.fingerprint == r.fingerprint && m.capabilities == r.capabilities
         && m.linkedAt == Some(r.linkedAt)
    ensures own in out
    ensures Sorting.Sorted(out, KeyOf)
    ensures forall i, j :: 0 <= i < j < |out| ==> Le(Material.IdText(out[i].id), Material.IdText(out[j].id))
  {
    var listed := CollectMembers(store, order, self, own);
    out := Sorting.Sort(listed, KeyOf);
    Sorting.SortSorts(listed, KeyOf);
    SameList(listed, out);
    assert self in Ids(out);
  }

  lemma SameList(listed: seq<Member>, out: seq<Member>)
    requires IdsDiffer(listed) && multiset(out) == multiset(listed)
    ensures Ids(out) == Ids(listed) && IdsDiffer(out)
    ensures forall m :: m in out <==> m in listed
  {
    assert forall m :: m in out <==> m in multiset(out);
    assert forall m :: m in listed <==> m in multiset(listed);
    forall m | m in listed ensures multiset(listed)[m] == 1 { OnceListed(listed, m); }
    OnceIsDistinct(out);
    forall i, j | 0 <= i < j < |out| ensures out[i].id != out[j].id {
      assert out[i] in listed && out[j] in listed;
      var k :| 0 <= k < |listed| && listed[k] == out[i];
      var l :| 0 <= l < |listed| && listed[l] == out[j];
    }
  }

  lemma {:induction false} OnceListed(listed: seq<Member>, m: Member)
    requires IdsDiffer(listed) && m in listed
    ensures multiset(listed)[m] == 1
  {
    var i :| 0 <= i < |listed| && listed[i] == m;
    assert listed == listed[..i] + [m] + listed[i + 1..];
    assert m !in listed[..i] && m !in listed[i + 1..];
  }

  method ApplyKickTarget(store: Store, target: DeviceId)
    requires store.Valid()
    modifies store
    ensures store.Valid() && store.devices == old(store.devices) - {target}
    ensures TrustedIds(store.devices) == TrustedIds(old(store.devices)) - {target}
  {
    if target in store.devices {
      var _ := store.Remove(target);
    }
  }

  /** This node was kicked: note who did it, drop every trusted peer, start a mesh of its own. */
  method ApplyKickNoticeLocal(store: Store, mesh: MeshState, trusted: seq<DeviceId>, kicker: DeviceId, freshMesh: Bytes)
    requires store.Valid() && mesh.Valid()
    requires Elements(trusted) == TrustedIds(store.devices)
    modifies store, mesh
    ensures store.Valid() && mesh.Valid()
    ensures TrustedIds(store.devices) == {}
    ensures store.devices == old(store.devices) - TrustedIds(old(store.devices))
    ensures mesh.meshId == freshMesh && mesh.kickedBy == Some(kicker)
    ensures mesh.generation == 0 && mesh.lastSync == None && mesh.dirtyMarks == old(mesh.dirtyMarks)
  {
    mesh.kickedBy := Some(kicker);
    ghost var before := store.devices;
    for i := 0 to |trusted|
      modifies store
      invariant store.Valid()
      invariant store.devices == before - Elements(trusted[..i])
    {
      var _ := store.Remove(trusted[i]);
      assert Elements(trusted[..i + 1]) == Elements(trusted[..i]) + {trusted[i]};
    }
    assert trusted[..|trusted|] == trusted;
    mesh.meshId, mesh.lastSync, mesh.kickedBy, mesh.generation := freshMesh, None, Some(kicker), 0;
  }
}
