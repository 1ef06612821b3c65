/** The byte strings that nodes sign: rosters, kicks and leave acknowledgements. */
module Material {
  import opened Foundations
  import opened Numbers
  import Sorting

  /** Ideal signatures: only the holder of a key can make one over given material. */
  datatype Signature = Signature(signer: DeviceId, material: Bytes)

  predicate Verify(signer: DeviceId, material: Bytes, sig: Signature)
  {
    sig == Signature(signer, material)
  }

  function Ascii(s: string): (b: Bytes)
    ensures |b| == |s|
  {
    seq(|s|, i requires 0 <= i < |s| => s[i] as int % 0x100)
  }

  // ---- ids as 64 lowercase hex digits ----

  function HexDigit(n: int): u8
    requires 0 <= n < 16
  {
    if n < 10 then '0' as int + n else 'a' as int + n - 10
  }

  function Hex(b: Bytes): (h: Bytes)
    ensures |h| == 2 * |b|
  {
    if b == [] then [] else [HexDigit(b[0] / 16), HexDigit(b[0] % 16)] + Hex(b[1..])
  }

  lemma {:induction false} HexInjective(a: Bytes, b: Bytes)
    requires Hex(a) == Hex(b)
    ensures a == b
  {
    if a != [] {
      assert |b| == |a|;
      assert Hex(a)[2..] == Hex(a[1..]) && Hex(b)[2..] == Hex(b[1..]);
      assert Hex(a)[0] == HexDigit(a[0] / 16) && Hex(b)[0] == HexDigit(b[0] / 16);
      assert Hex(a)[1] == HexDigit(a[0] % 16) && Hex(b)[1] == HexDigit(b[0] % 16);
      HexInjective(a[1..], b[1..]);
      assert a == [a[0]] + a[1..] && b == [b[0]] + b[1..];
    }
  }

  function IdText(id: DeviceId): (h: Bytes)
    ensures |h| == 64
  {
    Hex(id.bytes)
  }

  function IdTexts(ids: seq<DeviceId>): (t: seq<Bytes>)
    ensures |t| == |ids|
  {
    seq(|ids|, i requires 0 <= i < |ids| => IdText(ids[i]))
  }

  // ---- sorting ----

  function Itself(b: Bytes): Bytes
  {
    b
  }

  ghost predicate Sorted(s: seq<Bytes>)
  {
    Sorting.Sorted(s, Itself)
  }

  function Sort(s: seq<Bytes>): seq<Bytes>
  {
    Sorting.Sort(s, Itself)
  }

  lemma SortSorts(s: seq<Bytes>)
    ensures multiset(Sort(s)) == multiset(s) && Sorted(Sort(s))
  {
    Sorting.SortSorts(s, Itself);
  }

  /** A list has only one sorted arrangement. */
  lemma {:induction false} SortedUnique(a: seq<Bytes>, b: seq<Bytes>)
    requires Sorted(a) && Sorted(b) && multiset(a) == multiset(b)
    ensures a == b
    decreases |a|
  {
    assert |a| == |multiset(a)| == |multiset(b)| == |b|;
    if a != [] {
      assert a[0] in multiset(a) && b[0] in multiset(b);
      Sorting.LeastFirst(a, b[0], Itself);
      Sorting.LeastFirst(b, a[0], Itself);
      LeAntisymmetric(a[0], b[0]);
      SameTails(a, b);
      SortedUnique(a[1..], b[1..]);
      assert a == [a[0]] + a[1..] && b == [b[0]] + b[1..];
    }
  }

  lemma SameTails(a: seq<Bytes>, b: seq<Bytes>)
    requires a != [] && b != [] && a[0] == b[0] && multiset(a) == multiset(b)
    ensures multiset(a[1..]) == multiset(b[1..])
  {
    assert a == [a[0]] + a[1..] && b == [b[0]] + b[1..];
    assert multiset(a[1..]) == multiset(a) - multiset{a[0]};
    assert multiset(b[1..]) == multiset(b) - multiset{b[0]};
  }

  // ---- what is signed ----

  function Joined(parts: seq<Bytes>): Bytes
  {
    if parts == [] then [] else parts[0] + Joined(parts[1..])
  }

  function MembershipMaterial(mesh: Bytes, from: DeviceId, ts: i64, ids: seq<DeviceId>): Bytes
  {
    Ascii("mymesh-membership-v1") + mesh + from.bytes + TimestampBytes(ts) + Joined(Sort(IdTexts(ids)))
  }

  function KickMaterial(mesh: Bytes, target: DeviceId, kicker: DeviceId, ts: i64): Bytes
  {
    Ascii("mymesh-kick-v1") + mesh + target.bytes + kicker.bytes + TimestampBytes(ts)
  }

  function LeaveAckMaterial(mesh: Bytes, target: DeviceId, kicker: DeviceId, ts: i64): Bytes
  {
    Ascii("mymesh-kick-leave-v1") + mesh + target.bytes + kicker.bytes + TimestampBytes(ts)
  }

  // ---- the three kinds are never confused ----

  lemma MaterialsAreDisjoint(mesh1: Bytes, from: DeviceId, ts1: i64, ids: seq<DeviceId>,
                             mesh2: Bytes, target2: DeviceId, kicker2: DeviceId, ts2: i64,
                             mesh3: Bytes, target3: DeviceId, kicker3: DeviceId, ts3: i64)
    ensures MembershipMaterial(mesh1, from, ts1, ids) != KickMaterial(mesh2, target2, kicker2, ts2)
    ensures MembershipMaterial(mesh1, from, ts1, ids) != LeaveAckMaterial(mesh3, target3, kicker3, ts3)
    ensures KickMaterial(mesh2, target2, kicker2, ts2) != LeaveAckMaterial(mesh3, target3, kicker3, ts3)
  {
    assert MembershipMaterial(mesh1, from, ts1, ids)[7] == 'm' as int;
    assert KickMaterial(mesh2, target2, kicker2, ts2)[7] == 'k' as int;
    assert LeaveAckMaterial(mesh3, target3, kicker3, ts3)[7] == 'k' as int;
    assert KickMaterial(mesh2, target2, kicker2, ts2)[12] == 'v' as int;
    assert LeaveAckMaterial(mesh3, target3, kicker3, ts3)[12] == 'l' as int;
  }

  /** A kick's bytes say who is kicked by whom, in which mesh and when (for mesh ids of one length);
      and so do those of a leave acknowledgement. */
  lemma KickMaterialInjective(mesh1: Bytes, target1: DeviceId, kicker1: DeviceId, ts1: i64,
                              mesh2: Bytes, target2: DeviceId, kicker2: DeviceId, ts2: i64)
    requires |mesh1| == |mesh2|
    ensures KickMaterial(mesh1, target1, kicker1, ts1) == KickMaterial(mesh2, target2, kicker2, ts2) <==>
      mesh1 == mesh2 && target1 == target2 && kicker1 == kicker2 && ts1 == ts2
    ensures LeaveAckMaterial(mesh1, target1, kicker1, ts1) == LeaveAckMaterial(mesh2, target2, kicker2, ts2) <==>
      mesh1 == mesh2 && target1 == target2 && kicker1 == kicker2 && ts1 == ts2
  {
    if KickMaterial(mesh1, target1, kicker1, ts1) == KickMaterial(mesh2, target2, kicker2, ts2) {
      FiveParts(Ascii("mymesh-kick-v1"), mesh1, target1, kicker1, ts1, mesh2, target2, kicker2, ts2);
    }
    if LeaveAckMaterial(mesh1, target1, kicker1, ts1) == LeaveAckMaterial(mesh2, target2, kicker2, ts2) {
      FiveParts(Ascii("mymesh-kick-leave-v1"), mesh1, target1, kicker1, ts1, mesh2, target2, kicker2, ts2);
    }
  }

  lemma FiveParts(head: Bytes, mesh1: Bytes, target1: DeviceId, kicker1: DeviceId, ts1: i64,
                  mesh2: Bytes, target2: DeviceId, kicker2: DeviceId, ts2: i64)
    requires |mesh1| == |mesh2|
    requires head + mesh1 + target1.bytes + kicker1.bytes + TimestampBytes(ts1)
          == head + mesh2 + target2.bytes + kicker2.bytes + TimestampBytes(ts2)
    ensures mesh1 == mesh2 && target1 == target2 && kicker1 == kicker2 && ts1 == ts2
  {
    SplitEqual(head + mesh1 + target1.bytes + kicker1.bytes, TimestampBytes(ts1),
               head + mesh2 + target2.bytes + kicker2.bytes, TimestampBytes(ts2));
    SplitEqual(head + mesh1 + target1.bytes, kicker1.bytes, head + mesh2 + target2.bytes, kicker2.bytes);
    SplitEqual(head + mesh1, target1.bytes, head + mesh2, target2.bytes);
    SplitEqual(head, mesh1, head, mesh2);
    TimestampBytesInjective(ts1, ts2);
  }

  /** A signature that verifies was made by that signer over those very bytes; so it verifies for
      one signer and one material only, and one for a kick is none for a roster or a leave. */
  lemma SignaturesDoNotCross(a: DeviceId, b: DeviceId, m1: Bytes, m2: Bytes, sig: Signature)
    requires Verify(a, m1, sig)
    ensures sig.signer == a && sig.material == m1
    ensures Verify(b, m2, sig) <==> a == b && m1 == m2
    ensures forall signer, m :: Verify(signer, m, Signature(signer, m))
  {
  }

  /** Ids are printed in lower case. */
  lemma {:induction false} HexIsLower(b: Bytes)
    ensures forall d :: d in Hex(b) ==> '0' as int <= d <= '9' as int || 'a' as int <= d <= 'f' as int
  {
    if b != [] { HexIsLower(b[1..]); }
  }

  // ---- rosters: order does not matter, content does ----

  lemma {:induction false} IdTextsCount(ids: seq<DeviceId>, id: DeviceId)
    ensures multiset(IdTexts(ids))[IdText(id)] == multiset(ids)[id]
  {
    if ids != [] {
      IdTextsCount(ids[1..], id);
      assert ids == [ids[0]] + ids[1..];
      assert IdTexts(ids) == [IdText(ids[0])] + IdTexts(ids[1..]);
      if IdText(ids[0]) == IdText(id) { HexInjective(ids[0].bytes, id.bytes); }
    }
  }

  lemma SameIdsSameTexts(a: seq<DeviceId>, b: seq<DeviceId>)
    ensures multiset(a) == multiset(b) <==> multiset(IdTexts(a)) == multiset(IdTexts(b))
  {
    if multiset(a) == multiset(b) {
      forall t ensures multiset(IdTexts(a))[t] == multiset(IdTexts(b))[t] {
        if t in IdTexts(a) || t in IdTexts(b) {
          var id :| (id in a || id in b) && IdText(id) == t;
          IdTextsCount(a, id);
          IdTextsCount(b, id);
        }
      }
    }
    if multiset(IdTexts(a)) == multiset(IdTexts(b)) {
      forall id ensures multiset(a)[id] == multiset(b)[id] {
        IdTextsCount(a, id);
        IdTextsCount(b, id);
      }
    }
  }

  lemma {:induction false} JoinedInjective(a: seq<Bytes>, b: seq<Bytes>)
    requires forall x :: x in a || x in b ==> |x| == 64
    requires Joined(a) == Joined(b)
    ensures a == b
  {
    if a != [] && b != [] {
      assert a[0] == Joined(a)[..64] && b[0] == Joined(b)[..64];
      assert Joined(a[1..]) == Joined(a)[64..] && Joined(b[1..]) == Joined(b)[64..];
      JoinedInjective(a[1..], b[1..]);
      assert a == [a[0]] + a[1..] && b == [b[0]] + b[1..];
    }
  }

  lemma SortedTextsHaveLength64(ids: seq<DeviceId>)
    ensures forall x :: x in Sort(IdTexts(ids)) ==> |x| == 64
  {
    SortSorts(IdTexts(ids));
    forall x | x in Sort(IdTexts(ids)) ensures |x| == 64 {
      assert x in multiset(Sort(IdTexts(ids)));
      assert x in IdTexts(ids);
    }
  }

  /** With mesh ids of one length, two rosters have the same signed bytes exactly when mesh,
      sender and time agree and the members are the same ids in whatever order. */
  lemma MembershipMaterialIsCanonical(mesh1: Bytes, from1: DeviceId, ts1: i64, ids1: seq<DeviceId>,
                                      mesh2: Bytes, from2: DeviceId, ts2: i64, ids2: seq<DeviceId>)
    requires |mesh1| == |mesh2|
    ensures MembershipMaterial(mesh1, from1, ts1, ids1) == MembershipMaterial(mesh2, from2, ts2, ids2) <==>
      mesh1 == mesh2 && from1 == from2 && ts1 == ts2 && multiset(ids1) == multiset(ids2)
  {
    var m1, m2 := MembershipMaterial(mesh1, from1, ts1, ids1), MembershipMaterial(mesh2, from2, ts2, ids2);
    var t1, t2 := IdTexts(ids1), IdTexts(ids2);
    SortSorts(t1);
    SortSorts(t2);
    SameIdsSameTexts(ids1, ids2);
    if m1 == m2 {
      var h := Ascii("mymesh-membership-v1");
      SplitEqual(h + mesh1 + from1.bytes + TimestampBytes(ts1), Joined(Sort(t1)),
                 h + mesh2 + from2.bytes + TimestampBytes(ts2), Joined(Sort(t2)));
      SplitEqual(h + mesh1 + from1.bytes, TimestampBytes(ts1), h + mesh2 + from2.bytes, TimestampBytes(ts2));
      SplitEqual(h + mesh1, from1.bytes, h + mesh2, from2.bytes);
      SplitEqual(h, mesh1, h, mesh2);
      TimestampBytesInjective(ts1, ts2);
      SortedTextsHaveLength64(ids1);
      SortedTextsHaveLength64(ids2);
      JoinedInjective(Sort(t1), Sort(t2));
    }
    if multiset(ids1) == multiset(ids2) {
      SortedUnique(Sort(t1), Sort(t2));
    }
  }

  lemma SortOne(x: Bytes)
    ensures Sort([x]) == [x] && Sort([]) == []
  {
    var none: seq<Bytes> := [x][1..];
    assert none == [] && Sorting.Sort(none, Itself) == none;
    assert Sorting.Insert(x, none, Itself) == [x] + none;
    assert Sorting.Sort([x], Itself) == Sorting.Insert(x, Sorting.Sort(none, Itself), Itself);
  }

  /** Mesh ids of different lengths can hide one member: the last 64 bytes of the longer id,
      with the new sender and time, are read as the old sender, time and first id. */
  lemma LengthsMatter(mesh: Bytes, from: DeviceId, ts: i64, member: DeviceId, from': DeviceId, ts': i64)
    requires from'.bytes == IdText(member)[24..56] && TimestampBytes(ts') == IdText(member)[56..]
    ensures MembershipMaterial(mesh, from, ts, [member])
         == MembershipMaterial(mesh + from.bytes + TimestampBytes(ts) + IdText(member)[..24], from', ts', [])
  {
    hide IdText, Sort, TimestampBytes, Ascii;
    var t := IdText(member);
    OneText(member);
    SortOne(t);
    assert t == t[..24] + t[24..56] + t[56..];
    Regroup(Ascii("mymesh-membership-v1"), mesh, from.bytes, TimestampBytes(ts), t[..24], t[24..56], t[56..]);
  }

  lemma OneText(member: DeviceId)
    ensures IdTexts([member]) == [IdText(member)] && Joined([IdText(member)]) == IdText(member)
    ensures IdTexts([]) == [] && Joined([]) == []
  {
    assert [IdText(member)][1..] == [];
  }

  lemma Regroup(a: Bytes, b: Bytes, c: Bytes, d: Bytes, e: Bytes, f: Bytes, g: Bytes)
    ensures a + b + c + d + (e + f + g) == a + (b + c + d + e) + f + g + []
  {
  }
}
