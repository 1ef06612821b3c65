/** Names for devices: aliases, and looking a device up by what the user typed. */
module Names {
  import opened Foundations
  import opened DeviceStore
  import DeviceIdText
  import Text

  /** Unicode lower case is a parameter; its results hold no ASCII capitals. */
  ghost predicate Lowers(lower: string -> string)
  {
    forall s :: Text.Lower(lower(s)) == lower(s)
  }

  predicate EndsWith(s: string, end: string)
  {
    |end| <= |s| && s[|s| - |end|..] == end
  }

  function Without(s: string, end: string): string
  {
    if EndsWith(s, end) then s[..|s| - |end|] else s
  }

  /** What is looked up: outer space, then one `.mym`, then one dot are taken off. */
  function Host(q: string): string
  {
    Without(Without(Text.Trim(q), ".mym"), ".")
  }

  predicate SameName(a: string, b: string)
  {
    Text.Lower(a) == Text.Lower(b)
  }

  /** Names are the same if they differ in the case of ASCII letters only. */
  lemma SameNameIff(a: string, b: string)
    ensures SameName(a, b) <==> |a| == |b| && forall i :: 0 <= i < |a| ==> SameLetter(a[i], b[i])
  {
    forall i | 0 <= i < |a| && |a| == |b| ensures SameLetter(a[i], b[i]) <==> Text.Lower(a)[i] == Text.Lower(b)[i] {
      Text.LowerIs(a, i);
      Text.LowerIs(b, i);
    }
    if |a| == |b| && forall i :: 0 <= i < |a| ==> SameLetter(a[i], b[i]) {
      assert Text.Lower(a) == Text.Lower(b);
    }
  }

  predicate SameLetter(a: char, b: char)
  {
    a == b || ('a' <= a <= 'z' && a as int - b as int == 32) || ('a' <= b <= 'z' && b as int - a as int == 32)
  }

  predicate Exact(r: DeviceRecord, host: string)
  {
    SameName(r.labelText, host) || exists a :: a in r.aliases && SameName(a, host)
  }

  function ShortId(id: DeviceId): string
  {
    DeviceIdText.IdString(id)[..8]
  }

  predicate Near(r: DeviceRecord, id: DeviceId, lower: string -> string, host: string)
  {
    var l := lower(host);
    l <= lower(r.labelText) || l <= ShortId(id) || exists a :: a in r.aliases && l <= lower(a)
  }

  function ExactHits(d: Devices, host: string): set<DeviceId>
  {
    set id | id in d && Exact(d[id], host)
  }

  function NearHits(d: Devices, lower: string -> string, host: string): set<DeviceId>
  {
    set id | id in d && Near(d[id], id, lower, host)
  }

  datatype Answer = Found(id: DeviceId) | Ambiguous | Missing

  /** The right answer to a query: the one exact match; with none, the one near match. */
  ghost predicate Answers(d: Devices, lower: string -> string, q: string, r: Answer)
  {
    var exact, near := ExactHits(d, Host(q)), NearHits(d, lower, Host(q));
    match r
    case Found(id) => exact == {id} || (exact == {} && near == {id})
    case Ambiguous => |exact| > 1 || (exact == {} && |near| > 1)
    case Missing => exact == {} && near == {}
  }

  lemma OneAnswer(d: Devices, lower: string -> string, q: string, r1: Answer, r2: Answer)
    requires Answers(d, lower, q, r1) && Answers(d, lower, q, r2)
    ensures r1 == r2
  {
    var exact, near := ExactHits(d, Host(q)), NearHits(d, lower, Host(q));
    if r1.Found? && r2.Found? {
      assert r1.id in {r1.id};
      assert exact == {r1.id} ==> r1.id in exact;
      assert near == {r1.id} ==> r1.id in near;
    }
  }

  /** Collects the matches in whatever order the devices come (`order`), so the answer does
      not hang on it. Every device comes once, so no match is listed twice. */
  method ResolveQuery(store: Store, lower: string -> string, q: string, order: seq<DeviceId>) returns (r: Answer)
    requires NoDuplicates(order) && Elements(order) == store.devices.Keys
    ensures Answers(store.devices, lower, q, r)
  {
    hide Exact, Near, Host;
    var host := Host(q);
    var hits: seq<DeviceId> := [];
    for i := 0 to |order|
      invariant NoDuplicates(hits) && (forall x :: x in hits <==> x in order[..i] && Exact(store.devices[x], host))
    {
      assert order[i] in Elements(order);
      if Exact(store.devices[order[i]], host) {
        hits := hits + [order[i]];
      }
    }
    InOrder(order, store.devices);
    assert Elements(hits) == ExactHits(store.devices, host);
    DistinctLength(hits);
    if |hits| == 1 {
      assert Elements(hits) == {hits[0]};
      return Found(hits[0]);
    }
    if |hits| > 1 {
      return Ambiguous;
    }
    for i := 0 to |order|
      invariant NoDuplicates(hits) && (forall x :: x in hits <==> x in order[..i] && Near(store.devices[x], x, lower, host))
    {
      assert order[i] in Elements(order);
      if Near(store.devices[order[i]], order[i], lower, host) {
        hits := hits + [order[i]];
      }
    }
    assert Elements(hits) == NearHits(store.devices, lower, host);
    DistinctLength(hits);
    if |hits| == 1 {
      assert Elements(hits) == {hits[0]};
      return Found(hits[0]);
    }
    r := if |hits| == 0 then Missing else Ambiguous;
  }

  lemma InOrder(order: seq<DeviceId>, d: Devices)
    requires Elements(order) == d.Keys
    ensures order[..|order|] == order
    ensures forall x :: x in order <==> x in d
  {
    assert forall x :: x in order <==> x in Elements(order);
  }

  // ---- aliases ----

  datatype Fault = EmptyAlias | AlreadyUsed | NotFound

  predicate Taken(d: Devices, id: DeviceId, alias: string)
  {
    exists x :: x in d && x != id && (SameName(d[x].labelText, alias) || alias in d[x].aliases)
  }

  function WithAlias(r: DeviceRecord, alias: string): DeviceRecord
  {
    if alias in r.aliases then r else r.(aliases := r.aliases + [alias])
  }

  /** The alias is the device's label, up to case, or one of its aliases. */
  predicate GoesBy(r: DeviceRecord, alias: string)
  {
    Text.Lower(r.labelText) == Text.Lower(alias) || alias in r.aliases
  }

  method AddAlias(store: Store, lower: string -> string, id: DeviceId, text: string) returns (fault: Option<Fault>)
    requires store.Valid()
    modifies store
    ensures store.Valid()
    ensures var d, alias := old(store.devices), lower(Text.Trim(text));
      && fault == (if alias == [] then Some(EmptyAlias) else if Taken(d, id, alias) then Some(AlreadyUsed)
                   else if id !in d then Some(NotFound) else None)
      && store.devices == if fault.Some? then d else d[id := WithAlias(d[id], alias)]
    ensures var d, alias := old(store.devices), lower(Text.Trim(text));
      && (fault == Some(AlreadyUsed) <==> alias != [] && exists x :: x in d && x != id && GoesBy(d[x], alias))
      && (fault.None? ==>
            && alias in store.devices[id].aliases && store.devices - {id} == d - {id}
            && store.devices[id] == d[id].(aliases := store.devices[id].aliases)
            && store.devices[id].aliases == d[id].aliases + (if alias in d[id].aliases then [] else [alias]))
    ensures Lowers(lower) && Distinct(old(store.devices)) ==> Distinct(store.devices)
  {
    ghost var before := store.devices;
    var alias := lower(Text.Trim(text));
    if alias == [] {
      return Some(EmptyAlias);
    }
    if Taken(store.devices, id, alias) {
      return Some(AlreadyUsed);
    }
    if id !in store.devices {
      return Some(NotFound);
    }
    var r := store.devices[id];
    if alias !in r.aliases {
      r := r.(aliases := r.aliases + [alias]);
    }
    store.devices := store.devices[id := r];
    if Lowers(lower) && Distinct(before) {
      AliasesStayDistinct(before, id, alias);
    }
    return None;
  }

  function Dropped(aliases: seq<string>, alias: string): seq<string>
  {
    if aliases == [] then []
    else (if aliases[0] == alias then [] else [aliases[0]]) + Dropped(aliases[1..], alias)
  }

  method RemoveAlias(store: Store, lower: string -> string, id: DeviceId, text: string) returns (found: bool)
    requires store.Valid()
    modifies store
    ensures store.Valid() && found == (id in old(store.devices))
    ensures Distinct(old(store.devices)) ==> Distinct(store.devices)
    ensures var d := old(store.devices);
      store.devices == if found then d[id := d[id].(aliases := Dropped(d[id].aliases, lower(Text.Trim(text))))] else d
  {
    var alias := lower(Text.Trim(text));
    found := id in store.devices;
    if found {
      var r := store.devices[id];
      if Distinct(store.devices) {
        AliasesStayDistinct(store.devices, id, alias);
      }
      store.devices := store.devices[id := r.(aliases := Dropped(r.aliases, alias))];
    }
  }

  // ---- what aliases are for ----

  /** Aliases hold no ASCII capitals, and none is a name of another device. */
  ghost predicate Distinct(d: Devices)
  {
    && (forall x, a :: x in d && a in d[x].aliases ==> Text.Lower(a) == a)
    && (forall x, y, a :: x in d && y in d && x != y && a in d[x].aliases ==>
          a !in d[y].aliases && !SameName(d[y].labelText, a))
  }

  lemma {:induction false} DroppedFrom(aliases: seq<string>, alias: string)
    ensures forall a :: a in Dropped(aliases, alias) <==> a in aliases && a != alias
  {
    if aliases != [] {
      DroppedFrom(aliases[1..], alias);
      assert aliases == [aliases[0]] + aliases[1..];
    }
  }

  lemma AddedStaysDistinct(d: Devices, id: DeviceId, alias: string)
    requires Distinct(d) && Text.Lower(alias) == alias && id in d && !Taken(d, id, alias)
    ensures Distinct(d[id := WithAlias(d[id], alias)])
  {
  }

  lemma DroppedStaysDistinct(d: Devices, id: DeviceId, alias: string)
    requires Distinct(d) && id in d
    ensures Distinct(d[id := d[id].(aliases := Dropped(d[id].aliases, alias))])
  {
    DroppedFrom(d[id].aliases, alias);
    hide Text.Lower;
  }

  /** Adding a free alias, removing one, revoking and removing a device keep names apart. */
  lemma AliasesStayDistinct(d: Devices, id: DeviceId, alias: string)
    requires Distinct(d)
    ensures Text.Lower(alias) == alias && id in d && !Taken(d, id, alias) ==> Distinct(d[id := WithAlias(d[id], alias)])
    ensures id in d ==> Distinct(d[id := d[id].(aliases := Dropped(d[id].aliases, alias))])
    ensures id in d ==> Distinct(d[id := d[id].(trust := Revoked)])
    ensures Distinct(d - {id})
  {
    if id in d {
      DroppedStaysDistinct(d, id, alias);
      RevokedStaysDistinct(d, id);
      if Text.Lower(alias) == alias && !Taken(d, id, alias) { AddedStaysDistinct(d, id, alias); }
    }
    RemovedStaysDistinct(d, id);
    hide Distinct, Taken, WithAlias, Dropped;
  }

  lemma RevokedStaysDistinct(d: Devices, id: DeviceId)
    requires Distinct(d) && id in d
    ensures Distinct(d[id := d[id].(trust := Revoked)])
  {
    hide Text.Lower;
  }

  lemma RemovedStaysDistinct(d: Devices, id: DeviceId)
    requires Distinct(d)
    ensures Distinct(d - {id})
  {
    hide Text.Lower;
  }

  /** Whether anybody but `id` goes by `alias`, as label or alias, in any mix of ASCII case. */
  predicate AlsoNamed(d: Devices, id: DeviceId, alias: string)
  {
    exists x :: x in d && x != id && Exact(d[x], alias)
  }

  lemma SameNameSameExact(r: DeviceRecord, a: string, b: string)
    requires SameName(a, b)
    ensures Exact(r, a) <==> Exact(r, b)
  {
  }

  /** An alias finds its device, in any mix of ASCII case and whatever other names start alike,
      exactly when no other device goes by that name. Labels are never checked, so this is what
      relabelling, by hand or by a roster, can break. */
  lemma AliasFindsItsDeviceIff(d: Devices, lower: string -> string, id: DeviceId, alias: string, q: string)
    requires id in d && alias in d[id].aliases && SameName(Host(q), alias)
    ensures Answers(d, lower, q, Found(id)) <==> !AlsoNamed(d, id, alias)
    ensures AlsoNamed(d, id, alias) ==> Answers(d, lower, q, Ambiguous)
  {
    var host := Host(q);
    var exact := ExactHits(d, host);
    assert Exact(d[id], host) && id in exact;
    forall x | x in d ensures Exact(d[x], host) <==> Exact(d[x], alias) {
      SameNameSameExact(d[x], host, alias);
    }
    if AlsoNamed(d, id, alias) {
      var x :| x in d && x != id && Exact(d[x], alias);
      assert x in exact;
      SubsetSize({id, x}, exact);
    } else {
      assert exact == {id};
    }
  }

  /** While names are kept apart nobody else goes by an alias. */
  lemma DistinctAliasesAreNobodyElses(d: Devices, id: DeviceId, alias: string)
    requires Distinct(d) && id in d && alias in d[id].aliases
    ensures !AlsoNamed(d, id, alias)
  {
    forall x | x in d && x != id ensures !Exact(d[x], alias) {
      assert Text.Lower(alias) == alias;
      assert forall a :: a in d[x].aliases ==> Text.Lower(a) == a;
    }
  }

  /** The text an alias was added under is looked up as that alias exactly when the lookup
      takes no suffix off it (for text whose lower case is plain ASCII lower case). */
  lemma TypedAliasIsLookedUpIff(lower: string -> string, text: string)
    requires Text.Lower(Text.Trim(text)) == lower(Text.Trim(text))
    ensures SameName(Host(text), lower(Text.Trim(text))) <==>
      !EndsWith(Text.Trim(text), ".mym") && !EndsWith(Text.Trim(text), ".")
  {
    var t := Text.Trim(text);
    if EndsWith(t, ".mym") || EndsWith(t, ".") {
      assert |Host(text)| < |t|;
      assert |Text.Lower(Host(text))| < |Text.Lower(t)|;
    }
  }

  /** Some label or alias of the record, lower-cased, starts with `q`. */
  predicate StartsWith(r: DeviceRecord, lower: string -> string, q: string)
  {
    q <= lower(r.labelText) || exists a :: a in r.aliases && q <= lower(a)
  }

  /** The devices a whole id is taken to name: the ones that bear it as a name, or else the ones
      with a name that starts with it. Its being the id of a device plays no part. */
  function TakenFor(d: Devices, lower: string -> string, q: string): set<DeviceId>
  {
    var exact := ExactHits(d, q);
    if exact != {} then exact else set x | x in d && StartsWith(d[x], lower, q)
  }

  /** A whole id is looked up as any other text. Only the first eight digits of ids are compared,
      and a longer query is never the start of them: so it is found nowhere exactly when no name
      is or starts with it, and finds a device exactly when that alone has such a name. */
  lemma WholeIdIsOnlyAName(d: Devices, lower: string -> string, id: DeviceId)
    requires lower(DeviceIdText.IdString(id)) == DeviceIdText.IdString(id)
    ensures var q := DeviceIdText.IdString(id); var taken := TakenFor(d, lower, q);
      && (Answers(d, lower, q, Missing) <==> taken == {})
      && (forall x :: Answers(d, lower, q, Found(x)) <==> taken == {x})
      && (Answers(d, lower, q, Ambiguous) <==> |taken| > 1)
  {
    var q := DeviceIdText.IdString(id);
    WholeIdIsItself(id);
    var exact, near := ExactHits(d, q), NearHits(d, lower, q);
    forall x | x in d ensures Near(d[x], x, lower, q) <==> StartsWith(d[x], lower, q) {
      assert |ShortId(x)| == 8 && |q| == 64;
    }
    assert near == set x | x in d && StartsWith(d[x], lower, q);
    if exact == {} {
      assert forall x: DeviceId :: x in {x};
    }
  }

  lemma WholeIdIsItself(id: DeviceId)
    ensures Host(DeviceIdText.IdString(id)) == DeviceIdText.IdString(id)
  {
    var q := DeviceIdText.IdString(id);
    DeviceIdText.IdSpells(id);
    assert DeviceIdText.IsHex(q[0]) && DeviceIdText.IsHex(q[63]) by { assert q[0] in q && q[63] in q; }
    DeviceIdText.HexIsPlain(q);
    assert q[63] != '.' && q[63] != 'm' by { assert DeviceIdText.IsHex(q[63]); }
    assert q[60..][3] == q[63] && q[63..][0] == q[63];
  }

  /** So in a store whose names are all shorter than an id, no whole id finds anything. */
  lemma WholeIdIsMissing(d: Devices, lower: string -> string, id: DeviceId)
    requires lower(DeviceIdText.IdString(id)) == DeviceIdText.IdString(id)
    requires forall x :: x in d ==> |d[x].labelText| < 64 && |lower(d[x].labelText)| < 64
    requires forall x, a :: x in d && a in d[x].aliases ==> |a| < 64 && |lower(a)| < 64
    ensures Answers(d, lower, DeviceIdText.IdString(id), Missing)
  {
    var q := DeviceIdText.IdString(id);
    WholeIdIsOnlyAName(d, lower, id);
    assert |Text.Lower(q)| == 64;
    forall x | x in d ensures !Exact(d[x], q) && !StartsWith(d[x], lower, q) {
      assert |Text.Lower(d[x].labelText)| < 64;
    }
    assert ExactHits(d, q) == {};
  }

  // ---- short ids and suffixes ----

  /** A name followed by `.mym`, with space around it or not, is looked up as the name itself. */
  lemma SuffixIsDropped(name: string)
    requires name != [] && Text.Trim(name) == name && !EndsWith(name, ".")
    ensures Host(name + ".mym") == name
    ensures !EndsWith(name, ".mym") ==> Host(name) == name && Host(name + ".") == name
  {
    TightEnds(name, ".mym");
    TightEnds(name, ".");
    assert (name + ".mym")[|name|..] == ".mym" && (name + ".mym")[..|name|] == name;
    assert (name + ".")[|name|..] == "." && (name + ".")[..|name|] == name;
    EndsWithLast(name + ".", ".mym");
  }

  lemma EndsWithLast(s: string, tail: string)
    requires s != [] && tail != []
    ensures EndsWith(s, tail) ==> s[|s| - 1] == tail[|tail| - 1]
  {
    if EndsWith(s, tail) {
      assert s[|s| - |tail|..][|tail| - 1] == s[|s| - 1];
    }
  }

  lemma TightEnds(name: string, tail: string)
    requires name != [] && Text.Trim(name) == name && tail != [] && !Text.White(tail[|tail| - 1])
    ensures Text.Trim(name + tail) == name + tail
  {
    var lead, trail := Text.TrimIs(name);
    assert !Text.White(name[0]);
    assert (name + tail)[0] == name[0] && (name + tail)[|name + tail| - 1] == tail[|tail| - 1];
  }

  /** The first digits of an id, up to eight of them, find the device when nothing else is called or
      starts like that. */
  lemma FirstDigitsFind(d: Devices, lower: string -> string, id: DeviceId, k: nat)
    requires id in d && 0 < k <= 8
    requires lower(DeviceIdText.IdString(id)[..k]) == DeviceIdText.IdString(id)[..k]
    ensures var q := DeviceIdText.IdString(id)[..k];
      && Host(q) == q
      && (ExactHits(d, q) == {} && (forall x :: x in d && x != id ==> !Near(d[x], x, lower, q)) ==>
            Answers(d, lower, q, Found(id)))
  {
    var h := DeviceIdText.IdString(id);
    var q := h[..k];
    DeviceIdText.IdSpells(id);
    assert DeviceIdText.IsHex(q[0]) && DeviceIdText.IsHex(q[k - 1]) by { assert q[0] == h[0] && h[0] in h && q[k - 1] == h[k - 1] && h[k - 1] in h; }
    DeviceIdText.HexIsPlain(q);
    assert q[k - 1] != '.' && q[k - 1] != 'm';
    EndsWithLast(q, ".mym");
    EndsWithLast(q, ".");
    assert q <= ShortId(id) by { assert ShortId(id) == h[..8] && h[..8][..k] == q; }
    if ExactHits(d, q) == {} && forall x :: x in d && x != id ==> !Near(d[x], x, lower, q) {
      assert Near(d[id], id, lower, q);
      assert NearHits(d, lower, q) == {id};
    }
  }
}
