/** Resolving a path named by the other side under a root directory. */
module Sandbox {
  import opened Foundations
  import Text

  /** An absolute path, as the names from the top down. */
  type Path = seq<string>

  datatype Component = Normal(name: string) | CurDir | ParentDir | RootDir

  datatype Error = EscapesSandbox

  function ComponentOf(part: string): seq<Component>
  {
    if part == "" then [] else if part == "." then [CurDir] else if part == ".." then [ParentDir] else [Normal(part)]
  }

  function ComponentsOf(parts: seq<string>): seq<Component>
  {
    if parts == [] then [] else ComponentOf(parts[0]) + ComponentsOf(parts[1..])
  }

  /** A remote path read as components: the separator is `/`, and empty parts vanish. */
  function Components(remote: string): seq<Component>
  {
    (if remote != "" && remote[0] == '/' then [RootDir] else []) + ComponentsOf(Text.Split(remote, '/'))
  }

  // ---- what resolving means ----

  /** The names left after each parent step took back the name before it, if there always
      was one. */
  function Reduce(cs: seq<Component>): Option<seq<string>>
  {
    if cs == [] then Some([])
    else
      match Reduce(cs[..|cs| - 1])
      case None => None
      case Some(names) => ReduceOne(names, cs[|cs| - 1])
  }

  function ReduceOne(names: seq<string>, c: Component): Option<seq<string>>
  {
    match c
    case Normal(name) => Some(names + [name])
    case ParentDir => if names == [] then None else Some(names[..|names| - 1])
    case _ => Some(names)
  }

  /** Names less parent steps. */
  function Depth(cs: seq<Component>): int
  {
    if cs == [] then 0 else Depth(cs[..|cs| - 1]) + Rise(cs[|cs| - 1])
  }

  function Rise(c: Component): int
  {
    match c case Normal(_) => 1 case ParentDir => -1 case _ => 0
  }

  ghost predicate NeverAboveStart(cs: seq<Component>)
  {
    forall i :: 0 <= i <= |cs| ==> Depth(cs[..i]) >= 0
  }

  /** Component `i` is a name that no later parent step takes back. */
  ghost predicate Survives(cs: seq<Component>, i: nat)
    requires i < |cs|
  {
    cs[i].Normal? && forall j :: i < j <= |cs| ==> Depth(cs[..j]) > Depth(cs[..i])
  }

  lemma {:induction false} ReducesIff(cs: seq<Component>)
    ensures Reduce(cs).Some? <==> NeverAboveStart(cs)
    ensures Reduce(cs).Some? ==> |Reduce(cs).value| == Depth(cs)
  {
    assert cs[..|cs|] == cs;
    if cs != [] {
      var init := cs[..|cs| - 1];
      ReducesIff(init);
      assert forall i :: 0 <= i <= |init| ==> init[..i] == cs[..i];
      assert NeverAboveStart(cs) <==> NeverAboveStart(init) && Depth(cs) >= 0;
    }
  }

  lemma NothingYet()
    ensures Reduce([]) == Some([]) && Depth([]) == 0
  {
  }

  lemma OneMore(cs: seq<Component>, i: nat)
    requires i < |cs|
    ensures Depth(cs[..i + 1]) == Depth(cs[..i]) + Rise(cs[i])
    ensures Reduce(cs[..i]).Some? ==> Reduce(cs[..i + 1]) == ReduceOne(Reduce(cs[..i]).value, cs[i])
  {
    assert cs[..i + 1][..i] == cs[..i];
  }

  /** A surviving name with `k` names below it. */
  ghost predicate Keeps(cs: seq<Component>, i: int, k: int)
  {
    0 <= i < |cs| && Survives(cs, i) && Depth(cs[..i]) == k
  }

  ghost predicate Kept(cs: seq<Component>, k: int)
  {
    exists i :: Keeps(cs, i, k)
  }

  lemma LastKeptIff(cs: seq<Component>, k: int)
    requires cs != []
    ensures Keeps(cs, |cs| - 1, k) <==> cs[|cs| - 1].Normal? && k == Depth(cs[..|cs| - 1])
  {
    assert cs[..|cs|] == cs;
    OneMore(cs, |cs| - 1);
  }

  lemma StillKept(cs: seq<Component>, i: nat, k: int)
    requires i < |cs| - 1 && Keeps(cs[..|cs| - 1], i, k) && Depth(cs) > k
    ensures Keeps(cs, i, k)
  {
    hide Depth;
    var init := cs[..|cs| - 1];
    assert init[..i] == cs[..i];
    forall j | i < j <= |cs| ensures Depth(cs[..j]) > k {
      if j < |cs| { assert init[..j] == cs[..j]; } else { assert cs[..j] == cs; }
    }
  }

  lemma KeptBefore(cs: seq<Component>, i: nat, k: int)
    requires i < |cs| - 1 && Keeps(cs, i, k)
    ensures Keeps(cs[..|cs| - 1], i, k) && Depth(cs) > k
  {
    hide Depth;
    var init := cs[..|cs| - 1];
    assert cs[..|cs|] == cs && init[..i] == cs[..i];
    forall j | i < j <= |init| ensures Depth(init[..j]) > k {
      assert init[..j] == cs[..j];
    }
  }

  lemma KeepsOneMore(cs: seq<Component>, i: nat, k: int)
    requires i < |cs| - 1
    ensures Keeps(cs, i, k) <==> Keeps(cs[..|cs| - 1], i, k) && Depth(cs) > k
  {
    if Keeps(cs, i, k) { KeptBefore(cs, i, k); }
    if Keeps(cs[..|cs| - 1], i, k) && Depth(cs) > k { StillKept(cs, i, k); }
  }

  lemma KeptBelow(cs: seq<Component>, i: nat, k: int)
    requires Keeps(cs, i, k)
    ensures k < Depth(cs)
  {
    assert cs[..|cs|] == cs;
  }

  /** The names that remain are exactly those of the surviving components, each at the place
      given by how many names are below it: so in the order of the path. */
  lemma {:induction false} ReducedAreSurvivors(cs: seq<Component>)
    requires Reduce(cs).Some?
    ensures forall i, k :: Keeps(cs, i, k) ==> 0 <= k < |Reduce(cs).value| && cs[i] == Normal(Reduce(cs).value[k])
    ensures forall k :: 0 <= k < |Reduce(cs).value| ==> Kept(cs, k)
  {
    hide Depth, Survives;
    if cs != [] {
      var init, n := cs[..|cs| - 1], |cs| - 1;
      var names, left := Reduce(cs).value, Reduce(init).value;
      ReducedAreSurvivors(init);
      ReducesIff(init);
      ReducesIff(cs);
      forall i, k | Keeps(cs, i, k) ensures 0 <= k < |names| && cs[i] == Normal(names[k]) {
        if i < n { KeepsOneMore(cs, i, k); }
        LastKeptIff(cs, k);
        KeptBelow(cs, i, k);
      }
      forall k | 0 <= k < |names| ensures Kept(cs, k) {
        var i := n;
        if k < |left| {
          assert Kept(init, k);
          i :| Keeps(init, i, k);
        }
        if i < n { KeepsOneMore(cs, i, k); }
        LastKeptIff(cs, k);
        assert Keeps(cs, i, k);
      }
    }
  }

  // ---- read off the text ----

  predicate IsName(part: string)
  {
    part != "" && part != "." && part != ".."
  }

  function Ups(parts: seq<string>): nat
  {
    if parts == [] then 0 else Ups(parts[..|parts| - 1]) + if parts[|parts| - 1] == ".." then 1 else 0
  }

  function Downs(parts: seq<string>): nat
  {
    if parts == [] then 0 else Downs(parts[..|parts| - 1]) + if IsName(parts[|parts| - 1]) then 1 else 0
  }

  /** No front of the parts has more parent steps than names. */
  ghost predicate StaysBelow(parts: seq<string>)
  {
    forall i :: 0 <= i <= |parts| ==> Ups(parts[..i]) <= Downs(parts[..i])
  }

  lemma {:induction false} ComponentsSnoc(parts: seq<string>, part: string)
    ensures ComponentsOf(parts + [part]) == ComponentsOf(parts) + ComponentOf(part)
  {
    if parts == [] {
      var one := [part];
      assert [] + [part] == one && one[1..] == [];
      assert ComponentOf(part) + [] == ComponentOf(part);
    } else {
      assert (parts + [part])[1..] == parts[1..] + [part];
      ComponentsSnoc(parts[1..], part);
    }
  }

  lemma ReduceSnoc(cs: seq<Component>, part: string)
    ensures Reduce(cs + ComponentOf(part)) ==
      if ComponentOf(part) == [] || Reduce(cs).None? then Reduce(cs) else ReduceOne(Reduce(cs).value, ComponentOf(part)[0])
  {
    if ComponentOf(part) == [] {
      assert cs + [] == cs;
    } else {
      assert (cs + ComponentOf(part))[..|cs|] == cs;
    }
  }

  lemma StaysBelowSnoc(parts: seq<string>)
    requires parts != []
    ensures StaysBelow(parts) <==> StaysBelow(parts[..|parts| - 1]) && Ups(parts) <= Downs(parts)
  {
    hide Ups, Downs;
    var init := parts[..|parts| - 1];
    assert parts[..|parts|] == parts;
    assert forall i :: 0 <= i <= |init| ==> init[..i] == parts[..i];
  }

  /** What one more part makes of the names so far. */
  lemma OnePart(parts: seq<string>, part: string)
    ensures Reduce(ComponentsOf(parts + [part])) ==
      match Reduce(ComponentsOf(parts))
      case None => None
      case Some(names) =>
        if part == ".." then (if names == [] then None else Some(names[..|names| - 1]))
        else if IsName(part) then Some(names + [part]) else Some(names)
  {
    ComponentsSnoc(parts, part);
    ReduceSnoc(ComponentsOf(parts), part);
    hide Reduce, ComponentsOf;
  }

  lemma Counts(parts: seq<string>)
    requires parts != []
    ensures var part := parts[|parts| - 1];
      Downs(parts) - Ups(parts) == Downs(parts[..|parts| - 1]) - Ups(parts[..|parts| - 1])
        + (if part == ".." then -1 else if IsName(part) then 1 else 0)
  {
  }

  lemma {:induction false} ReducesIffStaysBelow(parts: seq<string>)
    ensures Reduce(ComponentsOf(parts)).Some? <==> StaysBelow(parts)
    ensures Reduce(ComponentsOf(parts)).Some? ==> |Reduce(ComponentsOf(parts)).value| == Downs(parts) - Ups(parts)
  {
    if parts == [] {
      NothingYet();
    } else {
      hide Reduce, ComponentsOf, StaysBelow, Ups, Downs, IsName;
      var init, part := parts[..|parts| - 1], parts[|parts| - 1];
      ReducesIffStaysBelow(init);
      OnePart(init, part);
      StaysBelowSnoc(parts);
      Counts(parts);
      assert parts == init + [part];
    }
  }

  lemma {:induction false} ReducedAreNames(parts: seq<string>)
    requires Reduce(ComponentsOf(parts)).Some?
    ensures forall n :: n in Reduce(ComponentsOf(parts)).value ==> n in parts && IsName(n)
  {
    if parts == [] {
      NothingYet();
    } else {
      hide Reduce, ComponentsOf, IsName, ComponentOf;
      var init, part := parts[..|parts| - 1], parts[|parts| - 1];
      assert parts == init + [part];
      OnePart(init, part);
      ReducedAreNames(init);
      var names, before := Reduce(ComponentsOf(parts)).value, Reduce(ComponentsOf(init)).value;
      forall n | n in names ensures n in parts && IsName(n) {
        if n !in before { assert n == part; }
      }
    }
  }

  /** Read off the text: a remote path resolves exactly when no front of its parts between
      slashes has more parts `..` than names; and what it adds to the root are names from it, none
      of them empty, `.` or `..`, and none with a slash in it. */
  lemma ResolvesIffStaysBelow(root: Path, remote: string)
    ensures Resolved(root, remote).Ok? <==> StaysBelow(Text.Split(remote, '/'))
    ensures Resolved(root, remote).Ok? ==>
      var p := Resolved(root, remote).value; var parts := Text.Split(remote, '/');
      && root <= p && |p| == |root| + Downs(parts) - Ups(parts)
      && forall n :: n in p[|root|..] ==> n in parts && n != "" && n != "." && n != ".." && '/' !in n
  {
    var parts := Text.Split(remote, '/');
    ReducesIffStaysBelow(parts);
    if Reduce(ComponentsOf(parts)).Some? { ReducedAreNames(parts); }
    LeadingRoot(ComponentsOf(parts));
    Text.SplitPartsFree(remote, '/');
    assert [] + ComponentsOf(parts) == ComponentsOf(parts);
    hide Reduce, ComponentsOf;
    if Resolved(root, remote).Ok? {
      var names := Reduce(ComponentsOf(parts)).value;
      assert (root + names)[|root|..] == names;
      forall n | n in names ensures '/' !in n { assert Text.Free(n, '/'); }
    }
  }

  // ---- resolving ----

  function Resolved(root: Path, remote: string): Result<Path, Error>
  {
    match Reduce(Components(remote))
    case Some(names) => Ok(root + names)
    case None => Err(EscapesSandbox)
  }

  predicate Inside(root: Path, p: Path)
  {
    root <= p
  }

  /** Walks the components, pushing names and popping for parents; fails as soon as a pop
      finds nothing to take or leaves the root. */
  method Resolve(root: Path, remote: string) returns (result: Result<Path, Error>)
    ensures result == Resolved(root, remote)
    ensures result.Ok? <==> NeverAboveStart(Components(remote))
    ensures result.Ok? ==> Inside(root, result.value)
    ensures result.Ok? <==> StaysBelow(Text.Split(remote, '/'))
    ensures result.Ok? ==>
      forall n :: n in result.value[|root|..] ==> n != "" && n != "." && n != ".." && '/' !in n
  {
    ResolvesIffStaysBelow(root, remote);
    hide StaysBelow;
    hide Components, Depth, Reduce;
    var cs := Components(remote);
    var out := root;
    ReducesIff(cs);
    assert cs[..0] == [];
    NothingYet();
    for i := 0 to |cs|
      invariant Reduce(cs[..i]).Some? && out == root + Reduce(cs[..i]).value
    {
      OneMore(cs, i);
      ReducesIff(cs[..i]);
      match cs[i] {
        case Normal(name) =>
          out := out + [name];
        case ParentDir =>
          var popped := out != [];
          if popped {
            out := out[..|out| - 1];
          }
          if !popped || !(root <= out) {
            assert Depth(cs[..i + 1]) < 0;
            return Err(EscapesSandbox);
          }
        case CurDir =>
        case RootDir =>
      }
    }
    assert cs[..|cs|] == cs;
    if !(root <= out) {
      return Err(EscapesSandbox);
    }
    return Ok(out);
  }

  // ---- plain paths ----

  ghost predicate PlainName(name: string)
  {
    name != "" && name != "." && name != ".." && Text.Free(name, '/')
  }

  lemma {:induction false} PlainComponents(names: seq<string>)
    requires forall n :: n in names ==> PlainName(n)
    ensures |ComponentsOf(names)| == |names|
    ensures forall i :: 0 <= i < |names| ==> ComponentsOf(names)[i] == Normal(names[i])
    ensures Reduce(ComponentsOf(names)) == Some(names)
  {
    if names != [] {
      assert names[0] in names;
      PlainComponents(names[1..]);
      assert ComponentsOf(names) == [Normal(names[0])] + ComponentsOf(names[1..]);
    }
    hide ComponentsOf, PlainName, Reduce;
    PlainReduce(ComponentsOf(names), names);
  }

  lemma {:induction false} PlainReduce(cs: seq<Component>, names: seq<string>)
    requires |cs| == |names| && forall i :: 0 <= i < |cs| ==> cs[i] == Normal(names[i])
    ensures Reduce(cs) == Some(names)
  {
    if cs != [] {
      PlainReduce(cs[..|cs| - 1], names[..|cs| - 1]);
      assert names == names[..|cs| - 1] + [names[|cs| - 1]];
    }
  }

  /** Every file under the root can be named: its names joined by `/` resolve to it, and so
      does the same path written as if it were absolute. */
  lemma PlainPathResolves(root: Path, names: seq<string>)
    requires names != [] && forall n :: n in names ==> PlainName(n)
    ensures Resolved(root, Text.JoinWith(names, "/")) == Ok(root + names)
    ensures Resolved(root, "/" + Text.JoinWith(names, "/")) == Ok(root + names)
  {
    var remote := Text.JoinWith(names, "/");
    Text.SplitUndoesJoin(names, '/');
    PlainComponents(names);
    assert names[0] in names;
    assert remote[0] == names[0][0];
    assert Components(remote) == ComponentsOf(names);
    assert ("/" + remote)[1..] == remote;
    assert Text.Split("/" + remote, '/') == [""] + names;
    assert ([""] + names)[1..] == names;
    assert Components("/" + remote) == [RootDir] + ComponentsOf(names);
    LeadingRoot(ComponentsOf(names));
  }

  lemma {:induction false} LeadingRoot(cs: seq<Component>)
    ensures Reduce([RootDir] + cs) == Reduce(cs)
  {
    var all := [RootDir] + cs;
    if cs == [] {
      assert all[..0] == [] && all == [RootDir];
    } else {
      LeadingRoot(cs[..|cs| - 1]);
      assert all[..|all| - 1] == [RootDir] + cs[..|cs| - 1];
    }
  }
}
