/** Types shared by the whole model, and the few facts about sequences, sets and
    orders that several components lean on. */
module Foundations {
  type u8 = x: int | 0 <= x < 0x100
  type u32 = x: int | 0 <= x < 0x1_0000_0000
  type Bytes = seq<u8>
  type Key32 = b: Bytes | |b| == 32 witness seq(32, _ => 0)

  /** A device is named by its 32-byte public key. */
  datatype DeviceId = DeviceId(bytes: Key32)

  datatype Option<+T> = None | Some(value: T)
  datatype Result<+T, +E> = Ok(value: T) | Err(error: E)

  function UnwrapOr<T>(o: Option<T>, other: T): T
  {
    if o.Some? then o.value else other
  }

  ghost predicate NoDuplicates<T>(s: seq<T>)
  {
    forall i, j :: 0 <= i < j < |s| ==> s[i] != s[j]
  }

  function Elements<T(==)>(s: seq<T>): set<T>
  {
    set x | x in s
  }

  lemma {:induction false} DistinctLength<T>(s: seq<T>)
    requires NoDuplicates(s)
    ensures |Elements(s)| == |s|
  {
    if s == [] {
      assert Elements(s) == {};
    } else {
      var init := s[..|s| - 1];
      DistinctLength(init);
      assert s == init + [s[|s| - 1]];
      assert Elements(s) == Elements(init) + {s[|s| - 1]};
      assert s[|s| - 1] !in init;
    }
  }

  /** A list that holds each of its elements once has no duplicates. */
  lemma OnceIsDistinct<T>(s: seq<T>)
    requires forall x :: x in s ==> multiset(s)[x] == 1
    ensures NoDuplicates(s)
  {
    forall i, j | 0 <= i < j < |s| ensures s[i] != s[j] {
      assert s == s[..j] + [s[j]] + s[j + 1..];
      assert s[j] in s && multiset(s) == multiset(s[..j]) + multiset{s[j]} + multiset(s[j + 1..]);
      assert multiset(s)[s[j]] == multiset(s[..j])[s[j]] + 1 + multiset(s[j + 1..])[s[j]];
      assert s[j] !in s[..j] && s[i] in s[..j];
    }
  }

  lemma SliceOfSlice<T>(s: seq<T>, low: nat, high: nat, i: nat, j: nat)
    requires low <= high <= |s| && i <= j <= high - low
    ensures s[low..high][i..j] == s[low + i..low + j]
  {
    assert forall k :: i <= k < j ==> s[low..high][k] == s[low + k];
  }

  lemma SplitEqual<T>(a1: seq<T>, b1: seq<T>, a2: seq<T>, b2: seq<T>)
    requires |a1| == |a2| && a1 + b1 == a2 + b2
    ensures a1 == a2 && b1 == b2
  {
    assert a1 == (a1 + b1)[..|a1|] && a2 == (a2 + b2)[..|a2|];
    assert b1 == (a1 + b1)[|a1|..] && b2 == (a2 + b2)[|a2|..];
  }

  lemma SubsetSize<T>(a: set<T>, b: set<T>)
    requires a <= b
    ensures |a| <= |b|
    ensures |a| == |b| ==> a == b
    ensures |b - a| == |b| - |a|
  {
    assert b == a + (b - a);
  }

  /** Comparing two sets' sizes is comparing what each has and the other has not. */
  lemma SizesByDifference<T>(a: set<T>, b: set<T>)
    ensures |a| - |b| == |a - b| - |b - a|
  {
    SubsetSize(a * b, a);
    SubsetSize(a * b, b);
    assert a - (a * b) == a - b && b - (a * b) == b - a;
  }

  /** Every finite set can be listed. */
  lemma {:induction false} ListOf<T>(all: set<T>) returns (s: seq<T>)
    ensures NoDuplicates(s) && Elements(s) == all
  {
    if all == {} {
      s := [];
    } else {
      var x :| x in all;
      var rest := ListOf(all - {x});
      s := rest + [x];
      assert x !in Elements(rest);
      assert Elements(s) == Elements(rest) + {x};
    }
  }

  // ---- sums over a list of names ----

  ghost function Sum<T(!new)>(names: seq<T>, f: T -> int): int
  {
    if names == [] then 0 else f(names[0]) + Sum(names[1..], f)
  }

  /** Two weightings that differ at one name only have sums that differ by just that much. */
  lemma {:induction false} SumChangesAt<T(!new)>(names: seq<T>, f: T -> int, g: T -> int, at: T)
    requires NoDuplicates(names)
    requires forall x :: x in names && x != at ==> f(x) == g(x)
    ensures Sum(names, g) - Sum(names, f) == if at in names then g(at) - f(at) else 0
  {
    if names != [] {
      SumChangesAt(names[1..], f, g, at);
    }
  }

  lemma {:induction false} SumBounded<T(!new)>(names: seq<T>, f: T -> int, bound: int)
    requires forall x :: x in names ==> 0 <= f(x) <= bound
    ensures 0 <= Sum(names, f) <= |names| * bound
  {
    if names != [] {
      SumBounded(names[1..], f, bound);
      assert |names| * bound == bound + |names[1..]| * bound;
    }
  }

  // ---- lexicographic order on byte strings (Rust's order on str and Vec<u8>) ----

  predicate Le(a: Bytes, b: Bytes)
  {
    a == [] || (b != [] && (a[0] < b[0] || (a[0] == b[0] && Le(a[1..], b[1..]))))
  }

  lemma {:induction false} LeReflexive(a: Bytes)
    ensures Le(a, a)
  {
    if a != [] { LeReflexive(a[1..]); }
  }

  lemma {:induction false} LeTotal(a: Bytes, b: Bytes)
    ensures Le(a, b) || Le(b, a)
  {
    if a != [] && b != [] { LeTotal(a[1..], b[1..]); }
  }

  lemma {:induction false} LeAntisymmetric(a: Bytes, b: Bytes)
    requires Le(a, b) && Le(b, a)
    ensures a == b
  {
    if a != [] {
      LeAntisymmetric(a[1..], b[1..]);
      assert a == [a[0]] + a[1..] && b == [b[0]] + b[1..];
    }
  }

  lemma {:induction false} LeTransitive(a: Bytes, b: Bytes, c: Bytes)
    requires Le(a, b) && Le(b, c)
    ensures Le(a, c)
  {
    if a != [] && a[0] == b[0] && b[0] == c[0] { LeTransitive(a[1..], b[1..], c[1..]); }
  }
}
