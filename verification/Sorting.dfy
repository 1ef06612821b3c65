/** Insertion into order by a key that is compared as bytes. */
module Sorting {
  import opened Foundations

  ghost predicate Sorted<T(!new)>(s: seq<T>, key: T -> Bytes)
  {
    forall i, j :: 0 <= i < j < |s| ==> Le(key(s[i]), key(s[j]))
  }

  function Insert<T>(x: T, s: seq<T>, key: T -> Bytes): seq<T>
  {
    if s == [] || Le(key(x), key(s[0])) then [x] + s else [s[0]] + Insert(x, s[1..], key)
  }

  function Sort<T>(s: seq<T>, key: T -> Bytes): seq<T>
  {
    if s == [] then [] else Insert(s[0], Sort(s[1..], key), key)
  }

  lemma {:induction false} InsertContent<T>(x: T, s: seq<T>, key: T -> Bytes)
    ensures multiset(Insert(x, s, key)) == multiset(s) + multiset{x}
  {
    if s != [] && !Le(key(x), key(s[0])) {
      assert s == [s[0]] + s[1..];
      InsertContent(x, s[1..], key);
    }
  }

  /** Something no greater than any element goes first. */
  lemma SortedCons<T(!new)>(x: T, s: seq<T>, key: T -> Bytes)
    requires Sorted(s, key) && forall y :: y in s ==> Le(key(x), key(y))
    ensures Sorted([x] + s, key)
  {
    hide Le;
    var all := [x] + s;
    forall i, j | 0 <= i < j < |all| ensures Le(key(all[i]), key(all[j])) {
      assert all[j] == s[j - 1] && s[j - 1] in s;
      if i > 0 { assert all[i] == s[i - 1]; }
    }
  }

  lemma {:induction false} InsertSorted<T(!new)>(x: T, s: seq<T>, key: T -> Bytes)
    requires Sorted(s, key)
    ensures Sorted(Insert(x, s, key), key)
  {
    hide Le;
    if s == [] || Le(key(x), key(s[0])) {
      forall y | y in s ensures Le(key(x), key(y)) {
        var i :| 0 <= i < |s| && s[i] == y;
        if i > 0 { LeTransitive(key(x), key(s[0]), key(y)); }
      }
      SortedCons(x, s, key);
    } else {
      var rest := Insert(x, s[1..], key);
      InsertSorted(x, s[1..], key);
      InsertContent(x, s[1..], key);
      LeTotal(key(x), key(s[0]));
      forall y | y in rest ensures Le(key(s[0]), key(y)) {
        assert y in multiset(rest);
        if y != x {
          assert y in s[1..];
        }
      }
      SortedCons(s[0], rest, key);
    }
  }

  lemma {:induction false} SortSorts<T(!new)>(s: seq<T>, key: T -> Bytes)
    ensures multiset(Sort(s, key)) == multiset(s) && Sorted(Sort(s, key), key)
  {
    if s != [] {
      assert s == [s[0]] + s[1..];
      SortSorts(s[1..], key);
      InsertContent(s[0], Sort(s[1..], key), key);
      InsertSorted(s[0], Sort(s[1..], key), key);
    }
  }

  lemma LeastFirst<T(!new)>(s: seq<T>, x: T, key: T -> Bytes)
    requires Sorted(s, key) && x in multiset(s)
    ensures Le(key(s[0]), key(x))
  {
    LeReflexive(key(s[0]));
    var i :| 0 <= i < |s| && s[i] == x;
  }
}
