/** The stable sort that the node applies to candidates and validators. */
module Sorting {

  function Insert<T>(leq: (T, T) -> bool, x: T, s: seq<T>): (r: seq<T>)
    ensures multiset(r) == multiset{x} + multiset(s)
  {
    if s == [] || leq(x, s[0]) then [x] + s
    else
      assert s == [s[0]] + s[1..];
      [s[0]] + Insert(leq, x, s[1..])
  }

  /** Equal elements keep their order: an element is inserted before those that
      followed it. */
  function Sort<T>(leq: (T, T) -> bool, s: seq<T>): (r: seq<T>)
    ensures multiset(r) == multiset(s)
  {
    if s == [] then []
    else
      assert s == [s[0]] + s[1..];
      Insert(leq, s[0], Sort(leq, s[1..]))
  }

  ghost predicate Sorted<T>(leq: (T, T) -> bool, s: seq<T>) {
    forall i, j :: 0 <= i < j < |s| ==> leq(s[i], s[j])
  }

  ghost predicate TotalPreorder<T(!new)>(leq: (T, T) -> bool) {
    && (forall x, y :: leq(x, y) || leq(y, x))
    && (forall x, y, z :: leq(x, y) && leq(y, z) ==> leq(x, z))
  }

  lemma {:induction false} InsertSorts<T(!new)>(leq: (T, T) -> bool, x: T, s: seq<T>)
    requires TotalPreorder(leq) && Sorted(leq, s)
    ensures Sorted(leq, Insert(leq, x, s))
  {
    if s != [] && !leq(x, s[0]) {
      InsertSorts(leq, x, s[1..]);
      var r := Insert(leq, x, s[1..]);
      forall i | 0 <= i < |r|
        ensures leq(s[0], r[i])
      {
        assert r[i] in multiset(r);
        assert r[i] == x || r[i] in s[1..];
      }
    }
  }

  lemma {:induction false} SortSorts<T(!new)>(leq: (T, T) -> bool, s: seq<T>)
    requires TotalPreorder(leq)
    ensures Sorted(leq, Sort(leq, s))
  {
    if s != [] {
      SortSorts(leq, s[1..]);
      InsertSorts(leq, s[0], Sort(leq, s[1..]));
    }
  }

  /** Elements that the order cannot tell apart are equal, within `s`. */
  ghost predicate Separates<T>(leq: (T, T) -> bool, s: seq<T>) {
    forall x, y :: x in s && y in s && leq(x, y) && leq(y, x) ==> x == y
  }

  /** A sorted permutation is unique when the order separates the elements. */
  lemma {:induction false} SortedIsUnique<T(!new)>(leq: (T, T) -> bool, a: seq<T>, b: seq<T>)
    requires multiset(a) == multiset(b) && Sorted(leq, a) && Sorted(leq, b)
    requires TotalPreorder(leq) && Separates(leq, a)
    ensures a == b
    decreases |a|
  {
    hide TotalPreorder;
    if a == [] {
      assert |multiset(b)| == 0;
    } else {
      var x := a[0];
      assert x in multiset(b);
      var y := b[0];
      assert y in multiset(a);
      HeadIsLeast(leq, a, y);
      HeadIsLeast(leq, b, x);
      assert x == y;
      TailOf(leq, a);
      TailOf(leq, b);
      hide Sorted;
      assert Separates(leq, a[1..]);
      SortedIsUnique(leq, a[1..], b[1..]);
    }
  }

  lemma TailOf<T(!new)>(leq: (T, T) -> bool, s: seq<T>)
    requires s != [] && Sorted(leq, s)
    ensures Sorted(leq, s[1..]) && multiset(s[1..]) == multiset(s) - multiset{s[0]}
    ensures s == [s[0]] + s[1..]
  {
    assert s == [s[0]] + s[1..];
  }

  lemma HeadIsLeast<T(!new)>(leq: (T, T) -> bool, s: seq<T>, z: T)
    requires TotalPreorder(leq) && Sorted(leq, s) && z in s
    ensures leq(s[0], z)
  {
    assert leq(z, z);
  }

  // ---------------------------------------------------------------- stability

  /** The elements that the order cannot tell from `z`, in the order they stand. */
  function Tie<T>(leq: (T, T) -> bool, z: T, s: seq<T>): seq<T> {
    if s == [] then []
    else (if leq(s[0], z) && leq(z, s[0]) then [s[0]] else []) + Tie(leq, z, s[1..])
  }

  lemma {:induction false} InsertIsStable<T(!new)>(leq: (T, T) -> bool, x: T, s: seq<T>, z: T)
    requires TotalPreorder(leq)
    ensures Tie(leq, z, Insert(leq, x, s)) == Tie(leq, z, [x] + s)
  {
    hide TotalPreorder;
    assert ([x] + s)[1..] == s;
    if s != [] && !leq(x, s[0]) {
      NotBothTied(leq, x, s[0], z);
      var rest := Insert(leq, x, s[1..]);
      InsertIsStable(leq, x, s[1..], z);
      assert ([x] + s[1..])[1..] == s[1..];
      assert ([s[0]] + rest)[1..] == rest;
    }
  }

  lemma NotBothTied<T(!new)>(leq: (T, T) -> bool, x: T, y: T, z: T)
    requires TotalPreorder(leq) && !leq(x, y)
    ensures !(leq(x, z) && leq(z, y))
  {
  }

  /** The sort is stable. */
  lemma {:induction false} SortIsStable<T(!new)>(leq: (T, T) -> bool, s: seq<T>, z: T)
    requires TotalPreorder(leq)
    ensures Tie(leq, z, Sort(leq, s)) == Tie(leq, z, s)
  {
    if s != [] {
      var sorted := Sort(leq, s[1..]);
      SortIsStable(leq, s[1..], z);
      InsertIsStable(leq, s[0], sorted, z);
      assert ([s[0]] + sorted)[1..] == sorted;
    }
  }

  lemma {:induction false} TieMember<T(!new)>(leq: (T, T) -> bool, s: seq<T>, z: T)
    requires z in s && leq(z, z)
    ensures z in Tie(leq, z, s)
  {
    if s[0] != z {
      assert z in s[1..];
      TieMember(leq, s[1..], z);
    }
  }

  lemma {:induction false} TieWithin<T(!new)>(leq: (T, T) -> bool, s: seq<T>, z: T, x: T)
    requires x in Tie(leq, z, s)
    ensures x in s && leq(x, z) && leq(z, x)
  {
    if x !in Tie(leq, z, s[1..]) {
      assert x == s[0];
    } else {
      TieWithin(leq, s[1..], z, x);
    }
  }

  /** Two sorted sequences with the same ties are one sequence. */
  lemma {:induction false} SortedByTies<T(!new)>(leq: (T, T) -> bool, a: seq<T>, b: seq<T>)
    requires TotalPreorder(leq) && Sorted(leq, a) && Sorted(leq, b)
    requires SameTies(leq, a, b)
    ensures a == b
    decreases |a|
  {
    hide TotalPreorder, Tie;
    if a == [] {
      if b != [] {
        MissingTie(leq, a, b);
      }
    } else if b == [] {
      MissingTie(leq, b, a);
    } else {
      HeadsAgree(leq, a, b);
      TailOf(leq, a);
      TailOf(leq, b);
      forall z
        ensures Tie(leq, z, a[1..]) == Tie(leq, z, b[1..])
      {
        TieTail(leq, z, a);
        TieTail(leq, z, b);
        var p := if leq(a[0], z) && leq(z, a[0]) then [a[0]] else [];
        assert (p + Tie(leq, z, a[1..]))[|p|..] == Tie(leq, z, a[1..]);
        assert (p + Tie(leq, z, b[1..]))[|p|..] == Tie(leq, z, b[1..]);
      }
      SortedByTies(leq, a[1..], b[1..]);
    }
  }

  lemma MissingTie<T(!new)>(leq: (T, T) -> bool, a: seq<T>, b: seq<T>)
    requires TotalPreorder(leq) && a == [] && b != []
    ensures !SameTies(leq, a, b)
  {
    TieMember(leq, b, b[0]);
    assert b[0] in Tie(leq, b[0], b) && b[0] !in Tie(leq, b[0], a);
  }

  lemma TieTail<T(!new)>(leq: (T, T) -> bool, z: T, s: seq<T>)
    requires s != []
    ensures Tie(leq, z, s) == (if leq(s[0], z) && leq(z, s[0]) then [s[0]] else []) + Tie(leq, z, s[1..])
  {
  }

  lemma HeadsAgree<T(!new)>(leq: (T, T) -> bool, a: seq<T>, b: seq<T>)
    requires TotalPreorder(leq) && Sorted(leq, a) && Sorted(leq, b) && a != [] && b != []
    requires SameTies(leq, a, b)
    ensures a[0] == b[0]
  {
    var (x, y) := (a[0], b[0]);
    assert leq(x, x) && leq(y, y);
    TieMember(leq, a, x);
    TieMember(leq, b, y);
    TieWithin(leq, b, x, x);
    TieWithin(leq, a, y, y);
    HeadIsLeast(leq, a, y);
    HeadIsLeast(leq, b, x);
    TieTail(leq, x, a);
    TieTail(leq, x, b);
    assert Tie(leq, x, a) == Tie(leq, x, b);
    assert Tie(leq, x, a)[0] == x && Tie(leq, x, b)[0] == y;
  }

  /** Elements that the order cannot tell apart stand in the same order in both. */
  ghost predicate SameTies<T(!new)>(leq: (T, T) -> bool, a: seq<T>, b: seq<T>) {
    forall z :: Tie(leq, z, a) == Tie(leq, z, b)
  }

  lemma SortKeepsTies<T(!new)>(leq: (T, T) -> bool, s: seq<T>)
    requires TotalPreorder(leq)
    ensures SameTies(leq, Sort(leq, s), s)
  {
    forall z
      ensures Tie(leq, z, Sort(leq, s)) == Tie(leq, z, s)
    {
      SortIsStable(leq, s, z);
    }
  }

  lemma SameTiesChain<T(!new)>(leq: (T, T) -> bool, a: seq<T>, b: seq<T>, c: seq<T>)
    requires SameTies(leq, a, b) && SameTies(leq, b, c)
    ensures SameTies(leq, a, c) && SameTies(leq, b, a)
  {
    hide Tie;
  }

  /** Sorting two sequences gives one result exactly when they have the same ties. */
  lemma SameSortIff<T(!new)>(leq: (T, T) -> bool, v: seq<T>, w: seq<T>)
    requires TotalPreorder(leq)
    ensures Sort(leq, v) == Sort(leq, w) <==> SameTies(leq, v, w)
  {
    var (a, b) := (Sort(leq, v), Sort(leq, w));
    SortSorts(leq, v);
    SortSorts(leq, w);
    SortKeepsTies(leq, v);
    SortKeepsTies(leq, w);
    hide Sort, SameTies, TotalPreorder;
    if a == b {
      SameTiesChain(leq, a, v, v) by { SelfTies(leq, v); }
      SameTiesChain(leq, v, a, w);
    } else if SameTies(leq, v, w) {
      SelfTies(leq, w);
      SameTiesChain(leq, b, w, w);
      SameTiesChain(leq, a, v, w);
      SameTiesChain(leq, a, w, b);
      SortedByTies(leq, a, b);
    }
  }

  lemma SelfTies<T(!new)>(leq: (T, T) -> bool, s: seq<T>)
    ensures SameTies(leq, s, s)
  {
  }
}
