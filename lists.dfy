/** The two list operations the game applies to its word list: Java's
    List.remove(Object), which drops the first equal element, and the
    filter that a batch of such removals amounts to. */
module Lists {

  /** No element occurs twice: the last element is not among the others,
      and neither is any other. */
  ghost predicate Distinct<T>(s: seq<T>)
    decreases |s|
  {
    s == [] || (s[|s| - 1] !in s[..|s| - 1] && Distinct(s[..|s| - 1]))
  }

  /** Two positions of a list without duplicates hold different elements. */
  lemma {:induction false} DistinctApart<T>(s: seq<T>, i: nat, j: nat)
    requires Distinct(s) && i < j < |s|
    ensures s[i] != s[j]
    decreases |s|
  {
    var n := |s| - 1;
    assert s[..n][i] == s[i];
    if j < n {
      assert s[..n][j] == s[j];
      DistinctApart(s[..n], i, j);
    }
  }

  /** The element at position i of a list without duplicates occurs nowhere else. */
  lemma DistinctAt<T>(s: seq<T>, i: nat)
    requires Distinct(s) && i < |s|
    ensures forall j :: 0 <= j < |s| && j != i ==> s[j] != s[i]
  {
    forall j | 0 <= j < |s| && j != i
      ensures s[j] != s[i]
    {
      if j < i { DistinctApart(s, j, i); } else { DistinctApart(s, i, j); }
    }
  }

  /** Appending an element that does not occur yet keeps a list free of duplicates. */
  lemma DistinctSnoc<T>(s: seq<T>, x: T)
    requires Distinct(s) && x !in s
    ensures Distinct(s + [x])
  {
    assert (s + [x])[..|s|] == s;
  }

  /** Position of the first occurrence of x, or |s| when x does not occur. */
  function IndexOf<T(==)>(s: seq<T>, x: T): (k: nat)
    ensures k <= |s|
    ensures k < |s| ==> s[k] == x
    ensures forall j :: 0 <= j < k ==> s[j] != x
  {
    if s == [] then 0
    else if s[0] == x then 0
    else 1 + IndexOf(s[1..], x)
  }

  /** List.remove(Object): cuts out the element at the first occurrence
      of x, keeping everything before and after it in order, and returns
      the list unchanged when x does not occur. */
  function RemoveFirst<T(==)>(s: seq<T>, x: T): (r: seq<T>)
    ensures x !in s ==> r == s
    ensures x in s ==> |r| == |s| - 1
    ensures x in s ==> exists k :: 0 <= k < |s| && s[k] == x && x !in s[..k] && r == s[..k] + s[k + 1..]
  {
    var k := IndexOf(s, x);
    if k == |s| then s else s[..k] + s[k + 1..]
  }

  /** The elements of s that are not in xs, in their original order. */
  function Without<T(==)>(s: seq<T>, xs: set<T>): (r: seq<T>)
    ensures |r| <= |s|
    ensures forall y :: y in r ==> y in s && y !in xs
    decreases |s|
  {
    if s == [] then []
    else
      var n := |s| - 1;
      if s[n] in xs then Without(s[..n], xs) else Without(s[..n], xs) + [s[n]]
  }

  /** Filtering keeps every element that is not filtered out. */
  lemma {:induction false} WithoutKeeps<T>(s: seq<T>, xs: set<T>)
    ensures forall y :: y in s && y !in xs ==> y in Without(s, xs)
    decreases |s|
  {
    if s != [] {
      var n := |s| - 1;
      WithoutKeeps(s[..n], xs);
      assert forall y :: y in s ==> y in s[..n] || y == s[n];
    }
  }

  /** Filtering keeps a list free of duplicates. */
  lemma {:induction false} WithoutDistinct<T>(s: seq<T>, xs: set<T>)
    requires Distinct(s)
    ensures Distinct(Without(s, xs))
    decreases |s|
  {
    if s != [] {
      var n := |s| - 1;
      WithoutDistinct(s[..n], xs);
      if s[n] !in xs {
        DistinctSnoc(Without(s[..n], xs), s[n]);
      }
    }
  }

  /** Filtering out nothing that occurs leaves the list as it was. */
  lemma {:induction false} WithoutNone<T>(s: seq<T>, xs: set<T>)
    requires forall y :: y in s ==> y !in xs
    ensures Without(s, xs) == s
    decreases |s|
  {
    if s != [] {
      var n := |s| - 1;
      WithoutNone(s[..n], xs);
      assert s[..n] + [s[n]] == s;
    }
  }

  /** Two filters in a row are one filter by the union. */
  lemma {:induction false} WithoutTwice<T>(s: seq<T>, xs: set<T>, ys: set<T>)
    ensures Without(Without(s, xs), ys) == Without(s, xs + ys)
    decreases |s|
  {
    if s != [] {
      var n := |s| - 1;
      WithoutTwice(s[..n], xs, ys);
      var front := Without(s[..n], xs);
      if s[n] !in xs {
        var once := front + [s[n]];
        assert Without(s, xs) == once;
        assert once[..|once| - 1] == front && once[|once| - 1] == s[n];
        assert Without(once, ys) == if s[n] in ys then Without(front, ys) else Without(front, ys) + [s[n]];
      }
    }
  }

  /** On a list without duplicates, List.remove(Object) is the filter that
      drops x; removing an absent element is a no-op. */
  lemma {:induction false} RemoveFirstDistinct<T>(s: seq<T>, x: T)
    requires Distinct(s)
    ensures RemoveFirst(s, x) == Without(s, {x})
  {
    if x in s {
      WithoutOne(s, IndexOf(s, x));
    } else {
      WithoutNone(s, {x});
    }
  }

  /** On a list without duplicates, filtering out the element at k cuts out
      exactly position k. */
  lemma {:induction false} WithoutOne<T>(s: seq<T>, k: nat)
    requires Distinct(s) && k < |s|
    ensures Without(s, {s[k]}) == s[..k] + s[k + 1..]
    decreases |s|
  {
    var n := |s| - 1;
    if k == n {
      WithoutNone(s[..n], {s[k]});
      assert s[..k] + s[k + 1..] == s[..n];
    } else {
      DistinctApart(s, k, n);
      assert s[..n][k] == s[k];
      WithoutOne(s[..n], k);
      assert s[..n][..k] == s[..k];
      assert s[..n][k + 1..] + [s[n]] == s[k + 1..];
      assert (s[..k] + s[..n][k + 1..]) + [s[n]] == s[..k] + (s[..n][k + 1..] + [s[n]]);
    }
  }

  /** On a list without duplicates, List.remove of one more element after
      a filter is the filter by one more element. */
  lemma RemoveOneMore<T>(s: seq<T>, xs: set<T>, x: T)
    requires Distinct(s)
    ensures RemoveFirst(Without(s, xs), x) == Without(s, xs + {x})
  {
    WithoutDistinct(s, xs);
    RemoveFirstDistinct(Without(s, xs), x);
    WithoutTwice(s, xs, {x});
  }

  /** The elements of a sequence, collected left to right. */
  ghost function Elems<T>(s: seq<T>): set<T>
  {
    if s == [] then {} else Elems(s[..|s| - 1]) + {s[|s| - 1]}
  }

  /** Elems collects exactly the elements of the sequence. */
  lemma {:induction false} ElemsMembers<T>(s: seq<T>)
    ensures forall x :: x in Elems(s) <==> x in s
  {
    if s != [] {
      var n := |s| - 1;
      ElemsMembers(s[..n]);
      assert s == s[..n] + [s[n]];
    }
  }

  /** One more position of a prefix adds its element. */
  lemma ElemsPrefix<T>(s: seq<T>, j: nat)
    requires j < |s|
    ensures Elems(s[..j + 1]) == Elems(s[..j]) + {s[j]}
  {
    assert s[..j + 1][..j] == s[..j];
  }

  /** Filtering depends only on which elements of the list are filtered. */
  lemma {:induction false} WithoutSame<T>(s: seq<T>, xs: set<T>, ys: set<T>)
    requires forall i :: 0 <= i < |s| ==> (s[i] in xs <==> s[i] in ys)
    ensures Without(s, xs) == Without(s, ys)
    decreases |s|
  {
    if s != [] {
      WithoutSame(s[..|s| - 1], xs, ys);
    }
  }

  /** Filtering by the elements of t is filtering by any set with the
      same members as t. */
  lemma WithoutElems<T>(s: seq<T>, t: seq<T>, xs: set<T>)
    requires forall x :: x in xs <==> x in t
    ensures Without(s, Elems(t)) == Without(s, xs)
  {
    ElemsMembers(t);
    WithoutSame(s, Elems(t), xs);
  }
}
