/** In-place sorting under a three-way comparison, and why the outcome does not
    depend on the order the input arrives in when only equal elements tie. */
module Sorting {
  ghost predicate Comparison<T(!new)>(rank: (T, T) -> int) {
    && (forall a, b :: rank(b, a) == -rank(a, b))
    && (forall a, b, c :: rank(a, b) <= 0 && rank(b, c) <= 0 ==> rank(a, c) <= 0)
  }

  ghost predicate Ordered<T>(rank: (T, T) -> int, s: seq<T>) {
    forall i, j :: 0 <= i < j < |s| ==> rank(s[i], s[j]) <= 0
  }

  ghost predicate OnlyEqualsTie<T>(rank: (T, T) -> int, s: seq<T>) {
    forall a, b :: a in s && b in s && rank(a, b) == 0 ==> a == b
  }

  function Insert<T>(rank: (T, T) -> int, x: T, s: seq<T>): (r: seq<T>)
    ensures multiset(r) == multiset(s) + multiset{x}
  {
    var last := |s| - 1;
    if s == [] then [x]
    else if rank(x, s[last]) < 0 then
      assert s == s[..last] + [s[last]];
      Insert(rank, x, s[..last]) + [s[last]]
    else s + [x]
  }

  /** The reference sort. */
  function Sort<T>(rank: (T, T) -> int, s: seq<T>): (r: seq<T>)
    ensures multiset(r) == multiset(s)
  {
    if s == [] then []
    else
      assert s == s[..|s| - 1] + [s[|s| - 1]];
      Insert(rank, s[|s| - 1], Sort(rank, s[..|s| - 1]))
  }

  lemma SameElements<T>(s: seq<T>, t: seq<T>)
    requires multiset(s) == multiset(t)
    ensures |s| == |t|
    ensures forall a :: a in s <==> a in t
  {
    assert |s| == |multiset(s)| && |t| == |multiset(t)|;
    forall a ensures a in s <==> a in t {
      assert a in s <==> a in multiset(s);
      assert a in t <==> a in multiset(t);
    }
  }

  lemma {:induction false} InsertKeepsOrder<T(!new)>(rank: (T, T) -> int, x: T, s: seq<T>)
    requires Comparison(rank) && Ordered(rank, s)
    ensures Ordered(rank, Insert(rank, x, s))
  {
    var last := |s| - 1;
    if s == [] {
    } else if rank(x, s[last]) < 0 {
      var front := s[..last];
      var t := Insert(rank, x, front);
      assert Ordered(rank, front);
      InsertKeepsOrder(rank, x, front);
      forall i | 0 <= i < |t| ensures rank(t[i], s[last]) <= 0 {
        InsertedFrom(rank, x, front, i);
      }
      hide Insert, Comparison;
      OrderedSnoc(rank, t, s[last]);
    } else {
      assert rank(s[last], x) <= 0;
      hide Insert;
      forall i | 0 <= i < |s| ensures rank(s[i], x) <= 0 {
        assert i < last ==> rank(s[i], s[last]) <= 0;
      }
      OrderedSnoc(rank, s, x);
    }
  }

  lemma InsertedFrom<T(!new)>(rank: (T, T) -> int, x: T, s: seq<T>, i: nat)
    requires i < |Insert(rank, x, s)|
    ensures Insert(rank, x, s)[i] == x || Insert(rank, x, s)[i] in s
  {
    var t := Insert(rank, x, s);
    hide Insert;
    assert t[i] in multiset(t);
    assert t[i] in multiset(s) || t[i] == x;
  }

  lemma OrderedSnoc<T(!new)>(rank: (T, T) -> int, s: seq<T>, x: T)
    requires Ordered(rank, s) && forall i :: 0 <= i < |s| ==> rank(s[i], x) <= 0
    ensures Ordered(rank, s + [x])
  {
  }

  lemma {:induction false} SortIsOrdered<T(!new)>(rank: (T, T) -> int, s: seq<T>)
    requires Comparison(rank)
    ensures Ordered(rank, Sort(rank, s))
  {
    if s != [] {
      SortIsOrdered(rank, s[..|s| - 1]);
      InsertKeepsOrder(rank, s[|s| - 1], Sort(rank, s[..|s| - 1]));
    }
  }

  lemma HeadsAgree<T(!new)>(rank: (T, T) -> int, s: seq<T>, t: seq<T>)
    requires Comparison(rank) && OnlyEqualsTie(rank, s) && s != [] && t != []
    requires t[0] in s && s[0] in t
    requires Ordered(rank, s) && Ordered(rank, t)
    ensures s[0] == t[0]
  {
    var i :| 0 <= i < |s| && s[i] == t[0];
    var j :| 0 <= j < |t| && t[j] == s[0];
    assert rank(s[0], s[i]) <= 0 || i == 0;
    assert rank(t[0], t[j]) <= 0 || j == 0;
    assert rank(s[0], s[0]) == -rank(s[0], s[0]);
  }

  lemma TailsAgree<T>(s: seq<T>, t: seq<T>)
    requires s != [] && t != [] && s[0] == t[0] && multiset(s) == multiset(t)
    ensures multiset(s[1..]) == multiset(t[1..])
  {
    assert s == [s[0]] + s[1..] && t == [t[0]] + t[1..];
    assert multiset(s[1..]) == multiset(s) - multiset{s[0]};
    assert multiset(t[1..]) == multiset(t) - multiset{t[0]};
  }

  lemma TailOrdered<T(!new)>(rank: (T, T) -> int, s: seq<T>)
    requires s != [] && Ordered(rank, s) && OnlyEqualsTie(rank, s)
    ensures Ordered(rank, s[1..]) && OnlyEqualsTie(rank, s[1..])
  {
    assert forall a :: a in s[1..] ==> a in s;
  }

  lemma TiesTransfer<T(!new)>(rank: (T, T) -> int, s: seq<T>, t: seq<T>)
    requires multiset(s) == multiset(t) && OnlyEqualsTie(rank, s)
    ensures OnlyEqualsTie(rank, t) && (s == [] <==> t == [])
    ensures s != [] ==> t[0] in s && s[0] in t
  {
    SameElements(s, t);
    assert s != [] ==> s[0] in s && t[0] in t;
  }

  lemma HeadAndTail<T>(s: seq<T>)
    requires s != []
    ensures s == [s[0]] + s[1..]
  {
  }

  /** Two ordered permutations of the same elements are equal. */
  lemma {:induction false} OrderedPermutationIsUnique<T(!new)>(rank: (T, T) -> int, s: seq<T>, t: seq<T>)
    requires Comparison(rank) && multiset(s) == multiset(t) && OnlyEqualsTie(rank, s)
    requires Ordered(rank, s) && Ordered(rank, t)
    ensures s == t
  {
    hide *;
    TiesTransfer(rank, s, t);
    if s != [] {
      HeadsAgree(rank, s, t);
      TailsAgree(s, t);
      TailOrdered(rank, s);
      TailOrdered(rank, t);
      OrderedPermutationIsUnique(rank, s[1..], t[1..]);
      HeadAndTail(s);
      HeadAndTail(t);
    }
  }

  /** Sorting forgets the order its input came in. */
  lemma SortIgnoresInputOrder<T(!new)>(rank: (T, T) -> int, s: seq<T>, t: seq<T>)
    requires Comparison(rank) && multiset(s) == multiset(t) && OnlyEqualsTie(rank, s)
    ensures Sort(rank, s) == Sort(rank, t)
  {
    SortIsOrdered(rank, s);
    SortIsOrdered(rank, t);
    SameElements(s, Sort(rank, s));
    OrderedPermutationIsUnique(rank, Sort(rank, s), Sort(rank, t));
  }

  lemma HeadIsLeast<T(!new)>(rank: (T, T) -> int, s: seq<T>)
    requires Comparison(rank) && s != []
    ensures |Sort(rank, s)| == |s| && Sort(rank, s)[0] in s
    ensures forall a :: a in s ==> rank(Sort(rank, s)[0], a) <= 0
  {
    var q := Sort(rank, s);
    SameElements(s, q);
    SortIsOrdered(rank, s);
    assert q[0] in q;
    forall a | a in s ensures rank(q[0], a) <= 0 {
      var i :| 0 <= i < |q| && q[i] == a;
      assert rank(q[0], q[0]) == -rank(q[0], q[0]);
    }
  }

  lemma TailBag<T>(s: seq<T>)
    requires s != []
    ensures multiset(s[1..]) == multiset(s) - multiset{s[0]}
  {
    assert s == [s[0]] + s[1..];
  }

  /** Taking the head away leaves the rest of the order as it was. */
  lemma SortOfRest<T(!new)>(rank: (T, T) -> int, s: seq<T>, t: seq<T>)
    requires Comparison(rank) && OnlyEqualsTie(rank, s) && s != []
    requires |Sort(rank, s)| == |s| && multiset(t) == multiset(s) - multiset{Sort(rank, s)[0]}
    ensures Sort(rank, t) == Sort(rank, s)[1..]
  {
    var q := Sort(rank, s);
    TailBag(q);
    SameElements(s, q);
    SortIsOrdered(rank, s);
    SortIsOrdered(rank, t);
    TailOrdered(rank, q);
    OrderedPermutationIsUnique(rank, q[1..], Sort(rank, t));
  }

  /** Sorts in place. The library's sort is not part of this model; straight
      insertion stands in for it. What a library promises is that the result is an
      ordered arrangement of the old contents; where only equal elements tie there
      is no other one. */
  method SortInPlace<T(!new)>(a: array<T>, rank: (T, T) -> int)
    modifies a
    ensures a[..] == Sort(rank, old(a[..]))
    ensures multiset(a[..]) == multiset(old(a[..]))
    ensures Comparison(rank) ==> Ordered(rank, a[..])
  {
    ghost var before := a[..];
    var i := 0;
    while i < a.Length
      invariant 0 <= i <= a.Length
      invariant a[..i] == Sort(rank, before[..i])
      invariant forall k :: i <= k < a.Length ==> a[k] == before[k]
    {
      ghost var sorted := a[..i];
      Sift(a, rank, i);
      SortStep(rank, before, i, sorted);
      i := i + 1;
    }
    assert a[..i] == a[..] && before[..i] == before;
    if Comparison(rank) {
      SortIsOrdered(rank, before);
    }
  }

  lemma SortStep<T>(rank: (T, T) -> int, s: seq<T>, i: nat, sorted: seq<T>)
    requires i < |s| && sorted == Sort(rank, s[..i])
    ensures Insert(rank, s[i], sorted) == Sort(rank, s[..i + 1])
  {
    assert s[..i + 1][..i] == s[..i];
  }

  /** Insertion lands right after the last element that is not larger. */
  lemma {:induction false} InsertAt<T>(rank: (T, T) -> int, x: T, s: seq<T>, j: nat)
    requires j <= |s| && forall k :: j <= k < |s| ==> rank(x, s[k]) < 0
    requires j > 0 ==> rank(x, s[j - 1]) >= 0
    ensures Insert(rank, x, s) == s[..j] + [x] + s[j..]
  {
    if j < |s| {
      InsertAt(rank, x, s[..|s| - 1], j);
    }
  }

  /** Moves element i down past every larger element right before it. */
  method Sift<T>(a: array<T>, rank: (T, T) -> int, i: nat)
    requires i < a.Length
    modifies a
    ensures a[..i + 1] == Insert(rank, old(a[i]), old(a[..i]))
    ensures forall k :: i < k < a.Length ==> a[k] == old(a[k])
  {
    hide Insert;
    ghost var x, prefix := a[i], a[..i];
    var j := i;
    while j > 0 && rank(a[j], a[j - 1]) < 0
      invariant 0 <= j <= i
      invariant forall k :: 0 <= k < j ==> a[k] == prefix[k]
      invariant a[j] == x
      invariant forall k :: j < k <= i ==> a[k] == prefix[k - 1]
      invariant forall k :: i < k < a.Length ==> a[k] == old(a[k])
      invariant forall k :: j <= k < i ==> rank(x, prefix[k]) < 0
    {
      a[j], a[j - 1] := a[j - 1], a[j];
      j := j - 1;
    }
    assert a[..i + 1] == prefix[..j] + [x] + prefix[j..] by {
      forall k | 0 <= k <= i ensures a[k] == (prefix[..j] + [x] + prefix[j..])[k] {
      }
    }
    InsertAt(rank, x, prefix, j);
  }
}
