/** Stable sorting by a total preorder, as the program's library sorts behave:
  * the result is sorted, and elements that compare equal keep their order.
  * Those two facts determine the result (`StableSortUnique`).
  */
module Sorting {

  ghost predicate TotalPreorder<T(!new)>(leq: (T, T) -> bool) {
    && (forall x, y :: leq(x, y) || leq(y, x))
    && (forall x, y, z :: leq(x, y) && leq(y, z) ==> leq(x, z))
  }

  ghost predicate Antisymmetric<T(!new)>(leq: (T, T) -> bool) {
    forall x, y :: leq(x, y) && leq(y, x) ==> x == y
  }

  predicate Sorted<T>(s: seq<T>, leq: (T, T) -> bool) {
    forall i, j :: 0 <= i < j < |s| ==> leq(s[i], s[j])
  }

  function Insert<T>(x: T, s: seq<T>, leq: (T, T) -> bool): seq<T> {
    if s == [] then [x]
    else if leq(x, s[0]) then [x] + s
    else [s[0]] + Insert(x, s[1..], leq)
  }

  function Sort<T>(s: seq<T>, leq: (T, T) -> bool): seq<T> {
    if s == [] then [] else Insert(s[0], Sort(s[1..], leq), leq)
  }

  /** `y`, if it compares equal to `x`. */
  function Tie<T>(y: T, x: T, leq: (T, T) -> bool): seq<T> {
    if leq(x, y) && leq(y, x) then [y] else []
  }

  /** The elements of `s` that compare equal to `x`, in their order. */
  function Tied<T>(s: seq<T>, x: T, leq: (T, T) -> bool): seq<T> {
    if s == [] then [] else Tie(s[0], x, leq) + Tied(s[1..], x, leq)
  }

  lemma {:induction false} InsertPermutes<T>(x: T, s: seq<T>, leq: (T, T) -> bool)
    ensures multiset(Insert(x, s, leq)) == multiset{x} + multiset(s)
  {
    if s != [] {
      assert s == [s[0]] + s[1..];
      if !leq(x, s[0]) {
        InsertPermutes(x, s[1..], leq);
      }
    }
  }

  lemma {:induction false} SortPermutes<T>(s: seq<T>, leq: (T, T) -> bool)
    ensures multiset(Sort(s, leq)) == multiset(s)
  {
    if s != [] {
      assert s == [s[0]] + s[1..];
      SortPermutes(s[1..], leq);
      InsertPermutes(s[0], Sort(s[1..], leq), leq);
    }
  }

  lemma SameMembers<T>(s: seq<T>, t: seq<T>)
    requires multiset(s) == multiset(t)
    ensures forall x :: x in s <==> x in t
    ensures |s| == |t|
  {
    assert |multiset(s)| == |s| && |multiset(t)| == |t|;
    assert forall x :: x in s <==> x in multiset(s);
    assert forall x :: x in t <==> x in multiset(t);
  }

  lemma {:induction false} InsertSorted<T(!new)>(x: T, s: seq<T>, leq: (T, T) -> bool)
    requires TotalPreorder(leq) && Sorted(s, leq)
    ensures Sorted(Insert(x, s, leq), leq)
  {
    if s != [] && !leq(x, s[0]) {
      var rest := Insert(x, s[1..], leq);
      InsertSorted(x, s[1..], leq);
      InsertPermutes(x, s[1..], leq);
      forall y | y in rest ensures leq(s[0], y) {
        assert y in multiset(rest);
        assert y == x || y in s[1..];
        if y in s[1..] {
          var k :| 0 <= k < |s[1..]| && s[1..][k] == y;
          assert y == s[k + 1];
        }
      }
    } else if s != [] {
      forall k | 0 <= k < |s| ensures leq(x, s[k]) {
        assert leq(s[0], s[k]);
      }
    }
  }

  lemma {:induction false} SortSorted<T(!new)>(s: seq<T>, leq: (T, T) -> bool)
    requires TotalPreorder(leq)
    ensures Sorted(Sort(s, leq), leq)
  {
    if s != [] {
      SortSorted(s[1..], leq);
      InsertSorted(s[0], Sort(s[1..], leq), leq);
    }
  }

  /** Two elements in strict order are not both equal to a third. */
  lemma NotBothTied<T(!new)>(x: T, y: T, leq: (T, T) -> bool, v: T)
    requires TotalPreorder(leq) && !leq(x, y)
    ensures Tie(x, v, leq) == [] || Tie(y, v, leq) == []
  {
  }

  lemma TiedCons<T>(x: T, s: seq<T>, leq: (T, T) -> bool, v: T)
    ensures Tied([x] + s, v, leq) == Tie(x, v, leq) + Tied(s, v, leq)
  {
    assert ([x] + s)[1..] == s;
  }

  lemma {:induction false} InsertTied<T(!new)>(x: T, s: seq<T>, leq: (T, T) -> bool, v: T)
    requires TotalPreorder(leq)
    ensures Tied(Insert(x, s, leq), v, leq) == Tie(x, v, leq) + Tied(s, v, leq)
  {
    hide TotalPreorder;
    hide Tie;
    TiedCons(x, s, leq, v);
    if s != [] && !leq(x, s[0]) {
      NotBothTied(x, s[0], leq, v);
      InsertTied(x, s[1..], leq, v);
      TiedCons(s[0], Insert(x, s[1..], leq), leq, v);
      assert Tie(s[0], v, leq) + (Tie(x, v, leq) + Tied(s[1..], v, leq))
          == Tie(x, v, leq) + (Tie(s[0], v, leq) + Tied(s[1..], v, leq));
    }
  }

  /** The sort is stable: every class of equal elements keeps its order. */
  lemma {:induction false} SortTied<T(!new)>(s: seq<T>, leq: (T, T) -> bool, v: T)
    requires TotalPreorder(leq)
    ensures Tied(Sort(s, leq), v, leq) == Tied(s, v, leq)
  {
    if s != [] {
      SortTied(s[1..], leq, v);
      InsertTied(s[0], Sort(s[1..], leq), leq, v);
    }
  }

  lemma {:induction false} TiedMember<T>(s: seq<T>, v: T, leq: (T, T) -> bool, x: T)
    ensures x in Tied(s, v, leq) <==> x in s && leq(v, x) && leq(x, v)
  {
    if s != [] {
      TiedMember(s[1..], v, leq, x);
      assert s == [s[0]] + s[1..];
    }
  }

  /** A sorted sequence is determined by its classes of equal elements. */
  lemma {:induction false} StableSortUnique<T(!new)>(s: seq<T>, t: seq<T>, leq: (T, T) -> bool)
    requires TotalPreorder(leq) && Sorted(s, leq) && Sorted(t, leq)
    requires forall v :: Tied(s, v, leq) == Tied(t, v, leq)
    ensures s == t
  {
    if s != [] {
      TiedMember(s, s[0], leq, s[0]);
      assert Tied(s, s[0], leq) == Tied(t, s[0], leq);
      TiedMember(t, s[0], leq, s[0]);
      TiedMember(t, t[0], leq, t[0]);
      assert Tied(s, t[0], leq) == Tied(t, t[0], leq);
      TiedMember(s, t[0], leq, t[0]);
      assert leq(t[0], s[0]) && leq(s[0], t[0]);
      assert Tied(s, s[0], leq)[0] == s[0];
      assert Tied(t, s[0], leq)[0] == t[0];
      forall v ensures Tied(s[1..], v, leq) == Tied(t[1..], v, leq) {
        assert Tied(s, v, leq) == Tied(t, v, leq);
        var keep := Tie(s[0], v, leq);
        assert keep + Tied(s[1..], v, leq) == keep + Tied(t[1..], v, leq);
        assert Tied(s[1..], v, leq) == (keep + Tied(s[1..], v, leq))[|keep|..];
        assert Tied(t[1..], v, leq) == (keep + Tied(t[1..], v, leq))[|keep|..];
      }
      StableSortUnique(s[1..], t[1..], leq);
      assert s == [s[0]] + s[1..] && t == [t[0]] + t[1..];
    }
  }

  lemma SameTail<T>(s: seq<T>, t: seq<T>)
    requires s != [] && t != [] && s[0] == t[0] && multiset(s) == multiset(t)
    ensures multiset(s[1..]) == multiset(t[1..])
  {
    assert s == [s[0]] + s[1..] && t == [t[0]] + t[1..];
    assert multiset(s[1..]) == multiset(s) - multiset{s[0]};
    assert multiset(t[1..]) == multiset(t) - multiset{t[0]};
  }

  /** When equal elements are identical, the members alone determine the sorted sequence. */
  lemma {:induction false} SortedPermutationUnique<T(!new)>(s: seq<T>, t: seq<T>, leq: (T, T) -> bool)
    requires TotalPreorder(leq) && Antisymmetric(leq) && Sorted(s, leq) && Sorted(t, leq)
    requires multiset(s) == multiset(t)
    ensures s == t
  {
    SameMembers(s, t);
    if s != [] {
      assert s[0] in t && t[0] in s;
      assert leq(s[0], t[0]) && leq(t[0], s[0]);
      SameTail(s, t);
      SortedPermutationUnique(s[1..], t[1..], leq);
      assert s == [s[0]] + s[1..] && t == [t[0]] + t[1..];
    }
  }

  // ---------------------------------------------------------------- ties keep an earlier order

  lemma {:induction false} TiedPlace<T>(s: seq<T>, v: T, leq: (T, T) -> bool, i: nat) returns (a: nat)
    requires i < |s| && leq(v, s[i]) && leq(s[i], v)
    ensures a < |Tied(s, v, leq)| && Tied(s, v, leq)[a] == s[i]
    decreases |s|
  {
    a := 0;
    if i > 0 {
      a := TiedPlace(s[1..], v, leq, i - 1);
      a := a + |Tie(s[0], v, leq)|;
    }
  }

  /** Elements that tie stand among all that tie in the order they stand in. */
  lemma {:induction false} TiedPlaces<T>(s: seq<T>, v: T, leq: (T, T) -> bool, i: nat, j: nat) returns (a: nat, b: nat)
    requires i < j < |s| && leq(v, s[i]) && leq(s[i], v) && leq(v, s[j]) && leq(s[j], v)
    ensures a < b < |Tied(s, v, leq)| && Tied(s, v, leq)[a] == s[i] && Tied(s, v, leq)[b] == s[j]
    decreases |s|
  {
    if i > 0 {
      a, b := TiedPlaces(s[1..], v, leq, i - 1, j - 1);
      a, b := a + |Tie(s[0], v, leq)|, b + |Tie(s[0], v, leq)|;
    } else {
      a := 0;
      b := TiedPlace(s[1..], v, leq, j - 1);
      b := b + 1;
    }
  }

  lemma {:induction false} TiedSorted<T>(s: seq<T>, v: T, leq: (T, T) -> bool, fine: (T, T) -> bool)
    requires Sorted(s, fine)
    ensures Sorted(Tied(s, v, leq), fine)
  {
    if s != [] {
      TiedSorted(s[1..], v, leq, fine);
      var rest := Tied(s[1..], v, leq);
      forall i | 0 <= i < |rest| ensures fine(s[0], rest[i]) {
        assert rest[i] in rest;
        TiedMember(s[1..], v, leq, rest[i]);
        var k :| 0 <= k < |s[1..]| && s[1..][k] == rest[i];
        assert s[k + 1] == rest[i];
      }
    }
  }

  /** Sorting a list that was sorted more finely leaves ties in that finer order. */
  lemma {:induction false} SortKeepsOrder<T(!new)>(s: seq<T>, leq: (T, T) -> bool, fine: (T, T) -> bool, i: nat, j: nat)
    requires TotalPreorder(leq) && Sorted(s, fine) && i < j < |Sort(s, leq)|
    requires leq(Sort(s, leq)[j], Sort(s, leq)[i])
    ensures fine(Sort(s, leq)[i], Sort(s, leq)[j])
  {
    var t := Sort(s, leq);
    SortSorted(s, leq);
    SortTied(s, leq, t[i]);
    TiedSorted(s, t[i], leq, fine);
    assert leq(t[i], t[j]) && leq(t[i], t[i]);
    var a, b := TiedPlaces(t, t[i], leq, i, j);
  }
}
