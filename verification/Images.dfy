/** Sorting and taking images. */
module Images {
  import opened Lists
  import Sorting

  /** Sorting by an image commutes with taking the image. */
  lemma {:induction false} InsertMaps<T(!new), U>(x: T, s: seq<T>, f: T -> U, leq: (T, T) -> bool, fleq: (U, U) -> bool)
    requires forall x, y :: leq(x, y) == fleq(f(x), f(y))
    ensures Map(Sorting.Insert(x, s, leq), f) == Sorting.Insert(f(x), Map(s, f), fleq)
    decreases |s|
  {
    if s != [] && !leq(x, s[0]) {
      InsertMaps(x, s[1..], f, leq, fleq);
      assert Map(s, f)[1..] == Map(s[1..], f);
    }
  }

  lemma {:induction false} SortMaps<T(!new), U>(s: seq<T>, f: T -> U, leq: (T, T) -> bool, fleq: (U, U) -> bool)
    requires forall x, y :: leq(x, y) == fleq(f(x), f(y))
    ensures Map(Sorting.Sort(s, leq), f) == Sorting.Sort(Map(s, f), fleq)
    decreases |s|
  {
    if s != [] {
      SortMaps(s[1..], f, leq, fleq);
      InsertMaps(s[0], Sorting.Sort(s[1..], leq), f, leq, fleq);
      assert Map(s, f)[1..] == Map(s[1..], f);
    }
  }
}
