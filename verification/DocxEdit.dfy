/** Edits of a flattened region: the check that they do not overlap and how it depends
  * on their order, what replacing a chain of ranges gives, and the runs an edit touches.
  */
module DocxEdit {
  import opened DocxFlatten
  import Sorting

  /** Replace `[start, end)` by `text`, in coordinates of a region or of one run. */
  datatype Splice = Splice(start: nat, end: nat, text: string)

  predicate Valid(s: Splice) { s.start <= s.end }
  predicate AllValid(s: seq<Splice>) { forall i :: 0 <= i < |s| ==> Valid(s[i]) }

  predicate ByStart(x: Splice, y: Splice) { x.start <= y.start }

  function Sorted(s: seq<Splice>): seq<Splice> { Sorting.Sort(s, ByStart) }

  // ---------------------------------------------------------------- order of splices

  /** Of `x` and the later-listed `y`, the one that starts first, `x` if both start
    * together, ends before the other starts.
    */
  predicate Orderly(x: Splice, y: Splice) { if x.start <= y.start then x.end <= y.start else y.end <= x.start }

  predicate SameSpan(x: Splice, y: Splice) { x.start == y.start && x.end == y.end }

  predicate AllOrderly(s: seq<Splice>) { forall i, j :: 0 <= i < j < |s| ==> Orderly(s[i], s[j]) }

  predicate AllDistinct(s: seq<Splice>) { forall i, j :: 0 <= i < j < |s| ==> !SameSpan(s[i], s[j]) }

  /** Each splice ends before the next starts. */
  predicate Chain(s: seq<Splice>) { forall i :: 0 < i < |s| ==> s[i - 1].end <= s[i].start }

  /** `x` occurs in `s` before an occurrence of `y`. */
  ghost predicate Before(s: seq<Splice>, x: Splice, y: Splice) {
    exists i, j :: 0 <= i < j < |s| && s[i] == x && s[j] == y
  }

  lemma {:induction false} BeforeInTied(s: seq<Splice>, v: Splice, x: Splice, y: Splice)
    requires x.start == v.start && y.start == v.start
    ensures Before(Sorting.Tied(s, v, ByStart), x, y) <==> Before(s, x, y)
    decreases |s|
  {
    if s != [] {
      var t, rest := Sorting.Tied(s[1..], v, ByStart), s[1..];
      BeforeInTied(rest, v, x, y);
      Sorting.TiedMember(rest, v, ByStart, y);
      assert s == [s[0]] + rest;
      BeforeCons(s[0], rest, x, y);
      BeforeCons(s[0], t, x, y);
      if s[0].start == v.start {
        assert Sorting.Tied(s, v, ByStart) == [s[0]] + t;
      } else {
        assert Sorting.Tied(s, v, ByStart) == t;
      }
    }
  }

  lemma {:induction false} BeforeCons(h: Splice, s: seq<Splice>, x: Splice, y: Splice)
    ensures Before([h] + s, x, y) <==> Before(s, x, y) || (h == x && y in s)
  {
    var t := [h] + s;
    if Before(t, x, y) {
      var i, j :| 0 <= i < j < |t| && t[i] == x && t[j] == y;
      assert t[j] == s[j - 1];
      if i > 0 { assert s[i - 1] == x && s[j - 1] == y; }
    }
    if Before(s, x, y) {
      var i, j :| 0 <= i < j < |s| && s[i] == x && s[j] == y;
      assert t[i + 1] == x && t[j + 1] == y;
    }
    if h == x && y in s {
      var j :| 0 <= j < |s| && s[j] == y;
      assert t[0] == x && t[j + 1] == y;
    }
  }

  /** Sorting by start keeps the order of splices that start together. */
  lemma {:induction false} SortKeepsTies(s: seq<Splice>, x: Splice, y: Splice)
    requires x.start == y.start
    ensures Before(Sorted(s), x, y) <==> Before(s, x, y)
  {
    Sorting.SortTied(s, ByStart, x);
    BeforeInTied(s, x, x, y);
    BeforeInTied(Sorted(s), x, x, y);
  }

  lemma {:induction false} SortedFacts(s: seq<Splice>)
    ensures Sorting.Sorted(Sorted(s), ByStart)
    ensures forall x :: x in Sorted(s) <==> x in s
    ensures |Sorted(s)| == |s|
  {
    Sorting.SortSorted(s, ByStart);
    Sorting.SortPermutes(s, ByStart);
    Sorting.SameMembers(Sorted(s), s);
  }

  lemma {:induction false} TwoPlaces(s: seq<Splice>, x: Splice, y: Splice)
    requires x in s && y in s && x != y
    ensures Before(s, x, y) || Before(s, y, x)
  {
    var i :| 0 <= i < |s| && s[i] == x;
    var j :| 0 <= j < |s| && s[j] == y;
  }

  /** Splices that are pairwise orderly as listed form a chain once sorted. */
  lemma {:induction false} OrderlySortsToChain(s: seq<Splice>)
    requires AllValid(s) && AllOrderly(s)
    ensures Chain(Sorted(s)) && AllValid(Sorted(s))
  {
    var t := Sorted(s);
    SortedFacts(s);
    OrderlyIsChain(s);
    hide Sorted;
    forall k | 0 <= k < |t| ensures Valid(t[k]) { assert t[k] in s; }
  }

  lemma {:induction false} OrderlyIsChain(s: seq<Splice>)
    requires AllOrderly(s)
    ensures Chain(Sorted(s))
  {
    var t := Sorted(s);
    SortedFacts(s);
    hide Sorted;
    forall k | 0 < k < |t| ensures t[k - 1].end <= t[k].start {
      var x, y := t[k - 1], t[k];
      assert ByStart(x, y) && x in s && y in s;
      if x.start == y.start {
        assert Before(t, x, y);
        SortKeepsTies(s, x, y);
      } else {
        TwoPlaces(s, x, y);
      }
    }
  }

  /** In a sorted chain, everything earlier ends before everything later starts. */
  lemma {:induction false} ChainApart(t: seq<Splice>, p: nat, q: nat)
    requires Chain(t) && Sorting.Sorted(t, ByStart) && p < q < |t|
    ensures t[p].end <= t[q].start
  {
    assert t[p].end <= t[p + 1].start;
    if p + 1 < q { assert ByStart(t[p + 1], t[q]); }
  }

  lemma {:induction false} ValidChainApart(t: seq<Splice>, p: nat, q: nat)
    requires Chain(t) && AllValid(t) && p < q < |t|
    ensures t[p].end <= t[q].start
    decreases q - p
  {
    if p + 1 < q { ValidChainApart(t, p + 1, q); }
  }

  // ---------------------------------------------------------------- the overlap check

  predicate NeighboursDiffer(sorted: seq<Splice>) {
    forall i :: 0 < i < |sorted| ==> !SameSpan(sorted[i - 1], sorted[i])
  }

  predicate Accepted(edits: seq<Splice>) { AllOrderly(edits) && AllDistinct(edits) }

  /** Refuses the edits of a region when, sorted by start, one reaches into the next, or
    * two neighbours have the same span. For edits that start no later than they end, that
    * is when two of them, as listed, are not in order or have the same span.
    */
  method CheckNoOverlaps(edits: seq<Splice>) returns (ok: bool)
    ensures ok <==> AllOrderly(edits) && NeighboursDiffer(Sorted(edits))
    ensures AllValid(edits) ==> (ok <==> Accepted(edits))
  {
    hide Sorted; hide AllOrderly; hide AllDistinct; hide NeighboursDiffer;
    var sorted := Sorted(edits);
    CheckedIsOrderly(edits);
    ok := true;
    var k := 1;
    while k < |sorted|
      invariant 1 <= k && (k <= |sorted| || |sorted| == 0)
      invariant ok
      invariant forall i :: 0 < i < k && i < |sorted| ==> !Conflicts(sorted[i - 1], sorted[i])
    {
      var a, b := sorted[k - 1], sorted[k];
      if b.start < a.end || SameSpan(a, b) {
        return false;
      }
      k := k + 1;
    }
  }

  predicate Conflicts(a: Splice, b: Splice) { b.start < a.end || SameSpan(a, b) }

  /** No neighbours in sorted order conflict. */
  predicate Apart(sorted: seq<Splice>) { forall i :: 0 < i < |sorted| ==> !Conflicts(sorted[i - 1], sorted[i]) }

  lemma {:induction false} CheckedIsOrderly(edits: seq<Splice>)
    ensures Apart(Sorted(edits)) <==> AllOrderly(edits) && NeighboursDiffer(Sorted(edits))
    ensures AllValid(edits) ==> (Apart(Sorted(edits)) <==> Accepted(edits))
  {
    ChainIsOrderly(edits);
    if AllValid(edits) && AllOrderly(edits) { DistinctIfNeighboursDiffer(edits); }
    hide Sorted; hide AllOrderly; hide AllDistinct;
  }

  /** Sorted splices form a chain exactly when, as listed, every two are in order. */
  lemma {:induction false} ChainIsOrderly(s: seq<Splice>)
    ensures Chain(Sorted(s)) <==> AllOrderly(s)
  {
    var t := Sorted(s);
    SortedFacts(s);
    if AllOrderly(s) { OrderlyIsChain(s); }
    hide Sorted;
    if Chain(t) {
      forall i, j | 0 <= i < j < |s| ensures Orderly(s[i], s[j]) {
        var x, y := s[i], s[j];
        assert Before(s, x, y) && x in t && y in t;
        if x.start == y.start { SortKeepsTies(s, x, y); } else { TwoPlaces(t, x, y); }
        var p: nat, q: nat :|
            p < q < |t| && ((t[p] == x && t[q] == y) || (x.start != y.start && t[p] == y && t[q] == x));
        ChainApart(t, p, q);
        assert ByStart(t[p], t[q]);
      }
    }
  }

  lemma {:induction false} DistinctIfNeighboursDiffer(edits: seq<Splice>)
    requires AllValid(edits) && AllOrderly(edits)
    ensures NeighboursDiffer(Sorted(edits)) <==> AllDistinct(edits)
  {
    var t := Sorted(edits);
    SortedFacts(edits);
    OrderlySortsToChain(edits);
    hide Sorted;
    if NeighboursDiffer(t) {
      forall i, j | 0 <= i < j < |edits| ensures !SameSpan(edits[i], edits[j]) {
        assert Before(edits, edits[i], edits[j]);
        if edits[i].start == edits[j].start {
          SortKeepsTies(edits, edits[i], edits[j]);
          var p: nat, q: nat :| p < q < |t| && t[p] == edits[i] && t[q] == edits[j];
          SpansDiffer(t, p, q);
        }
      }
    }
    if AllDistinct(edits) {
      forall k | 0 < k < |t| ensures !SameSpan(t[k - 1], t[k]) {
        assert Before(t, t[k - 1], t[k]);
        if t[k - 1].start == t[k].start {
          SortKeepsTies(edits, t[k - 1], t[k]);
        }
      }
    }
  }

  lemma {:induction false} SpansDiffer(t: seq<Splice>, p: nat, q: nat)
    requires Sorting.Sorted(t, ByStart) && Chain(t) && AllValid(t) && NeighboursDiffer(t) && p < q < |t|
    ensures !SameSpan(t[p], t[q])
  {
    ChainApart(t, p, q);
    assert t[p].end <= t[p + 1].start && !SameSpan(t[p], t[p + 1]);
    if p + 1 < q { ChainApart(t, p + 1, q); }
  }

  // ---------------------------------------------------------------- the order of the list

  /** `x`, listed before `y`, does not make the check refuse. */
  predicate Fine(x: Splice, y: Splice) { Orderly(x, y) && !SameSpan(x, y) }

  predicate IsPoint(x: Splice) { x.start == x.end }

  /** An insertion point and a replacement that start together. */
  predicate Mixed(x: Splice, y: Splice) { x.start == y.start && IsPoint(x) != IsPoint(y) }

  predicate NoneMixed(s: seq<Splice>) { forall i, j :: 0 <= i < j < |s| ==> !Mixed(s[i], s[j]) }

  /** A pair of edits is treated alike in either order exactly when it is not mixed. */
  lemma {:induction false} OrderMattersForPairIff(x: Splice, y: Splice)
    requires Valid(x) && Valid(y)
    ensures (Fine(x, y) <==> Fine(y, x)) <==> !Mixed(x, y)
    ensures Mixed(x, y) ==> (Fine(x, y) <==> IsPoint(x))
  {
  }

  lemma {:induction false} TwoInPermutation(a: seq<Splice>, b: seq<Splice>, i: nat, j: nat)
    requires multiset(a) == multiset(b) && i < j < |b|
    ensures Before(a, b[i], b[j]) || Before(a, b[j], b[i])
  {
    var x, y := b[i], b[j];
    Sorting.SameMembers(a, b);
    if x != y {
      assert x in b && y in b;
      TwoPlaces(a, x, y);
    } else {
      assert b == b[..i] + [x] + b[i + 1..j] + [y] + b[j + 1..];
      TwiceIn(a, x);
    }
  }

  lemma {:induction false} TwiceIn(a: seq<Splice>, x: Splice)
    requires multiset(a)[x] >= 2
    ensures Before(a, x, x)
    decreases |a|
  {
    var n := |a| - 1;
    assert a == a[..n] + [a[n]];
    if multiset(a[..n])[x] >= 2 {
      TwiceIn(a[..n], x);
      var i, j :| 0 <= i < j < n && a[..n][i] == x && a[..n][j] == x;
      assert a[i] == x && a[j] == x;
    } else {
      assert x in multiset(a[..n]) && x in a[..n];
      var i :| 0 <= i < n && a[..n][i] == x;
      assert a[i] == x && a[n] == x;
    }
  }

  /** Without a mixed pair, a list of edits is accepted in every order or in none. */
  lemma {:induction false} OrderIrrelevantUnlessMixed(a: seq<Splice>, b: seq<Splice>)
    requires AllValid(a) && NoneMixed(a) && multiset(a) == multiset(b)
    ensures Accepted(a) <==> Accepted(b)
  {
    PermutedEdits(a, b);
    if Accepted(a) { StaysAccepted(a, b); }
    if Accepted(b) { StaysAccepted(b, a); }
  }

  lemma {:induction false} PermutedEdits(a: seq<Splice>, b: seq<Splice>)
    requires AllValid(a) && NoneMixed(a) && multiset(a) == multiset(b)
    ensures AllValid(b) && NoneMixed(b)
  {
    Sorting.SameMembers(a, b);
    forall i | 0 <= i < |b| ensures Valid(b[i]) { assert b[i] in b; }
    forall i, j | 0 <= i < j < |b| ensures !Mixed(b[i], b[j]) { TwoInPermutation(a, b, i, j); }
  }

  lemma {:induction false} StaysAccepted(a: seq<Splice>, b: seq<Splice>)
    requires AllValid(a) && NoneMixed(a) && multiset(a) == multiset(b) && Accepted(a)
    ensures Accepted(b)
  {
    PermutedEdits(a, b);
    forall i, j | 0 <= i < j < |b| ensures Fine(b[i], b[j]) {
      TwoInPermutation(a, b, i, j);
      OrderMattersForPairIff(b[i], b[j]);
    }
  }

  /** An accepted list of edits is accepted in every order exactly when no pair of it is mixed. */
  lemma {:induction false} OrderMattersIffMixed(a: seq<Splice>)
    requires AllValid(a) && Accepted(a)
    ensures (forall b :: multiset(b) == multiset(a) ==> Accepted(b)) <==> NoneMixed(a)
  {
    if NoneMixed(a) {
      forall b | multiset(b) == multiset(a) ensures Accepted(b) { OrderIrrelevantUnlessMixed(a, b); }
    } else {
      var i, j :| 0 <= i < j < |a| && Mixed(a[i], a[j]);
      var b := a[i := a[j]][j := a[i]];
      SwapPermutes(a, i, j);
      OrderMattersForPairIff(a[i], a[j]);
      assert Fine(a[i], a[j]) && !Fine(b[i], b[j]);
      assert multiset(b) == multiset(a) && !Accepted(b);
    }
  }

  lemma {:induction false} SwapPermutes(a: seq<Splice>, i: nat, j: nat)
    requires i < j < |a|
    ensures multiset(a[i := a[j]][j := a[i]]) == multiset(a)
  {
    var b := a[i := a[j]][j := a[i]];
    assert a == a[..i] + [a[i]] + a[i + 1..j] + [a[j]] + a[j + 1..];
    assert b == a[..i] + [a[j]] + a[i + 1..j] + [a[i]] + a[j + 1..];
  }

  /** The shortest case: an insertion point listed before a replacement starting there is
    * accepted, listed after it is refused.
    */
  lemma {:induction false} CheckDependsOnOrder(p: nat, q: nat, a: string, b: string)
    requires p < q
    ensures var point, span := Splice(p, p, a), Splice(p, q, b); Accepted([point, span]) && !Accepted([span, point])
  {
    var s := [Splice(p, q, b), Splice(p, p, a)];
    assert !Orderly(s[0], s[1]);
  }

  // ---------------------------------------------------------------- substitution

  /** `splices` is a chain of ranges between `cursor` and `stop`. */
  predicate Fits(splices: seq<Splice>, cursor: nat, stop: nat)
    decreases |splices|
  {
    if splices == [] then cursor <= stop
    else cursor <= splices[0].start <= splices[0].end && Fits(splices[1..], splices[0].end, stop)
  }

  /** `text[cursor..stop]` with each range replaced by its splice's text. */
  function Substitute(text: string, splices: seq<Splice>, cursor: nat, stop: nat): string
    requires Fits(splices, cursor, stop) && stop <= |text|
    decreases |splices|
  {
    if splices == [] then text[cursor..stop]
    else
      FitsEnd(splices, cursor, stop);
      text[cursor..splices[0].start] + splices[0].text + Substitute(text, splices[1..], splices[0].end, stop)
  }

  /** All of `text`, with each range replaced. */
  function Replaced(text: string, splices: seq<Splice>): string
    requires Fits(splices, 0, |text|)
  {
    Substitute(text, splices, 0, |text|)
  }

  lemma {:induction false} FitsEnd(splices: seq<Splice>, cursor: nat, stop: nat)
    requires Fits(splices, cursor, stop)
    ensures cursor <= stop && (splices != [] ==> splices[0].start <= splices[0].end <= stop)
    decreases |splices|
  {
    if splices != [] { FitsEnd(splices[1..], splices[0].end, stop); }
  }

  lemma {:induction false} Unfold(text: string, splices: seq<Splice>, cursor: nat, stop: nat)
    requires splices != [] && stop <= |text|
    ensures Fits(splices, cursor, stop) <==>
            cursor <= splices[0].start <= splices[0].end && Fits(splices[1..], splices[0].end, stop)
    ensures Fits(splices, cursor, stop) ==>
              && cursor <= splices[0].start <= splices[0].end <= stop
              && Substitute(text, splices, cursor, stop) ==
                 text[cursor..splices[0].start] + splices[0].text + Substitute(text, splices[1..], splices[0].end, stop)
  {
    if Fits(splices, cursor, stop) { FitsEnd(splices, cursor, stop); }
  }

  predicate Within(splices: seq<Splice>, lo: nat, hi: nat) {
    forall i :: 0 <= i < |splices| ==> lo <= splices[i].start && splices[i].end <= hi
  }

  /** A valid chain inside the bounds fits them, and conversely. */
  lemma {:induction false} ChainFits(splices: seq<Splice>, cursor: nat, stop: nat)
    requires cursor <= stop
    ensures Fits(splices, cursor, stop) <==> Chain(splices) && AllValid(splices) && Within(splices, cursor, stop)
    decreases |splices|
  {
    if splices != [] {
      var h, t := splices[0], splices[1..];
      if Valid(h) && h.end <= stop {
        ChainFits(t, h.end, stop);
        ChainCons(h, t, cursor, stop);
        assert splices == [h] + t;
      } else if Fits(splices, cursor, stop) {
        FitsEnd(splices, cursor, stop);
      }
    }
  }

  lemma {:induction false} ChainCons(h: Splice, t: seq<Splice>, lo: nat, hi: nat)
    requires Valid(h) && h.end <= hi
    ensures lo <= h.start && Chain(t) && AllValid(t) && Within(t, h.end, hi) <==>
            Chain([h] + t) && AllValid([h] + t) && Within([h] + t, lo, hi)
  {
    var s := [h] + t;
    if lo <= h.start && Chain(t) && AllValid(t) && Within(t, h.end, hi) {
      assert forall i :: 0 < i < |s| ==> s[i] == t[i - 1];
      assert Within(s, lo, hi);
    }
    if Chain(s) && AllValid(s) && Within(s, lo, hi) {
      assert s[0] == h;
      forall i | 0 <= i < |t|
        ensures h.end <= t[i].start && Valid(t[i]) && t[i].end <= hi && (i > 0 ==> t[i - 1].end <= t[i].start)
      {
        assert t[i] == s[i + 1];
        ValidChainApart(s, 0, i + 1);
        if i > 0 { assert t[i - 1] == s[i]; }
      }
    }
  }

  // The loop by which a run's fragments, and a document's replacements, are spliced in.
  method SpliceAll(text: string, group: seq<Splice>) returns (result: string)
    requires Fits(Sorted(group), 0, |text|)
    ensures result == Replaced(text, Sorted(group))
  {
    var sorted := Sorted(group);
    result := "";
    var cursor, k := 0, 0;
    while k < |sorted|
      invariant 0 <= k <= |sorted| && 0 <= cursor <= |text|
      invariant Fits(sorted[k..], cursor, |text|)
      invariant Replaced(text, sorted) == result + Substitute(text, sorted[k..], cursor, |text|)
    {
      assert sorted[k..][1..] == sorted[k + 1..];
      FitsEnd(sorted[k..], cursor, |text|);
      result := result + text[cursor..sorted[k].start] + sorted[k].text;
      cursor := sorted[k].end;
      k := k + 1;
    }
    result := result + text[cursor..];
  }

  lemma {:induction false} SliceJoin(text: string, i: nat, j: nat, k: nat)
    requires i <= j <= k <= |text|
    ensures text[i..k] == text[i..j] + text[j..k]
  {
  }

  lemma {:induction false} SliceOfSlice(text: string, lo: nat, hi: nat, i: nat, j: nat)
    requires lo <= hi <= |text| && i <= j <= hi - lo
    ensures text[lo..hi][i..j] == text[lo + i..lo + j]
  {
    var s := text[lo..hi];
    forall k | 0 <= k < j - i ensures s[i..j][k] == text[lo + i..lo + j][k] {
      assert s[i + k] == text[lo + i + k];
    }
  }

  lemma {:induction false} Regroup(x: string, y: string, z: string)
    ensures x + y + z == x + (y + z)
  {
  }

  /** Splicing up to `mid` and then on from `mid` is splicing it all. */
  lemma {:induction false} SpliceParts(text: string, left: seq<Splice>, right: seq<Splice>, cursor: nat, mid: nat,
                                       stop: nat)
    requires Fits(left, cursor, mid) && Fits(right, mid, stop) && stop <= |text|
    ensures Fits(left + right, cursor, stop) && mid <= stop
    ensures Substitute(text, left + right, cursor, stop) ==
            Substitute(text, left, cursor, mid) + Substitute(text, right, mid, stop)
    decreases |left|
  {
    FitsEnd(left, cursor, mid);
    FitsEnd(right, mid, stop);
    if left == [] {
      assert left + right == right;
      SpliceGap(text, right, cursor, mid, stop);
    } else {
      hide Fits; hide Substitute;
      assert (left + right)[1..] == left[1..] + right;
      Unfold(text, left, cursor, mid);
      SpliceParts(text, left[1..], right, left[0].end, mid, stop);
      Unfold(text, left + right, cursor, stop);
      Regroup(text[cursor..left[0].start] + left[0].text, Substitute(text, left[1..], left[0].end, mid),
              Substitute(text, right, mid, stop));
    }
  }

  lemma {:induction false} SpliceGap(text: string, right: seq<Splice>, cursor: nat, mid: nat, stop: nat)
    requires cursor <= mid && Fits(right, mid, stop) && stop <= |text|
    ensures Fits(right, cursor, stop) && mid <= stop
    ensures Substitute(text, right, cursor, stop) == text[cursor..mid] + Substitute(text, right, mid, stop)
  {
    FitsEnd(right, mid, stop);
    if right == [] {
      SliceJoin(text, cursor, mid, stop);
    } else {
      SliceJoin(text, cursor, mid, right[0].start);
      Regroup(text[cursor..mid], text[mid..right[0].start], right[0].text);
      Regroup(text[cursor..mid], text[mid..right[0].start] + right[0].text,
              Substitute(text, right[1..], right[0].end, stop));
    }
  }

  function Shift(splices: seq<Splice>, d: nat): seq<Splice> {
    if splices == [] then []
    else [Splice(splices[0].start + d, splices[0].end + d, splices[0].text)] + Shift(splices[1..], d)
  }

  /** Splicing a slice of a text is splicing that part of the text, in the text's coordinates. */
  lemma {:induction false} SpliceSlice(text: string, lo: nat, hi: nat, local: seq<Splice>, at: nat)
    requires lo <= hi <= |text| && Fits(local, at, hi - lo)
    ensures Fits(Shift(local, lo), lo + at, hi)
    ensures Substitute(text, Shift(local, lo), lo + at, hi) == Substitute(text[lo..hi], local, at, hi - lo)
    decreases |local|
  {
    hide Fits; hide Substitute; hide Shift;
    FitsEnd(local, at, hi - lo);
    if local == [] {
      ShiftCons(local, lo);
      NothingSpliced(text, lo + at, hi);
      NothingSpliced(text[lo..hi], at, hi - lo);
      SliceOfSlice(text, lo, hi, at, hi - lo);
    } else {
      ShiftCons(local, lo);
      Unfold(text[lo..hi], local, at, hi - lo);
      SpliceSlice(text, lo, hi, local[1..], local[0].end);
      Unfold(text, Shift(local, lo), lo + at, hi);
      SliceOfSlice(text, lo, hi, at, local[0].start);
    }
  }

  lemma {:induction false} NothingSpliced(text: string, cursor: nat, stop: nat)
    requires cursor <= stop <= |text|
    ensures Fits([], cursor, stop) && Substitute(text, [], cursor, stop) == text[cursor..stop]
  {
  }

  lemma {:induction false} ShiftCons(s: seq<Splice>, d: nat)
    ensures |Shift(s, d)| == |s|
    ensures s != [] ==> Shift(s, d)[1..] == Shift(s[1..], d)
    ensures s != [] ==> Shift(s, d)[0] == Splice(s[0].start + d, s[0].end + d, s[0].text)
  {
    if s != [] { ShiftCons(s[1..], d); }
  }

  /** Where a list of splices ends. */
  function EndOf(splices: seq<Splice>, cursor: nat): nat {
    if splices == [] then cursor else splices[|splices| - 1].end
  }

  lemma {:induction false} FitsSplit(a: seq<Splice>, m: seq<Splice>, cursor: nat, stop: nat)
    requires Fits(a + m, cursor, stop)
    ensures Fits(a, cursor, EndOf(a, cursor)) && Fits(m, EndOf(a, cursor), stop)
    decreases |a|
  {
    if a == [] {
      assert a + m == m;
    } else {
      assert (a + m)[1..] == a[1..] + m;
      FitsSplit(a[1..], m, a[0].end, stop);
      assert EndOf(a, cursor) == EndOf(a[1..], a[0].end);
    }
  }

  // ---------------------------------------------------------------- touched runs

  /** The first run at or after `k` holding the insertion point `x`, ends included. */
  function FirstHolding(runs: seq<RunSpan>, x: nat, k: nat): (r: nat)
    requires k <= |runs|
    ensures k <= r <= |runs|
    ensures r < |runs| ==> runs[r].flatStart <= x <= runs[r].flatEnd
    ensures forall i :: k <= i < r ==> !(runs[i].flatStart <= x <= runs[i].flatEnd)
    decreases |runs| - k
  {
    if k == |runs| || runs[k].flatStart <= x <= runs[k].flatEnd then k else FirstHolding(runs, x, k + 1)
  }

  predicate Meets(run: RunSpan, e: Splice) { run.flatEnd > e.start && run.flatStart < e.end }

  function Meeting(runs: seq<RunSpan>, e: Splice, n: nat): (r: seq<nat>)
    requires n <= |runs|
    ensures forall i :: i in r <==> 0 <= i < n && Meets(runs[i], e)
  {
    if n == 0 then [] else Meeting(runs, e, n - 1) + if Meets(runs[n - 1], e) then [n - 1] else []
  }

  function RunsTouching(runs: seq<RunSpan>, e: Splice): seq<nat> {
    if e.start == e.end then
      var i := FirstHolding(runs, e.start, 0);
      if i < |runs| then [i] else []
    else Meeting(runs, e, |runs|)
  }

  predicate Touched(runs: seq<RunSpan>, e: Splice, i: nat)
    requires i < |runs|
  {
    if e.start == e.end then FirstHolding(runs, e.start, 0) == i else Meets(runs[i], e)
  }

  lemma {:induction false} TouchedIsTouching(runs: seq<RunSpan>, e: Splice)
    ensures forall i :: i in RunsTouching(runs, e) <==> 0 <= i < |runs| && Touched(runs, e, i)
  {
  }

  /** A span touches the runs that overlap it; a point the first that holds it, ends included. */
  lemma {:induction false} TouchingIs(runs: seq<RunSpan>, e: Splice, i: nat)
    requires i < |runs|
    ensures e.start != e.end ==>
              (i in RunsTouching(runs, e) <==> runs[i].flatEnd > e.start && runs[i].flatStart < e.end)
    ensures e.start == e.end ==>
              (i in RunsTouching(runs, e) <==>
               && runs[i].flatStart <= e.start <= runs[i].flatEnd
               && forall j :: 0 <= j < i ==> !(runs[j].flatStart <= e.start <= runs[j].flatEnd))
  {
    TouchedIsTouching(runs, e);
  }

  predicate Consecutive(t: seq<nat>) { forall a :: 0 < a < |t| ==> t[a] == t[a - 1] + 1 }

  lemma {:induction false} ConsecutiveAt(t: seq<nat>, a: nat)
    requires Consecutive(t) && a < |t|
    ensures t[a] == t[0] + a
  {
    if a > 0 { ConsecutiveAt(t, a - 1); }
  }

  /** The touched runs are neighbours: one interval of the region's runs, in order. */
  lemma {:induction false} TouchedRunsAreNeighbours(text: string, runs: seq<RunSpan>, e: Splice)
    requires RunsOk(text, runs) && Valid(e)
    ensures Consecutive(RunsTouching(runs, e))
  {
    if e.start < e.end { MeetingConsecutive(text, runs, e, |runs|); }
  }

  lemma {:induction false} MeetingConsecutive(text: string, runs: seq<RunSpan>, e: Splice, n: nat)
    requires RunsOk(text, runs) && e.start < e.end && n <= |runs|
    ensures Consecutive(Meeting(runs, e, n))
  {
    if n > 0 {
      MeetingConsecutive(text, runs, e, n - 1);
      var t := Meeting(runs, e, n - 1);
      if t != [] && Meets(runs[n - 1], e) {
        assert t[0] in t;
        assert Meets(runs[n - 2], e);
        assert n - 2 in t && t[|t| - 1] in t;
        var k :| 0 <= k < |t| && t[k] == n - 2;
        ConsecutiveAt(t, k);
        ConsecutiveAt(t, |t| - 1);
      }
    }
  }
}
