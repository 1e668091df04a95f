/** Name similarity and the pruned search for near-duplicate names.
  *
  * A ratio is `round(2 * matched / total)`: `round` stands for rounding to a
  * floating-point number, of which only monotonicity and exactness at 0 and 1 are used.
  */
module Similarity {
  import opened Options
  import opened Matching
  import Sorting
  import Text

  const SURFACE_THRESHOLD: real := 0.85

  /** Rounding never swaps two numbers, and keeps 0 and 1. */
  ghost predicate IsRounding(round: real -> real) {
    round(0.0) == 0.0 && round(1.0) == 1.0 && forall x, y :: x <= y ==> round(x) <= round(y)
  }

  /** `2 * matched / total`, and 1 for two empty strings. */
  function Fraction(matched: nat, total: nat): real {
    if total == 0 then 1.0 else 2.0 * matched as real / total as real
  }

  lemma FractionMonotone(m: nat, n: nat, total: nat)
    requires m <= n
    ensures Fraction(m, total) <= Fraction(n, total)
  {
    if total > 0 {
      DivisionMonotone(2.0 * m as real, 2.0 * n as real, total as real);
    }
  }

  lemma DivisionMonotone(x: real, y: real, d: real)
    requires x <= y && d > 0.0
    ensures x / d <= y / d
  {
  }

  /** The exact ratio of two strings: the share of their characters that is matched. */
  ghost function ExactRatio(a: string, b: string): real {
    Fraction(Total(a, b, Whole(a, b)), |a| + |b|)
  }

  /** The ratio lies between 0 and 1, and reaches 1 exactly on equal strings. */
  lemma ExactRatioRange(a: string, b: string)
    ensures 0.0 <= ExactRatio(a, b) <= 1.0
    ensures ExactRatio(a, b) == 1.0 <==> a == b
  {
    TotalWithinWidths(a, b, Whole(a, b));
    FullMatch(a, b);
    var matched, total := Total(a, b, Whole(a, b)), |a| + |b|;
    if total > 0 {
      FractionOfAtMostHalf(matched, total);
    }
  }

  lemma FractionOfTotal(m: nat, total: nat)
    requires total > 0
    ensures Fraction(m, total) * total as real == 2.0 * m as real
  {
  }

  /** The ratio is twice the size of the matched blocks, shared among all characters. */
  lemma {:induction false} RatioIsMatchedShare(a: string, b: string, blocks: seq<Block>)
    requires IsMatching(a, b, Whole(a, b), blocks)
    ensures |a| + |b| > 0 ==> ExactRatio(a, b) * (|a| + |b|) as real == 2.0 * SizeOf(blocks) as real
  {
    hide IsMatching; hide Fraction; hide SizeOf; hide Total;
    var matched := TotalIsMatching(a, b, Whole(a, b));
    MatchingUnique(a, b, Whole(a, b), blocks, matched);
    if |a| + |b| > 0 { FractionOfTotal(Total(a, b, Whole(a, b)), |a| + |b|); }
  }

  /** And the bound is twice the shared characters, shared in the same way. */
  lemma {:induction false} BoundIsSharedShare(a: string, b: string)
    ensures |a| + |b| > 0 ==> Bound(a, b) * (|a| + |b|) as real == 2.0 * SharedCount(a, b) as real
  {
    hide Fraction; hide SharedCount;
    if |a| + |b| > 0 { FractionOfTotal(SharedCount(a, b), |a| + |b|); }
  }

  lemma FractionOfAtMostHalf(m: nat, total: nat)
    requires 0 < total && 2 * m <= total
    ensures 0.0 <= Fraction(m, total) <= 1.0
    ensures Fraction(m, total) == 1.0 <==> 2 * m == total
  {
    var t := total as real;
    DivisionMonotone(0.0, 2.0 * m as real, t);
    DivisionMonotone(2.0 * m as real, t, t);
    if Fraction(m, total) == 1.0 {
      assert 2.0 * m as real == Fraction(m, total) * t;
    }
  }

  // ---------------------------------------------------------------- word order

  /** The string's words in order, joined by single spaces. */
  function SortWords(s: string): string {
    Text.Join(Sorting.Sort(Text.Words(s), Text.StringLeq), " ")
  }

  /** The sorted form holds the same words, each as often, in order, with one space between
    * neighbours and none elsewhere.
    */
  lemma {:induction false} SortedForm(s: string)
    ensures var words := Text.Words(SortWords(s));
            && multiset(words) == multiset(Text.Words(s)) && Sorting.Sorted(words, Text.StringLeq)
            && SortWords(s) == Text.Join(words, " ")
            && |SortWords(s)| == if words == [] then 0 else Text.LengthOf(words) + |words| - 1
  {
    var words := Sorting.Sort(Text.Words(s), Text.StringLeq);
    Text.StringOrder();
    Sorting.SortPermutes(Text.Words(s), Text.StringLeq);
    Sorting.SortSorted(Text.Words(s), Text.StringLeq);
    Sorting.SameMembers(words, Text.Words(s));
    forall i | 0 <= i < |words| ensures Text.IsWord(words[i]) { assert words[i] in words; }
    Text.WordsOfJoin(words);
    Text.JoinLength(words);
  }

  /** Strings with the same words, each as often, have the same sorted form. */
  lemma SameWordsSortAlike(a: string, b: string)
    requires multiset(Text.Words(a)) == multiset(Text.Words(b))
    ensures SortWords(a) == SortWords(b)
  {
    var x, y := Text.Words(a), Text.Words(b);
    Text.StringOrder();
    Sorting.SortPermutes(x, Text.StringLeq);
    Sorting.SortPermutes(y, Text.StringLeq);
    Sorting.SortSorted(x, Text.StringLeq);
    Sorting.SortSorted(y, Text.StringLeq);
    Sorting.SortedPermutationUnique(Sorting.Sort(x, Text.StringLeq), Sorting.Sort(y, Text.StringLeq), Text.StringLeq);
  }

  function Max(x: real, y: real): real { if x >= y then x else y }

  /** The better of the ratio as written and the ratio with the words sorted. */
  ghost function Similar(a: string, b: string, round: real -> real): real {
    Max(round(ExactRatio(a, b)), round(ExactRatio(SortWords(a), SortWords(b))))
  }

  /** Names with the same words in any order are as similar as equal names. */
  lemma SameWordsAreSimilar(a: string, b: string, round: real -> real)
    requires IsRounding(round)
    requires multiset(Text.Words(a)) == multiset(Text.Words(b))
    ensures Similar(a, b, round) == 1.0
  {
    SameWordsSortAlike(a, b);
    ExactRatioRange(SortWords(a), SortWords(b));
    ExactRatioRange(a, b);
  }

  method SequenceMatcherRatio(a: string, b: string, round: real -> real) returns (r: real)
    requires IsRounding(round)
    ensures r == round(ExactRatio(a, b))
  {
    var total := |a| + |b|;
    if total == 0 {
      return 1.0;
    }
    var matched := TotalMatched(a, b);
    r := round(2.0 * matched as real / total as real);
  }

  method NameSimilarity(a: string, b: string, round: real -> real) returns (r: real)
    requires IsRounding(round)
    ensures r == Similar(a, b, round)
    ensures r >= round(ExactRatio(a, b)) && r >= round(ExactRatio(SortWords(a), SortWords(b)))
    ensures r == round(ExactRatio(a, b)) || r == round(ExactRatio(SortWords(a), SortWords(b)))
  {
    var straight := SequenceMatcherRatio(a, b, round);
    var tokenSort := SequenceMatcherRatio(SortWords(a), SortWords(b), round);
    r := Max(straight, tokenSort);
  }

  // ---------------------------------------------------------------- the cheap upper bound

  predicate CharLeq(c: char, d: char) { c <= d }

  function SortChars(s: string): string { Sorting.Sort(s, CharLeq) }

  lemma SortCharsSorted(s: string)
    ensures Sorting.Sorted(SortChars(s), CharLeq)
    ensures multiset(SortChars(s)) == multiset(s)
    ensures |SortChars(s)| == |s|
  {
    Sorting.SortSorted(s, CharLeq);
    Sorting.SortPermutes(s, CharLeq);
    Sorting.SameMembers(SortChars(s), s);
  }

  /** An element below everything left on the other side is shared by no one. */
  lemma SkipSmaller(a: string, b: string)
    requires a != [] && b != [] && a[0] < b[0] && Sorting.Sorted(b, CharLeq)
    ensures SharedCount(a, b) == SharedCount(a[1..], b)
  {
    assert a == [a[0]] + a[1..];
    forall k | 0 <= k < |b| ensures b[k] != a[0] {
      if k > 0 { assert CharLeq(b[0], b[k]); }
    }
    assert a[0] !in multiset(b);
    assert multiset(a) * multiset(b) == multiset(a[1..]) * multiset(b);
  }

  lemma SharedCountSymmetric(a: string, b: string)
    ensures SharedCount(a, b) == SharedCount(b, a)
  {
    assert multiset(a) * multiset(b) == multiset(b) * multiset(a);
  }

  lemma TakeEqual(a: string, b: string)
    requires a != [] && b != [] && a[0] == b[0]
    ensures SharedCount(a, b) == 1 + SharedCount(a[1..], b[1..])
  {
    assert a == [a[0]] + a[1..] && b == [b[0]] + b[1..];
    assert multiset(a) * multiset(b) == multiset{a[0]} + multiset(a[1..]) * multiset(b[1..]);
  }

  /** The two-pointer merge counts exactly the shared characters. */
  method MultisetIntersection(a: string, b: string) returns (common: nat)
    requires Sorting.Sorted(a, CharLeq) && Sorting.Sorted(b, CharLeq)
    ensures common == SharedCount(a, b)
  {
    hide SharedCount;
    var i, j := 0, 0;
    common := 0;
    assert a[0..] == a && b[0..] == b;
    while i < |a| && j < |b|
      invariant 0 <= i <= |a| && 0 <= j <= |b|
      invariant common + SharedCount(a[i..], b[j..]) == SharedCount(a, b)
    {
      assert a[i..][1..] == a[i + 1..] && b[j..][1..] == b[j + 1..];
      if a[i] < b[j] {
        SkipSmaller(a[i..], b[j..]);
        i := i + 1;
      } else if a[i] > b[j] {
        SharedCountSymmetric(a[i..], b[j..]);
        SkipSmaller(b[j..], a[i..]);
        SharedCountSymmetric(a[i..], b[j + 1..]);
        j := j + 1;
      } else {
        TakeEqual(a[i..], b[j..]);
        common, i, j := common + 1, i + 1, j + 1;
      }
    }
    NothingLeft(a[i..], b[j..]);
  }

  lemma NothingLeft(a: string, b: string)
    requires a == [] || b == []
    ensures SharedCount(a, b) == 0
  {
    assert multiset(a) * multiset(b) == multiset{};
  }

  /** The ratio two strings would have if every shared character were matched. */
  function Bound(a: string, b: string): real {
    Fraction(SharedCount(a, b), |a| + |b|)
  }

  method RatioUpperBound(a: string, b: string, round: real -> real) returns (r: real)
    requires IsRounding(round)
    requires Sorting.Sorted(a, CharLeq) && Sorting.Sorted(b, CharLeq)
    ensures r == round(Bound(a, b))
  {
    var total := |a| + |b|;
    if total == 0 {
      return 1.0;
    }
    var common := MultisetIntersection(a, b);
    r := round(2.0 * common as real / total as real);
  }

  /** The bound is never below the ratio, before or after rounding. */
  lemma BoundAboveRatio(a: string, b: string, round: real -> real)
    requires IsRounding(round)
    ensures ExactRatio(a, b) <= Bound(a, b)
    ensures round(ExactRatio(a, b)) <= round(Bound(a, b))
  {
    var w := Whole(a, b);
    assert a[w.alo..w.ahi] == a && b[w.blo..w.bhi] == b;
    TotalWithinShared(a, b, w);
    FractionMonotone(Total(a, b, w), SharedCount(a, b), |a| + |b|);
  }

  // ---------------------------------------------------------------- profiles and pruning

  /** A display name with the sorted characters of its two compared forms. */
  datatype NameProfile = NameProfile(display: string, straightChars: string, sortedWordsChars: string)

  function ProfileOf(display: string): NameProfile {
    NameProfile(display, SortChars(display), SortChars(SortWords(display)))
  }

  ghost predicate IsProfile(p: NameProfile) { p == ProfileOf(p.display) }

  method CouldReachThreshold(a: NameProfile, b: NameProfile, round: real -> real) returns (could: bool)
    requires IsRounding(round)
    requires IsProfile(a) && IsProfile(b)
    ensures could <==> Max(round(Bound(a.straightChars, b.straightChars)),
                           round(Bound(a.sortedWordsChars, b.sortedWordsChars))) >= SURFACE_THRESHOLD
  {
    SortCharsSorted(a.display);
    SortCharsSorted(b.display);
    SortCharsSorted(SortWords(a.display));
    SortCharsSorted(SortWords(b.display));
    var straight := RatioUpperBound(a.straightChars, b.straightChars, round);
    var sorted := RatioUpperBound(a.sortedWordsChars, b.sortedWordsChars, round);
    could := Max(straight, sorted) >= SURFACE_THRESHOLD;
  }

  lemma BoundIgnoresOrder(a: string, b: string)
    ensures Bound(SortChars(a), SortChars(b)) == Bound(a, b)
  {
    SortCharsSorted(a);
    SortCharsSorted(b);
  }

  /** A pair the bound rules out is below the threshold anyway. */
  lemma PruningIsSound(a: string, b: string, round: real -> real)
    requires IsRounding(round)
    requires Similar(a, b, round) >= SURFACE_THRESHOLD
    ensures var p, q := ProfileOf(a), ProfileOf(b);
            Max(round(Bound(p.straightChars, q.straightChars)),
                round(Bound(p.sortedWordsChars, q.sortedWordsChars))) >= SURFACE_THRESHOLD
  {
    BoundAboveRatio(a, b, round);
    BoundAboveRatio(SortWords(a), SortWords(b), round);
    BoundIgnoresOrder(a, b);
    BoundIgnoresOrder(SortWords(a), SortWords(b));
  }

  // ---------------------------------------------------------------- the quadratic pass

  /** A group's key and the display name of its first record. */
  datatype NamedGroup = NamedGroup(key: string, display: string)

  datatype Candidate = Candidate(keyA: string, keyB: string, ratio: real)

  /** What comparing group `i` with group `j` by the real matcher adds. */
  ghost function PairAt(g: NamedGroup, h: NamedGroup, round: real -> real): seq<Candidate> {
    if g.display != "" && h.display != "" && Similar(g.display, h.display, round) >= SURFACE_THRESHOLD
    then [Candidate(g.key, h.key, Similar(g.display, h.display, round))] else []
  }

  /** The unpruned inner loop: group `i` against the groups from index `j` on. */
  ghost function PairsOf(groups: seq<NamedGroup>, round: real -> real, i: nat, j: nat): seq<Candidate>
    requires i < |groups| && j <= |groups|
    decreases |groups| - j
  {
    if j == |groups| then [] else PairAt(groups[i], groups[j], round) + PairsOf(groups, round, i, j + 1)
  }

  /** The unpruned double loop over all pairs, in order. */
  ghost function AllPairs(groups: seq<NamedGroup>, round: real -> real, i: nat): seq<Candidate>
    requires i <= |groups|
    decreases |groups| - i
  {
    if i == |groups| then [] else PairsOf(groups, round, i, i + 1) + AllPairs(groups, round, i + 1)
  }

  predicate MoreSimilar(c: Candidate, d: Candidate) { c.ratio >= d.ratio }

  lemma BlankAddsNothing(g: NamedGroup, h: NamedGroup, round: real -> real)
    requires g.display == "" || h.display == ""
    ensures PairAt(g, h, round) == []
  {
  }

  lemma BlankHasNoPairs(groups: seq<NamedGroup>, round: real -> real, i: nat, j: nat)
    requires i < |groups| && j <= |groups| && groups[i].display == ""
    ensures PairsOf(groups, round, i, j) == []
    decreases |groups| - j
  {
    if j < |groups| { BlankHasNoPairs(groups, round, i, j + 1); }
  }

  method BuildProfiles(groups: seq<NamedGroup>) returns (profiles: seq<Option<NameProfile>>)
    ensures |profiles| == |groups|
    ensures forall k :: 0 <= k < |groups| ==>
              profiles[k] == if groups[k].display == "" then None else Some(ProfileOf(groups[k].display))
  {
    profiles := [];
    for k := 0 to |groups|
      invariant |profiles| == k
      invariant forall q :: 0 <= q < k ==>
                  profiles[q] == if groups[q].display == "" then None else Some(ProfileOf(groups[q].display))
    {
      profiles := profiles + [if groups[k].display == "" then None else Some(ProfileOf(groups[k].display))];
    }
  }

  /** One pair: the bound first, the real matcher only when the bound allows. */
  method ComparePair(g: NamedGroup, h: NamedGroup, p: NameProfile, q: NameProfile, round: real -> real)
      returns (more: seq<Candidate>)
    requires IsRounding(round)
    requires p == ProfileOf(g.display) && q == ProfileOf(h.display)
    requires g.display != "" && h.display != ""
    ensures more == PairAt(g, h, round)
  {
    var could := CouldReachThreshold(p, q, round);
    if !could {
      if Similar(g.display, h.display, round) >= SURFACE_THRESHOLD {
        PruningIsSound(g.display, h.display, round);
      }
      return [];
    }
    var ratio := NameSimilarity(p.display, q.display, round);
    if ratio < SURFACE_THRESHOLD {
      return [];
    }
    return [Candidate(g.key, h.key, ratio)];
  }

  /** One outer iteration: group `i` against every later group. */
  method ComparePairsOf(groups: seq<NamedGroup>, profiles: seq<Option<NameProfile>>, i: nat, round: real -> real)
    returns (found: seq<Candidate>)
    requires IsRounding(round)
    requires i < |groups| == |profiles|
    requires forall k :: 0 <= k < |groups| ==>
               profiles[k] == if groups[k].display == "" then None else Some(ProfileOf(groups[k].display))
    ensures found == PairsOf(groups, round, i, i + 1)
  {
    hide PairAt;
    hide ProfileOf;
    found := [];
    if profiles[i].None? {
      BlankHasNoPairs(groups, round, i, i + 1);
      return;
    }
    for j := i + 1 to |groups|
      invariant found + PairsOf(groups, round, i, j) == PairsOf(groups, round, i, i + 1)
    {
      if profiles[j].None? {
        BlankAddsNothing(groups[i], groups[j], round);
        continue;
      }
      var more := ComparePair(groups[i], groups[j], profiles[i].value, profiles[j].value, round);
      found := found + more;
    }
    assert PairsOf(groups, round, i, |groups|) == [];
  }

  /** The pruned pass finds exactly what comparing every pair with the real
    * matcher finds, sorted by falling ratio with ties in pair order.
    */
  method FindTypoVariantCandidates(groups: seq<NamedGroup>, round: real -> real) returns (candidates: seq<Candidate>)
    requires IsRounding(round)
    ensures candidates == Sorting.Sort(AllPairs(groups, round, 0), MoreSimilar)
  {
    hide PairsOf;
    hide ProfileOf;
    hide Sorting.Sort;
    var profiles := BuildProfiles(groups);
    var found := [];
    for i := 0 to |groups|
      invariant found + AllPairs(groups, round, i) == AllPairs(groups, round, 0)
    {
      var more := ComparePairsOf(groups, profiles, i, round);
      assert AllPairs(groups, round, i) == more + AllPairs(groups, round, i + 1);
      found := found + more;
    }
    assert found == found + AllPairs(groups, round, |groups|);
    candidates := Sorting.Sort(found, MoreSimilar);
  }

  // ---------------------------------------------------------------- what the pass returns

  /** The pair `i`, `j` is worth showing, as `c`. */
  ghost predicate IsVariantPair(groups: seq<NamedGroup>, round: real -> real, i: nat, j: nat, c: Candidate) {
    && i < j < |groups|
    && groups[i].display != "" && groups[j].display != ""
    && Similar(groups[i].display, groups[j].display, round) >= SURFACE_THRESHOLD
    && c == Candidate(groups[i].key, groups[j].key, Similar(groups[i].display, groups[j].display, round))
  }

  lemma PairAtMember(groups: seq<NamedGroup>, round: real -> real, i: nat, j: nat, c: Candidate)
    requires i < j < |groups|
    ensures c in PairAt(groups[i], groups[j], round) <==> IsVariantPair(groups, round, i, j, c)
  {
    hide Similar;
  }

  lemma {:induction false} PairsOfMember(groups: seq<NamedGroup>, round: real -> real, i: nat, j: nat, c: Candidate)
    requires i < j <= |groups|
    ensures c in PairsOf(groups, round, i, j) <==>
            exists k: nat :: j <= k < |groups| && IsVariantPair(groups, round, i, k, c)
    decreases |groups| - j
  {
    hide IsVariantPair;
    hide PairAt;
    if j < |groups| {
      PairsOfMember(groups, round, i, j + 1, c);
      PairAtMember(groups, round, i, j, c);
    }
  }

  lemma {:induction false} AllPairsMember(groups: seq<NamedGroup>, round: real -> real, i: nat, c: Candidate)
    requires i <= |groups|
    ensures c in AllPairs(groups, round, i)
            <==> exists h: nat, k: nat :: i <= h < k < |groups| && IsVariantPair(groups, round, h, k, c)
    decreases |groups| - i
  {
    hide IsVariantPair;
    hide PairsOf;
    if i < |groups| {
      AllPairsMember(groups, round, i + 1, c);
      PairsOfMember(groups, round, i, i + 1, c);
    }
  }

  /** The result holds one entry per pair of later and earlier group whose
    * non-blank names reach the threshold, nothing else, best ratio first,
    * and entries of equal ratio in the order of the unpruned double loop.
    */
  lemma CandidatesAreThePairs(groups: seq<NamedGroup>, round: real -> real, candidates: seq<Candidate>)
    requires candidates == Sorting.Sort(AllPairs(groups, round, 0), MoreSimilar)
    ensures multiset(candidates) == multiset(AllPairs(groups, round, 0))
    ensures forall c :: c in candidates
                        <==> exists i: nat, j: nat :: 0 <= i < j < |groups| && IsVariantPair(groups, round, i, j, c)
    ensures Sorting.Sorted(candidates, MoreSimilar)
    ensures forall c
            :: Sorting.Tied(candidates, c, MoreSimilar) == Sorting.Tied(AllPairs(groups, round, 0), c, MoreSimilar)
  {
    hide IsVariantPair;
    hide AllPairs;
    hide Sorting.Sort;
    hide Sorting.Tied;
    var all := AllPairs(groups, round, 0);
    Sorting.SortPermutes(all, MoreSimilar);
    Sorting.SameMembers(candidates, all);
    Sorting.SortSorted(all, MoreSimilar);
    forall c ensures c in candidates
                     <==> exists i: nat, j: nat :: 0 <= i < j < |groups| && IsVariantPair(groups, round, i, j, c) {
      AllPairsMember(groups, round, 0, c);
    }
    forall c ensures Sorting.Tied(candidates, c, MoreSimilar) == Sorting.Tied(all, c, MoreSimilar) {
      Sorting.SortTied(all, MoreSimilar, c);
    }
  }
}
