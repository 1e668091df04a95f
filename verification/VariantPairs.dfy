/** The result of the search for near-duplicate names as a list of pairs of groups. */
module VariantPairs {
  import opened Lists
  import opened Similarity
  import Images
  import Sorting

  /** Two groups by their places. */
  datatype Pair = Pair(first: nat, second: nat)

  /** An earlier and a later group, both with names, that are similar enough. */
  ghost predicate IsVariant(groups: seq<NamedGroup>, round: real -> real, p: Pair) {
    && p.first < p.second < |groups| && groups[p.first].display != "" && groups[p.second].display != ""
    && Similar(groups[p.first].display, groups[p.second].display, round) >= SURFACE_THRESHOLD
  }

  /** What a pair is listed as. */
  ghost function Listed(groups: seq<NamedGroup>, round: real -> real): Pair -> Candidate {
    (p: Pair) =>
      if p.first < |groups| && p.second < |groups|
      then Candidate(groups[p.first].key, groups[p.second].key,
                     Similar(groups[p.first].display, groups[p.second].display, round))
      else Candidate("", "", 0.0)
  }

  predicate Before(p: Pair, q: Pair) { p.first < q.first || (p.first == q.first && p.second < q.second) }

  predicate InOrder(v: seq<Pair>) { forall k, l :: 0 <= k < l < |v| ==> Before(v[k], v[l]) }

  /** The variants of group `i` from group `j` on. */
  ghost function VariantsOf(groups: seq<NamedGroup>, round: real -> real, i: nat, j: nat): seq<Pair>
    requires j <= |groups|
    decreases |groups| - j
  {
    if j == |groups| then []
    else (if IsVariant(groups, round, Pair(i, j)) then [Pair(i, j)] else []) + VariantsOf(groups, round, i, j + 1)
  }

  ghost function AllVariants(groups: seq<NamedGroup>, round: real -> real, i: nat): seq<Pair>
    requires i <= |groups|
    decreases |groups| - i
  {
    if i == |groups| then [] else VariantsOf(groups, round, i, i + 1) + AllVariants(groups, round, i + 1)
  }

  lemma {:induction false} PairsAreVariants(groups: seq<NamedGroup>, round: real -> real, i: nat, j: nat)
    requires i < j <= |groups|
    ensures PairsOf(groups, round, i, j) == Map(VariantsOf(groups, round, i, j), Listed(groups, round))
    decreases |groups| - j
  {
    hide Similar;
    if j < |groups| {
      PairsAreVariants(groups, round, i, j + 1);
      var first := if IsVariant(groups, round, Pair(i, j)) then [Pair(i, j)] else [];
      assert PairAt(groups[i], groups[j], round) == Map(first, Listed(groups, round));
      MapAppend(first, VariantsOf(groups, round, i, j + 1), Listed(groups, round));
    }
  }

  lemma {:induction false} AllPairsAreVariants(groups: seq<NamedGroup>, round: real -> real, i: nat)
    requires i <= |groups|
    ensures AllPairs(groups, round, i) == Map(AllVariants(groups, round, i), Listed(groups, round))
    decreases |groups| - i
  {
    hide Listed; hide PairsOf; hide VariantsOf;
    if i < |groups| {
      AllPairsAreVariants(groups, round, i + 1);
      PairsAreVariants(groups, round, i, i + 1);
      MapAppend(VariantsOf(groups, round, i, i + 1), AllVariants(groups, round, i + 1), Listed(groups, round));
    }
  }

  /** Two lists in order, every pair of the first before every pair of the second. */
  lemma {:induction false} AppendInOrder(x: seq<Pair>, y: seq<Pair>)
    requires InOrder(x) && InOrder(y) && forall p, q :: p in x && q in y ==> Before(p, q)
    ensures InOrder(x + y)
  {
    hide Before;
    var all := x + y;
    forall k, l | 0 <= k < l < |all| ensures Before(all[k], all[l]) {
      if k < |x| <= l { assert all[k] in x && all[l] in y; }
    }
  }

  lemma {:induction false} VariantsFacts(groups: seq<NamedGroup>, round: real -> real, i: nat, j: nat)
    requires j <= |groups|
    ensures var v := VariantsOf(groups, round, i, j);
            (forall p :: p in v <==> p.first == i && j <= p.second && IsVariant(groups, round, p)) && InOrder(v)
    decreases |groups| - j
  {
    hide Similar;
    if j < |groups| {
      VariantsFacts(groups, round, i, j + 1);
      hide IsVariant;
      AppendInOrder(if IsVariant(groups, round, Pair(i, j)) then [Pair(i, j)] else [],
                    VariantsOf(groups, round, i, j + 1));
    }
  }

  lemma {:induction false} AllVariantsFacts(groups: seq<NamedGroup>, round: real -> real, i: nat)
    requires i <= |groups|
    ensures var v := AllVariants(groups, round, i);
            (forall p :: p in v <==> i <= p.first && IsVariant(groups, round, p)) && InOrder(v)
    decreases |groups| - i
  {
    hide Similar; hide VariantsOf;
    if i < |groups| {
      AllVariantsFacts(groups, round, i + 1);
      VariantsFacts(groups, round, i, i + 1);
      AppendInOrder(VariantsOf(groups, round, i, i + 1), AllVariants(groups, round, i + 1));
    }
  }

  ghost function BySimilarity(groups: seq<NamedGroup>, round: real -> real): (Pair, Pair) -> bool {
    (p: Pair, q: Pair) => MoreSimilar(Listed(groups, round)(p), Listed(groups, round)(q))
  }

  ghost function RatioOf(groups: seq<NamedGroup>, round: real -> real, p: Pair): real { Listed(groups, round)(p).ratio }

  /** The pairs listed are the variants, each once; a more similar pair comes first, and of
    * equally similar ones the one with the earlier first group, then the earlier second.
    */
  ghost predicate IsListing(groups: seq<NamedGroup>, round: real -> real, pairs: seq<Pair>) {
    && NoRepeats(pairs) && (forall p :: p in pairs <==> IsVariant(groups, round, p))
    && forall k, l :: 0 <= k < l < |pairs| ==> ListedBefore(groups, round, pairs[k], pairs[l])
  }

  ghost predicate ListedBefore(groups: seq<NamedGroup>, round: real -> real, p: Pair, q: Pair) {
    || RatioOf(groups, round, p) > RatioOf(groups, round, q)
    || (RatioOf(groups, round, p) == RatioOf(groups, round, q) && Before(p, q))
  }

  lemma {:induction false} SimilarityOrder(groups: seq<NamedGroup>, round: real -> real)
    ensures Sorting.TotalPreorder(BySimilarity(groups, round))
  {
    hide Listed;
    var leq := BySimilarity(groups, round);
    forall x, y ensures leq(x, y) <==> RatioOf(groups, round, x) >= RatioOf(groups, round, y) {}
    hide BySimilarity; hide RatioOf;
  }

  lemma {:induction false} InOrderFacts(v: seq<Pair>)
    requires InOrder(v)
    ensures NoRepeats(v) && Sorting.Sorted(v, Before)
  {
  }

  lemma {:induction false} SortedListing(groups: seq<NamedGroup>, round: real -> real, all: seq<Pair>, k: nat, l: nat)
    requires InOrder(all) && k < l < |Sorting.Sort(all, BySimilarity(groups, round))|
    ensures var pairs := Sorting.Sort(all, BySimilarity(groups, round));
            ListedBefore(groups, round, pairs[k], pairs[l])
  {
    var leq := BySimilarity(groups, round);
    var pairs := Sorting.Sort(all, leq);
    SimilarityOrder(groups, round);
    InOrderFacts(all);
    Sorting.SortSorted(all, leq);
    hide Listed; hide Sorting.Sort; hide InOrder; hide Before;
    assert leq(pairs[k], pairs[l]);
    if leq(pairs[l], pairs[k]) { Sorting.SortKeepsOrder(all, leq, Before, k, l); }
  }

  /** What the pruned pass returns lists the variants in that order. */
  lemma {:induction false} CandidatesListVariants(groups: seq<NamedGroup>, round: real -> real,
                                                  candidates: seq<Candidate>) returns (pairs: seq<Pair>)
    requires candidates == Sorting.Sort(AllPairs(groups, round, 0), MoreSimilar)
    ensures IsListing(groups, round, pairs) && candidates == Map(pairs, Listed(groups, round))
  {
    var all, leq := AllVariants(groups, round, 0), BySimilarity(groups, round);
    hide Listed; hide AllVariants; hide AllPairs; hide Similar; hide IsVariant; hide Sorting.Sort; hide ListedBefore;
    AllPairsAreVariants(groups, round, 0);
    AllVariantsFacts(groups, round, 0);
    InOrderFacts(all);
    Images.SortMaps(all, Listed(groups, round), leq, MoreSimilar);
    pairs := Sorting.Sort(all, leq);
    Sorting.SortPermutes(all, leq);
    Sorting.SameMembers(pairs, all);
    StillNoRepeats(all, pairs);
    forall k, l | 0 <= k < l < |pairs| ensures ListedBefore(groups, round, pairs[k], pairs[l]) {
      SortedListing(groups, round, all, k, l);
    }
  }
}
