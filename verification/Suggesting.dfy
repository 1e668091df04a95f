/** The files to pre-select: the best system's best primary, and its join files. */
module Suggesting {
  import opened Options
  import opened FileSelection
  import opened Lists
  import Sorting
  import Text

  datatype Entry = Entry(fileName: string, meta: Meta)

  datatype Suggestion = Suggestion(pms: Option<string>, selected: seq<string>, alternatives: seq<(string, string)>)

  // ---------------------------------------------------------------- ranking

  datatype Rank = Rank(priority: int, fileName: string)

  /** Higher priority first, then file name. */
  predicate RankLeq(a: Rank, b: Rank) {
    a.priority > b.priority || (a.priority == b.priority && Text.StringLeq(a.fileName, b.fileName))
  }

  function NameOf(e: Entry): string { e.fileName }
  function KindOf(e: Entry): string { e.meta.name }
  function SystemOf(e: Entry): string { e.meta.pms }

  function RankOf(e: Entry): Rank { Rank(e.meta.priority, e.fileName) }

  predicate Before(a: Entry, b: Entry) { RankLeq(RankOf(a), RankOf(b)) }

  lemma {:induction false} RankOrder()
    ensures Sorting.TotalPreorder(RankLeq) && Sorting.Antisymmetric(RankLeq) && Sorting.TotalPreorder(Before)
  {
    Text.StringOrder();
    hide Text.StringLeq;
  }

  lemma {:induction false} BeforeItself(e: Entry)
    ensures Before(e, e)
  {
    Text.StringLeqTotal(e.fileName, e.fileName);
  }

  lemma {:induction false} SameRankIf(x: Entry, y: Entry)
    requires Before(x, y) && Before(y, x)
    ensures RankOf(x) == RankOf(y)
  {
    Text.StringLeqAntisymmetric(x.fileName, y.fileName);
  }

  function Ranked(s: seq<Entry>): seq<Entry> { Sorting.Sort(s, Before) }

  lemma {:induction false} RankedFacts(s: seq<Entry>)
    ensures Sorting.Sorted(Ranked(s), Before) && multiset(Ranked(s)) == multiset(s) && |Ranked(s)| == |s|
    ensures forall e :: e in Ranked(s) <==> e in s
  {
    RankOrder();
    Sorting.SortSorted(s, Before);
    Sorting.SortPermutes(s, Before);
    Sorting.SameMembers(Ranked(s), s);
  }

  /** Entries in rank order have their ranks in order, and permuted entries the same ranks. */
  lemma {:induction false} SameRanks(a: seq<Entry>, b: seq<Entry>)
    requires Sorting.Sorted(a, Before) && Sorting.Sorted(b, Before)
             && multiset(Map(a, RankOf)) == multiset(Map(b, RankOf))
    ensures Map(a, RankOf) == Map(b, RankOf)
  {
    RankOrder();
    Sorting.SortedPermutationUnique(Map(a, RankOf), Map(b, RankOf), RankLeq);
  }

  function FileNames(s: seq<Entry>): seq<string> { Map(s, NameOf) }

  lemma {:induction false} SameNames(a: seq<Entry>, b: seq<Entry>)
    requires Map(a, RankOf) == Map(b, RankOf)
    ensures FileNames(a) == FileNames(b)
  {
    assert |a| == |Map(a, RankOf)| && |b| == |Map(b, RankOf)|;
    forall i | 0 <= i < |a| ensures a[i].fileName == b[i].fileName { assert Map(a, RankOf)[i] == Map(b, RankOf)[i]; }
  }

  // ---------------------------------------------------------------- one file per kind

  predicate HasKind(s: seq<Entry>, kind: string) { exists k :: 0 <= k < |s| && s[k].meta.name == kind }

  /** The first entry of each kind. */
  function Picks(s: seq<Entry>): seq<Entry> {
    if s == [] then []
    else
      var before, e := Picks(s[..|s| - 1]), s[|s| - 1];
      if HasKind(before, e.meta.name) then before else before + [e]
  }

  predicate DistinctKinds(s: seq<Entry>) { forall i, j :: 0 <= i < j < |s| ==> s[i].meta.name != s[j].meta.name }

  /** Some pick is of `e`'s kind and ranked no later. */
  ghost predicate Represented(picks: seq<Entry>, e: Entry) {
    exists k :: 0 <= k < |picks| && picks[k].meta.name == e.meta.name && Before(picks[k], e)
  }

  ghost predicate PicksOk(picks: seq<Entry>, s: seq<Entry>) {
    && DistinctKinds(picks) && Sorting.Sorted(picks, Before)
    && (forall k :: 0 <= k < |picks| ==> picks[k] in s)
    && (forall i :: 0 <= i < |s| ==> Represented(picks, s[i]))
  }

  lemma {:induction false} SkipPick(picks: seq<Entry>, s: seq<Entry>, e: Entry)
    requires PicksOk(picks, s) && (forall i :: 0 <= i < |s| ==> Before(s[i], e)) && HasKind(picks, e.meta.name)
    ensures PicksOk(picks, s + [e])
  {
    hide Before;
    var k :| 0 <= k < |picks| && picks[k].meta.name == e.meta.name;
    assert picks[k] in s;
    assert Represented(picks, e);
  }

  lemma {:induction false} TakePick(picks: seq<Entry>, s: seq<Entry>, e: Entry)
    requires PicksOk(picks, s) && (forall i :: 0 <= i < |s| ==> Before(s[i], e)) && !HasKind(picks, e.meta.name)
    ensures PicksOk(picks + [e], s + [e])
  {
    BeforeItself(e);
    hide Before;
    var more := picks + [e];
    forall k | 0 <= k < |picks|
      ensures Before(picks[k], e) && picks[k].meta.name != e.meta.name
    {
      assert picks[k] in s;
    }
    forall x | Represented(picks, x) ensures Represented(more, x) {
      var k :| 0 <= k < |picks| && picks[k].meta.name == x.meta.name && Before(picks[k], x);
      assert more[k] == picks[k];
    }
    assert more[|picks|] == e && Represented(more, e);
  }

  lemma {:induction false} NoPicks()
    ensures PicksOk([], [])
  {
  }

  lemma {:induction false} PicksFacts(s: seq<Entry>)
    requires Sorting.Sorted(s, Before)
    ensures PicksOk(Picks(s), s)
    decreases |s|
  {
    hide PicksOk; hide Before; hide HasKind;
    if s == [] {
      NoPicks();
    } else {
      var n := |s| - 1;
      PicksFacts(s[..n]);
      assert s == s[..n] + [s[n]];
      if HasKind(Picks(s[..n]), s[n].meta.name) {
        SkipPick(Picks(s[..n]), s[..n], s[n]);
      } else {
        TakePick(Picks(s[..n]), s[..n], s[n]);
      }
    }
  }

  lemma {:induction false} BestOf(s: seq<Entry>, e: Entry) returns (best: Entry)
    requires Sorting.Sorted(s, Before) && e in s
    ensures best in Picks(s) && best in s && best.meta.name == e.meta.name && Before(best, e)
  {
    PicksFacts(s);
    hide Picks; hide Before;
    var i :| 0 <= i < |s| && s[i] == e;
    assert Represented(Picks(s), s[i]);
    var k :| 0 <= k < |Picks(s)| && Picks(s)[k].meta.name == e.meta.name && Before(Picks(s)[k], e);
    best := Picks(s)[k];
  }

  datatype KindRank = KindRank(kind: string, rank: Rank)

  function KindRankOf(e: Entry): KindRank { KindRank(e.meta.name, RankOf(e)) }

  lemma {:induction false} PickOfSame(s: seq<Entry>, x: Entry)
    requires PicksOk(Picks(s), s) && x in Picks(s)
    ensures x in s && DistinctKinds(Picks(s))
  {
    hide Picks; hide Before;
  }

  lemma {:induction false} OnePickPerKind(picks: seq<Entry>, x: Entry, y: Entry)
    requires DistinctKinds(picks) && x in picks && y in picks && x.meta.name == y.meta.name
    ensures x == y
  {
    var i :| 0 <= i < |picks| && picks[i] == x;
    var j :| 0 <= j < |picks| && picks[j] == y;
    assert i == j;
  }

  /** Each kind is picked at its best rank, whatever the order of the files. */
  lemma {:induction false} SamePick(a: seq<Entry>, b: seq<Entry>, x: Entry)
    requires Sorting.Sorted(a, Before) && Sorting.Sorted(b, Before) && multiset(a) == multiset(b) && x in Picks(a)
    ensures KindRankOf(x) in Map(Picks(b), KindRankOf)
  {
    PicksFacts(a);
    Sorting.SameMembers(a, b);
    var p, q := Picks(a), Picks(b);
    hide Picks; hide Before;
    hide PicksOk; hide Sorting.Sorted;
    PickOfSame(a, x);
    assert x in b;
    var y := BestOf(b, x);
    var z := BestOf(a, y);
    OnePickPerKind(p, x, z);
    SameRankIf(y, x);
    var k :| 0 <= k < |q| && q[k] == y;
    assert Map(q, KindRankOf)[k] == KindRankOf(x);
  }

  lemma {:induction false} PicksIncluded(a: seq<Entry>, b: seq<Entry>, x: KindRank)
    requires Sorting.Sorted(a, Before) && Sorting.Sorted(b, Before) && multiset(a) == multiset(b)
             && x in Map(Picks(a), KindRankOf)
    ensures x in Map(Picks(b), KindRankOf)
  {
    hide Picks; hide Before;
    var p := Picks(a);
    var i :| 0 <= i < |p| && x == KindRankOf(p[i]);
    assert p[i] in p;
    SamePick(a, b, p[i]);
  }

  /** The names picked do not depend on the order of the files. */
  lemma {:induction false} PicksPermute(a: seq<Entry>, b: seq<Entry>)
    requires Sorting.Sorted(a, Before) && Sorting.Sorted(b, Before) && multiset(a) == multiset(b)
    ensures FileNames(Picks(a)) == FileNames(Picks(b))
  {
    var p, q := Picks(a), Picks(b);
    PicksFacts(a);
    PicksFacts(b);
    KindsNoRepeats(p);
    KindsNoRepeats(q);
    hide Picks; hide Before; hide KindRankOf; hide DistinctKinds;
    forall x ensures x in Map(p, KindRankOf) <==> x in Map(q, KindRankOf) {
      if x in Map(p, KindRankOf) { PicksIncluded(a, b, x); }
      if x in Map(q, KindRankOf) { PicksIncluded(b, a, x); }
    }
    NoRepeatsPermutes(Map(p, KindRankOf), Map(q, KindRankOf));
    MapPermutes(Map(p, KindRankOf), Map(q, KindRankOf), TheRank);
    RanksOfKindRanks(p);
    RanksOfKindRanks(q);
    SameRanks(p, q);
    SameNames(p, q);
  }

  function TheRank(x: KindRank): Rank { x.rank }

  lemma {:induction false} RanksOfKindRanks(p: seq<Entry>)
    ensures Map(Map(p, KindRankOf), TheRank) == Map(p, RankOf)
  {
  }

  lemma {:induction false} KindsNoRepeats(p: seq<Entry>)
    requires DistinctKinds(p)
    ensures NoRepeats(Map(p, KindRankOf))
  {
  }

  // ---------------------------------------------------------------- the best system

  function OfSystem(pms: string): Entry -> bool { (e: Entry) => e.meta.pms == pms }

  predicate Has(s: seq<Entry>, pms: string) { exists i :: 0 <= i < |s| && s[i].meta.pms == pms }

  /** The best priority among the system's entries. */
  function Top(s: seq<Entry>, pms: string): int
    requires Has(s, pms)
  {
    var n := |s| - 1;
    if !Has(s[..n], pms) then s[n].meta.priority
    else if s[n].meta.pms == pms && s[n].meta.priority > Top(s[..n], pms) then s[n].meta.priority
    else Top(s[..n], pms)
  }

  lemma {:induction false} TopIs(s: seq<Entry>, pms: string)
    requires Has(s, pms)
    ensures exists e :: e in s && e.meta.pms == pms && e.meta.priority == Top(s, pms)
    ensures forall e :: e in s && e.meta.pms == pms ==> e.meta.priority <= Top(s, pms)
    decreases |s|
  {
    var n := |s| - 1;
    assert s == s[..n] + [s[n]];
    if Has(s[..n], pms) {
      TopIs(s[..n], pms);
    } else {
      assert forall e :: e in s[..n] ==> e.meta.pms != pms;
    }
    assert s[n] in s;
  }

  function Count(s: seq<Entry>, pms: string): nat { |Keep(s, OfSystem(pms))| }

  /** Better top priority, then more primaries, then name order. */
  predicate Beats(s: seq<Entry>, p: string, q: string)
    requires Has(s, p) && Has(s, q)
  {
    || Top(s, p) > Top(s, q)
    || (Top(s, p) == Top(s, q) && (Count(s, p) > Count(s, q) || (Count(s, p) == Count(s, q) && Text.StringLeq(p, q))))
  }

  ghost predicate IsBest(s: seq<Entry>, p: string) {
    Has(s, p) && forall q :: Has(s, q) ==> Beats(s, p, q)
  }

  lemma {:induction false} BestUnique(s: seq<Entry>, p: string, q: string)
    requires IsBest(s, p) && IsBest(s, q)
    ensures p == q
  {
    assert Beats(s, p, q) && Beats(s, q, p);
    Text.StringLeqAntisymmetric(p, q);
  }

  lemma {:induction false} BestPermutes(a: seq<Entry>, b: seq<Entry>, p: string)
    requires multiset(a) == multiset(b) && IsBest(a, p)
    ensures IsBest(b, p)
  {
    forall q ensures Has(a, q) <==> Has(b, q) { HasPermutes(a, b, q); HasPermutes(b, a, q); }
    forall q | Has(b, q) ensures Has(b, p) && Beats(b, p, q) {
      assert Beats(a, p, q);
      SameStanding(a, b, p);
      SameStanding(a, b, q);
    }
  }

  lemma {:induction false} HasPermutes(a: seq<Entry>, b: seq<Entry>, pms: string)
    requires multiset(a) == multiset(b)
    ensures Has(a, pms) ==> Has(b, pms)
  {
    Sorting.SameMembers(a, b);
    if Has(a, pms) {
      var i :| 0 <= i < |a| && a[i].meta.pms == pms;
      assert a[i] in a && a[i] in b;
    }
  }

  lemma {:induction false} SameStanding(a: seq<Entry>, b: seq<Entry>, pms: string)
    requires multiset(a) == multiset(b) && Has(a, pms) && Has(b, pms)
    ensures Top(a, pms) == Top(b, pms) && Count(a, pms) == Count(b, pms)
  {
    Sorting.SameMembers(a, b);
    TopIs(a, pms);
    TopIs(b, pms);
    KeepPermutes(a, b, OfSystem(pms));
    hide Top; hide Keep;
  }

  lemma {:induction false} BeatsTotal(s: seq<Entry>, p: string, q: string)
    requires Has(s, p) && Has(s, q)
    ensures Beats(s, p, q) || Beats(s, q, p)
  {
    Text.StringLeqTotal(p, q);
  }

  lemma {:induction false} BeatsTransitive(s: seq<Entry>, p: string, q: string, r: string)
    requires Has(s, p) && Has(s, q) && Has(s, r) && Beats(s, p, q) && Beats(s, q, r)
    ensures Beats(s, p, r)
  {
    hide Top; hide Keep;
    if Text.StringLeq(p, q) && Text.StringLeq(q, r) { Text.StringLeqTransitive(p, q, r); }
  }

  method BestSystem(primaries: seq<Entry>) returns (best: string)
    requires primaries != []
    ensures IsBest(primaries, best)
  {
    hide Beats; hide Has; hide Sorting.Sort; hide Text.StringLeq;
    var names := Sorting.Sort(Map(primaries, SystemOf), Text.StringLeq);
    SystemNames(primaries);
    best := names[0];
    assert names[0] in names;
    BeatsTotal(primaries, best, best);
    for k := 1 to |names|
      invariant Has(primaries, best)
      invariant forall i :: 0 <= i < k ==> Has(primaries, names[i]) && Beats(primaries, best, names[i])
    {
      var next := names[k];
      assert names[k] in names;
      BeatsTotal(primaries, best, next);
      BeatsTotal(primaries, next, next);
      if !Beats(primaries, best, next) {
        forall i | 0 <= i < k
          ensures Beats(primaries, next, names[i])
        {
          BeatsTransitive(primaries, next, best, names[i]);
        }
        best := next;
      }
    }
    forall q | Has(primaries, q) ensures Beats(primaries, best, q) {
      assert q in names;
    }
  }

  lemma {:induction false} SystemNames(primaries: seq<Entry>)
    requires primaries != []
    ensures var names := Sorting.Sort(Map(primaries, SystemOf), Text.StringLeq);
            names != [] && forall q :: q in names <==> Has(primaries, q)
  {
    var column := Map(primaries, SystemOf);
    Sorting.SortPermutes(column, Text.StringLeq);
    Sorting.SameMembers(Sorting.Sort(column, Text.StringLeq), column);
    assert column[0] in column;
    forall q ensures q in column <==> Has(primaries, q) {
      if Has(primaries, q) {
        var i :| 0 <= i < |primaries| && primaries[i].meta.pms == q;
        assert column[i] == q;
      }
    }
  }

  // ---------------------------------------------------------------- the suggestion

  function Entries(files: seq<File>): seq<Entry> {
    if files == [] then []
    else
      var f := files[|files| - 1];
      Entries(files[..|files| - 1]) + if f.format.Some? then [Entry(f.fileName, f.format.value)] else []
  }

  function OfRole(role: Role): Entry -> bool { (e: Entry) => e.meta.role == role }

  function Primaries(files: seq<File>): seq<Entry> { Keep(Entries(files), OfRole(Primary)) }

  /** The system's primaries, best first. */
  function Contenders(files: seq<File>, pms: string): seq<Entry> { Ranked(Keep(Primaries(files), OfSystem(pms))) }

  /** The system's join files, best first. */
  function Joins(files: seq<File>, pms: string): seq<Entry> {
    Ranked(Keep(Keep(Entries(files), OfRole(Join)), OfSystem(pms)))
  }

  function Alternatives(losers: seq<Entry>, chosen: string): seq<(string, string)> {
    Map(losers, (e: Entry) => (e.fileName, chosen))
  }

  /** What is suggested around system `pms`. */
  function SuggestionFor(files: seq<File>, pms: string): Suggestion
    requires Contenders(files, pms) != []
  {
    var ranked := Contenders(files, pms);
    Suggestion(Some(pms), [ranked[0].fileName] + FileNames(Picks(Joins(files, pms))),
               Alternatives(ranked[1..], ranked[0].fileName))
  }

  /** Without a primary, only a system to show. */
  function ShowOnly(files: seq<File>): Suggestion {
    Suggestion(if Entries(files) == [] then None else Some(Entries(files)[0].meta.pms), [], [])
  }

  ghost predicate IsSuggestion(files: seq<File>, s: Suggestion) {
    if Primaries(files) == [] then s == ShowOnly(files)
    else exists pms :: IsBest(Primaries(files), pms) && Contenders(files, pms) != [] && s == SuggestionFor(files, pms)
  }

  lemma {:induction false} ContendersExist(files: seq<File>, pms: string)
    requires Has(Primaries(files), pms)
    ensures Contenders(files, pms) != []
  {
    var of := Keep(Primaries(files), OfSystem(pms));
    var i :| 0 <= i < |Primaries(files)| && Primaries(files)[i].meta.pms == pms;
    assert Primaries(files)[i] in Primaries(files);
    KeepMembers(Primaries(files), OfSystem(pms));
    RankedFacts(of);
  }

  // ---------------------------------------------------------------- suggestions run

  function AsFile(e: Entry): File { File(e.fileName, Some(e.meta)) }

  lemma {:induction false} EntriesCount(files: seq<File>, e: Entry)
    ensures multiset(Entries(files))[e] == multiset(files)[AsFile(e)]
  {
    if files != [] {
      var n := |files| - 1;
      EntriesCount(files[..n], e);
      assert files == files[..n] + [files[n]];
    }
  }

  lemma {:induction false} EntryIsFile(files: seq<File>, e: Entry)
    requires e in Entries(files)
    ensures AsFile(e) in files
  {
    EntriesCount(files, e);
    assert e in multiset(Entries(files));
    assert AsFile(e) in multiset(files);
  }

  /** The files behind a suggestion. */
  function Chosen(files: seq<File>, pms: string): seq<File>
    requires Contenders(files, pms) != []
  {
    [AsFile(Contenders(files, pms)[0])] + Map(Picks(Joins(files, pms)), AsFile)
  }

  lemma {:induction false} ContenderFacts(files: seq<File>, pms: string, e: Entry)
    requires e in Contenders(files, pms)
    ensures e.meta.pms == pms && e.meta.role == Primary && AsFile(e) in files
  {
    RankedFacts(Keep(Primaries(files), OfSystem(pms)));
    KeepMembers(Primaries(files), OfSystem(pms));
    KeepMembers(Entries(files), OfRole(Primary));
    EntryIsFile(files, e);
  }

  lemma {:induction false} JoinFacts(files: seq<File>, pms: string, e: Entry)
    requires e in Joins(files, pms)
    ensures e.meta.pms == pms && e.meta.role == Join && AsFile(e) in files
  {
    var joins := Keep(Entries(files), OfRole(Join));
    RankedFacts(Keep(joins, OfSystem(pms)));
    KeepMembers(joins, OfSystem(pms));
    KeepMembers(Entries(files), OfRole(Join));
    EntryIsFile(files, e);
  }

  lemma {:induction false} ChosenRuns(files: seq<File>, pms: string)
    requires Contenders(files, pms) != []
    ensures Runnable(Chosen(files, pms)) && forall f :: f in Chosen(files, pms) ==> f in files
  {
    var chosen, picks := Chosen(files, pms), Picks(Joins(files, pms));
    var first := Contenders(files, pms)[0];
    assert first in Contenders(files, pms);
    ContenderFacts(files, pms, first);
    RankedFacts(Keep(Keep(Entries(files), OfRole(Join)), OfSystem(pms)));
    PicksFacts(Joins(files, pms));
    hide Picks; hide Joins; hide Contenders; hide Before; hide Represented;
    forall k | 0 <= k < |picks|
      ensures picks[k].meta.pms == pms && picks[k].meta.role == Join && AsFile(picks[k]) in files
    {
      JoinFacts(files, pms, picks[k]);
    }
    RunsWith(first, picks, pms);
  }

  lemma {:induction false} RunsWith(first: Entry, picks: seq<Entry>, pms: string)
    requires first.meta.pms == pms && first.meta.role == Primary && DistinctKinds(picks)
    requires forall k :: 0 <= k < |picks| ==> picks[k].meta.pms == pms && picks[k].meta.role == Join
    ensures Runnable([AsFile(first)] + Map(picks, AsFile))
  {
    var chosen := [AsFile(first)] + Map(picks, AsFile);
    assert forall k :: 0 < k < |chosen| ==> chosen[k] == AsFile(picks[k - 1]);
    assert RunsAround(chosen, 0);
  }

  /** A suggestion that selects anything selects files of the folder that can run together. */
  lemma {:induction false} SuggestionsRun(files: seq<File>, s: Suggestion) returns (chosen: seq<File>)
    requires IsSuggestion(files, s) && s.selected != []
    ensures s.selected == Map(chosen, FileNameOf) && Runnable(chosen) && forall f :: f in chosen ==> f in files
  {
    hide Contenders; hide Picks; hide Joins; hide Primaries; hide IsBest; hide Runnable; hide Entries; hide Chosen;
    var pms :| IsBest(Primaries(files), pms) && Contenders(files, pms) != [] && s == SuggestionFor(files, pms);
    chosen := Chosen(files, pms);
    ChosenRuns(files, pms);
    ChosenNames(files, pms);
  }

  function FileNameOf(f: File): string { f.fileName }

  lemma {:induction false} ChosenNames(files: seq<File>, pms: string)
    requires Contenders(files, pms) != []
    ensures SuggestionFor(files, pms).selected == Map(Chosen(files, pms), FileNameOf)
  {
    hide Contenders; hide Picks; hide Joins;
  }

  // ---------------------------------------------------------------- what is suggested

  predicate IsOf(f: File, role: Role, pms: string) { Is(f, role) && f.format.value.pms == pms }

  /** `f` has the higher priority, or the same and a name no later. */
  predicate NoLater(f: File, g: File)
    requires f.format.Some? && g.format.Some?
  {
    var x, y := f.format.value.priority, g.format.value.priority;
    x > y || (x == y && Text.StringLeq(f.fileName, g.fileName))
  }

  /** The system's primaries among the files, each as often, best first. */
  ghost predicate AreRankedPrimaries(files: seq<File>, pms: string, ranked: seq<File>) {
    && (forall f :: multiset(ranked)[f] == if IsOf(f, Primary, pms) then multiset(files)[f] else 0)
    && (forall i :: 0 <= i < |ranked| ==> IsOf(ranked[i], Primary, pms))
    && (forall i, j :: 0 <= i < j < |ranked| ==> NoLater(ranked[i], ranked[j]))
  }

  /** One of the system's join files per kind, the best of its kind, best first. */
  ghost predicate AreBestJoins(files: seq<File>, pms: string, joins: seq<File>) {
    && (forall i :: 0 <= i < |joins| ==> IsOf(joins[i], Join, pms) && joins[i] in files)
    && (forall i, j :: 0 <= i < j < |joins| ==>
          NoLater(joins[i], joins[j]) && joins[i].format.value.name != joins[j].format.value.name)
    && (forall f :: f in files && IsOf(f, Join, pms) ==> HasBetter(joins, f))
  }

  /** One of the joins is of the kind of `f` and ranked no later. */
  ghost predicate HasBetter(joins: seq<File>, f: File)
    requires f.format.Some?
  {
    exists k :: 0 <= k < |joins| && joins[k].format.Some? && joins[k].format.value.name == f.format.value.name
                && NoLater(joins[k], f)
  }

  /** The system has a primary of that priority and none of a higher one. */
  ghost predicate HasTop(files: seq<File>, pms: string, priority: int) {
    && (exists f :: f in files && IsOf(f, Primary, pms) && f.format.value.priority == priority)
    && (forall f :: f in files && IsOf(f, Primary, pms) ==> f.format.value.priority <= priority)
  }

  /** The places of the system's primaries. */
  function PrimariesOf(files: seq<File>, pms: string): set<nat> {
    set i: nat | i < |files| && IsOf(files[i], Primary, pms)
  }

  /** No system has a primary of higher priority; of those whose best is as high none has more
    * primaries; and of those with as many none has an earlier name.
    */
  ghost predicate IsBestSystem(files: seq<File>, pms: string) {
    exists top :: HasTop(files, pms, top) && forall q, x :: HasTop(files, q, x) ==>
      var n, m := |PrimariesOf(files, pms)|, |PrimariesOf(files, q)|;
      top > x || (top == x && (n > m || (n == m && Text.StringLeq(pms, q))))
  }

  /** The best primary and the best joins of the best system, and its other primaries as alternatives to the first. */
  ghost predicate Recommends(files: seq<File>, s: Suggestion, pms: string, ranked: seq<File>, joins: seq<File>) {
    && s.pms == Some(pms) && ranked != [] && IsBestSystem(files, pms)
    && AreRankedPrimaries(files, pms, ranked) && AreBestJoins(files, pms, joins)
    && s.selected == [ranked[0].fileName] + Map(joins, FileNameOf)
    && |s.alternatives| == |ranked| - 1
    && (forall i :: 0 <= i < |s.alternatives| ==> s.alternatives[i] == (ranked[i + 1].fileName, ranked[0].fileName))
  }

  /** Nothing is selected; the system of the first recognized file is shown, if there is one. */
  ghost predicate OnlyShows(files: seq<File>, s: Suggestion) {
    && s.selected == [] && s.alternatives == []
    && if s.pms.None? then forall f :: f in files ==> f.format.None?
       else exists i :: 0 <= i < |files| && files[i].format.Some? && files[i].format.value.pms == s.pms.value
                        && forall j :: 0 <= j < i ==> files[j].format.None?
  }

  ghost predicate HasPrimary(files: seq<File>) { exists f :: f in files && Is(f, Primary) }

  ghost predicate IsRecommendation(files: seq<File>, s: Suggestion) {
    if HasPrimary(files) then exists pms, ranked, joins :: Recommends(files, s, pms, ranked, joins)
    else OnlyShows(files, s)
  }

  lemma {:induction false} EntryPresent(files: seq<File>, f: File)
    requires f in files && f.format.Some?
    ensures Entry(f.fileName, f.format.value) in Entries(files)
  {
    var e := Entry(f.fileName, f.format.value);
    EntriesCount(files, e);
    hide Entries;
    assert AsFile(e) == f && f in multiset(files);
    assert e in multiset(Entries(files));
  }

  lemma {:induction false} PrimaryPresent(files: seq<File>, f: File)
    requires f in files && Is(f, Primary)
    ensures Entry(f.fileName, f.format.value) in Primaries(files)
  {
    EntryPresent(files, f);
    hide Entries; hide Keep;
    KeepMembers(Entries(files), OfRole(Primary));
  }

  lemma {:induction false} PrimariesPresent(files: seq<File>)
    ensures HasPrimary(files) <==> Primaries(files) != []
  {
    KeepMembers(Entries(files), OfRole(Primary));
    if HasPrimary(files) {
      var f :| f in files && Is(f, Primary);
      PrimaryPresent(files, f);
    }
    if Primaries(files) != [] {
      var e := Primaries(files)[0];
      assert e in Primaries(files);
      EntryIsFile(files, e);
    }
  }

  lemma {:induction false} FirstRecognized(files: seq<File>)
    ensures OnlyShows(files, ShowOnly(files))
  {
    if files != [] {
      var n := |files| - 1;
      FirstRecognized(files[..n]);
      assert files == files[..n] + [files[n]];
      var before := ShowOnly(files[..n]);
      if before.pms.Some? {
        var i :| 0 <= i < n && files[..n][i].format.Some? && files[..n][i].format.value.pms == before.pms.value
                 && forall j :: 0 <= j < i ==> files[..n][j].format.None?;
        assert files[i] == files[..n][i] && forall j :: 0 <= j < i ==> files[j] == files[..n][j];
      } else {
        assert forall j :: 0 <= j < n ==> files[j] in files[..n];
      }
    }
  }

  lemma {:induction false} ContendersRanked(files: seq<File>, pms: string)
    ensures AreRankedPrimaries(files, pms, Map(Contenders(files, pms), AsFile))
  {
    var ranked := Contenders(files, pms);
    var these := Map(ranked, AsFile);
    RankedFacts(Keep(Primaries(files), OfSystem(pms)));
    forall f ensures multiset(these)[f] == if IsOf(f, Primary, pms) then multiset(files)[f] else 0 {
      ContenderCount(files, pms, f);
    }
    forall i | 0 <= i < |these| ensures IsOf(these[i], Primary, pms) { ContenderFacts(files, pms, ranked[i]); }
    forall i, j | 0 <= i < j < |these| ensures NoLater(these[i], these[j]) { assert Before(ranked[i], ranked[j]); }
  }

  lemma {:induction false} ContenderCount(files: seq<File>, pms: string, f: File)
    ensures multiset(Map(Contenders(files, pms), AsFile))[f] == if IsOf(f, Primary, pms) then multiset(files)[f] else 0
  {
    var ranked := Contenders(files, pms);
    RankedFacts(Keep(Primaries(files), OfSystem(pms)));
    if f.format.Some? {
      var e := Entry(f.fileName, f.format.value);
      CountAsFile(ranked, e);
      KeepCount(Primaries(files), OfSystem(pms), e);
      KeepCount(Entries(files), OfRole(Primary), e);
      EntriesCount(files, e);
    } else {
      assert f !in Map(ranked, AsFile);
    }
  }

  lemma {:induction false} CountAsFile(s: seq<Entry>, e: Entry)
    ensures multiset(Map(s, AsFile))[AsFile(e)] == multiset(s)[e]
  {
    if s != [] {
      var n := |s| - 1;
      CountAsFile(s[..n], e);
      assert s == s[..n] + [s[n]];
      assert Map(s, AsFile) == Map(s[..n], AsFile) + [AsFile(s[n])];
    }
  }

  lemma {:induction false} JoinPresent(files: seq<File>, pms: string, f: File)
    requires f in files && IsOf(f, Join, pms)
    ensures Entry(f.fileName, f.format.value) in Joins(files, pms)
  {
    EntryPresent(files, f);
    hide Entries; hide Keep;
    KeepMembers(Entries(files), OfRole(Join));
    KeepMembers(Keep(Entries(files), OfRole(Join)), OfSystem(pms));
    RankedFacts(Keep(Keep(Entries(files), OfRole(Join)), OfSystem(pms)));
  }

  lemma {:induction false} PicksAreBest(files: seq<File>, pms: string)
    ensures AreBestJoins(files, pms, Map(Picks(Joins(files, pms)), AsFile))
  {
    var all := Joins(files, pms);
    var picks := Picks(all);
    var joins := Map(picks, AsFile);
    RankedFacts(Keep(Keep(Entries(files), OfRole(Join)), OfSystem(pms)));
    PicksFacts(all);
    hide Picks; hide Joins; hide Before; hide NoLater; hide Represented; hide HasBetter; hide Entries;
    forall i | 0 <= i < |joins| ensures IsOf(joins[i], Join, pms) && joins[i] in files {
      JoinFacts(files, pms, picks[i]);
    }
    PicksInOrder(picks);
    forall f | f in files && IsOf(f, Join, pms) ensures HasBetter(joins, f) {
      JoinPresent(files, pms, f);
      BetterPicked(all, picks, f);
    }
  }

  lemma {:induction false} PicksInOrder(picks: seq<Entry>)
    requires DistinctKinds(picks) && Sorting.Sorted(picks, Before)
    ensures var joins := Map(picks, AsFile);
            forall i, j :: 0 <= i < j < |joins| ==>
              NoLater(joins[i], joins[j]) && joins[i].format.value.name != joins[j].format.value.name
  {
    hide Text.StringLeq;
    var joins := Map(picks, AsFile);
    forall i, j | 0 <= i < j < |joins|
      ensures NoLater(joins[i], joins[j]) && joins[i].format.value.name != joins[j].format.value.name
    {
      assert Before(picks[i], picks[j]);
    }
  }

  lemma {:induction false} BetterPicked(all: seq<Entry>, picks: seq<Entry>, f: File)
    requires f.format.Some? && Entry(f.fileName, f.format.value) in all
    requires forall i :: 0 <= i < |all| ==> Represented(picks, all[i])
    ensures HasBetter(Map(picks, AsFile), f)
  {
    hide Text.StringLeq;
    var e, joins := Entry(f.fileName, f.format.value), Map(picks, AsFile);
    var i :| 0 <= i < |all| && all[i] == e;
    assert Represented(picks, all[i]);
    var k :| 0 <= k < |picks| && picks[k].meta.name == e.meta.name && Before(picks[k], e);
    assert joins[k] == AsFile(picks[k]);
  }

  lemma {:induction false} HasAnyIff(files: seq<File>, pms: string)
    ensures Has(Primaries(files), pms) <==> exists f :: f in files && IsOf(f, Primary, pms)
  {
    var all := Primaries(files);
    KeepMembers(Entries(files), OfRole(Primary));
    if Has(all, pms) {
      var i :| 0 <= i < |all| && all[i].meta.pms == pms;
      assert all[i] in all;
      EntryIsFile(files, all[i]);
      assert IsOf(AsFile(all[i]), Primary, pms);
    }
    if f :| f in files && IsOf(f, Primary, pms) {
      PrimaryPresent(files, f);
      var i :| 0 <= i < |all| && all[i] == Entry(f.fileName, f.format.value);
    }
  }

  lemma {:induction false} TopIsTop(files: seq<File>, pms: string)
    requires Has(Primaries(files), pms)
    ensures HasTop(files, pms, Top(Primaries(files), pms))
  {
    var all := Primaries(files);
    TopIs(all, pms);
    KeepMembers(Entries(files), OfRole(Primary));
    var e :| e in all && e.meta.pms == pms && e.meta.priority == Top(all, pms);
    EntryIsFile(files, e);
    assert IsOf(AsFile(e), Primary, pms);
    hide Top;
    forall f | f in files && IsOf(f, Primary, pms) ensures f.format.value.priority <= Top(all, pms) {
      PrimaryPresent(files, f);
      assert Entry(f.fileName, f.format.value).meta.pms == pms;
    }
  }

  lemma {:induction false} TopUnique(files: seq<File>, pms: string, x: int, y: int)
    requires HasTop(files, pms, x) && HasTop(files, pms, y)
    ensures x == y
  {
  }

  lemma {:induction false} CountIsPrimaries(files: seq<File>, pms: string)
    ensures Count(Primaries(files), pms) == |PrimariesOf(files, pms)|
    decreases |files|
  {
    if files == [] {
      assert PrimariesOf(files, pms) == {};
    } else {
      var n := |files| - 1;
      var rest, f := files[..n], files[n];
      CountIsPrimaries(rest, pms);
      assert PrimariesOf(files, pms) == PrimariesOf(rest, pms) + if IsOf(f, Primary, pms) then {n} else {};
      assert n !in PrimariesOf(rest, pms);
      if f.format.Some? {
        var e := Entry(f.fileName, f.format.value);
        assert Entries(files) == Entries(rest) + [e];
        KeepSnoc(Entries(rest), e, OfRole(Primary));
        if e.meta.role == Primary { KeepSnoc(Primaries(rest), e, OfSystem(pms)); }
      } else {
        assert Entries(files) == Entries(rest);
      }
    }
  }

  lemma {:induction false} BestIsBest(files: seq<File>, pms: string)
    requires IsBest(Primaries(files), pms)
    ensures IsBestSystem(files, pms)
  {
    var all := Primaries(files);
    TopIsTop(files, pms);
    CountIsPrimaries(files, pms);
    hide Primaries; hide Top; hide Count; hide HasTop; hide PrimariesOf; hide Text.StringLeq; hide Has;
    forall q, x | HasTop(files, q, x)
      ensures var n, m := |PrimariesOf(files, pms)|, |PrimariesOf(files, q)|;
              Top(all, pms) > x || (Top(all, pms) == x && (n > m || (n == m && Text.StringLeq(pms, q))))
    {
      TopMeansHas(files, q, x);
      TopIsTop(files, q);
      TopUnique(files, q, x, Top(all, q));
      CountIsPrimaries(files, q);
      assert Beats(all, pms, q);
    }
  }

  lemma {:induction false} TopMeansHas(files: seq<File>, q: string, x: int)
    requires HasTop(files, q, x)
    ensures Has(Primaries(files), q)
  {
    HasAnyIff(files, q);
  }

  lemma {:induction false} ChosenRecommends(files: seq<File>, s: Suggestion, pms: string)
    requires IsBest(Primaries(files), pms) && Contenders(files, pms) != [] && s == SuggestionFor(files, pms)
    ensures Recommends(files, s, pms, Map(Contenders(files, pms), AsFile), Map(Picks(Joins(files, pms)), AsFile))
  {
    hide Primaries; hide Entries; hide Contenders; hide Joins; hide Picks; hide IsBest;
    hide IsBestSystem; hide AreRankedPrimaries; hide AreBestJoins;
    var ranked, joins := Map(Contenders(files, pms), AsFile), Map(Picks(Joins(files, pms)), AsFile);
    ContendersRanked(files, pms);
    PicksAreBest(files, pms);
    BestIsBest(files, pms);
    assert s.selected == [ranked[0].fileName] + Map(joins, FileNameOf);
  }

  /** A suggestion names a primary that none of its system outranks, and of each kind of join
    * file the system has, one that none of its kind outranks; the other primaries are
    * its alternatives.
    */
  lemma {:induction false} SuggestionRecommends(files: seq<File>, s: Suggestion)
    requires IsSuggestion(files, s)
    ensures IsRecommendation(files, s)
  {
    PrimariesPresent(files);
    if HasPrimary(files) {
      hide Primaries; hide Entries; hide Contenders; hide Joins; hide Picks; hide IsBest;
      hide SuggestionFor; hide Recommends;
      var pms :| IsBest(Primaries(files), pms) && Contenders(files, pms) != [] && s == SuggestionFor(files, pms);
      ChosenRecommends(files, s, pms);
    } else {
      FirstRecognized(files);
    }
  }

  method Suggest(files: seq<File>) returns (s: Suggestion)
    ensures IsSuggestion(files, s) && IsRecommendation(files, s)
  {
    hide IsRecommendation; hide Entries; hide Keep; hide Ranked; hide Alternatives;
    var recognized := Entries(files);
    var primaries := Keep(recognized, OfRole(Primary));
    if primaries == [] {
      s := Suggestion(if recognized == [] then None else Some(recognized[0].meta.pms), [], []);
      SuggestionRecommends(files, s);
      return;
    }
    var pms := BestSystem(primaries);
    ContendersExist(files, pms);
    var ranked := Ranked(Keep(primaries, OfSystem(pms)));
    var chosen := ranked[0].fileName;
    var joins := Ranked(Keep(Keep(recognized, OfRole(Join)), OfSystem(pms)));
    var seenKinds, selected := [], [chosen];
    for k := 0 to |joins|
      invariant seenKinds == Map(Picks(joins[..k]), KindOf)
      invariant selected == [chosen] + FileNames(Picks(joins[..k]))
    {
      PickNext(joins, k);
      if joins[k].meta.name !in seenKinds {
        seenKinds := seenKinds + [joins[k].meta.name];
        selected := selected + [joins[k].fileName];
      }
    }
    assert joins[..|joins|] == joins;
    s := Suggestion(Some(pms), selected, Alternatives(ranked[1..], chosen));
    assert s == SuggestionFor(files, pms);
    SuggestionRecommends(files, s);
  }

  lemma {:induction false} PickNext(joins: seq<Entry>, k: nat)
    requires k < |joins|
    ensures var before, e := Picks(joins[..k]), joins[k];
            var seen := e.meta.name in Map(before, KindOf);
            && Picks(joins[..k + 1]) == (if seen then before else before + [e])
            && (!seen ==> Map(Picks(joins[..k + 1]), KindOf) == Map(before, KindOf) + [e.meta.name])
            && (!seen ==> FileNames(Picks(joins[..k + 1])) == FileNames(before) + [e.fileName])
  {
    var before, e := Picks(joins[..k]), joins[k];
    var kinds := Map(before, KindOf);
    assert joins[..k + 1][..k] == joins[..k];
    if HasKind(before, e.meta.name) {
      var i :| 0 <= i < |before| && before[i].meta.name == e.meta.name;
      assert kinds[i] == e.meta.name;
    }
  }

  // ---------------------------------------------------------------- order does not matter

  lemma {:induction false} EntriesPermute(a: seq<File>, b: seq<File>)
    requires multiset(a) == multiset(b)
    ensures multiset(Entries(a)) == multiset(Entries(b)) && multiset(Primaries(a)) == multiset(Primaries(b))
  {
    forall e ensures multiset(Entries(a))[e] == multiset(Entries(b))[e] { EntriesCount(a, e); EntriesCount(b, e); }
    SameCounts(multiset(Entries(a)), multiset(Entries(b)));
    KeepPermutes(Entries(a), Entries(b), OfRole(Primary));
  }

  lemma {:induction false} ContendersPermute(a: seq<File>, b: seq<File>, pms: string)
    requires multiset(Primaries(a)) == multiset(Primaries(b))
    ensures FileNames(Contenders(a, pms)) == FileNames(Contenders(b, pms))
  {
    var k, l := Keep(Primaries(a), OfSystem(pms)), Keep(Primaries(b), OfSystem(pms));
    KeepPermutes(Primaries(a), Primaries(b), OfSystem(pms));
    RankedFacts(k);
    RankedFacts(l);
    hide Keep; hide Ranked; hide Before;
    MapPermutes(Ranked(k), Ranked(l), RankOf);
    SameRanks(Ranked(k), Ranked(l));
    SameNames(Ranked(k), Ranked(l));
  }

  lemma {:induction false} JoinsPermute(a: seq<File>, b: seq<File>, pms: string)
    requires multiset(Entries(a)) == multiset(Entries(b))
    ensures FileNames(Picks(Joins(a, pms))) == FileNames(Picks(Joins(b, pms)))
  {
    var i, j := Keep(Entries(a), OfRole(Join)), Keep(Entries(b), OfRole(Join));
    KeepPermutes(Entries(a), Entries(b), OfRole(Join));
    KeepPermutes(i, j, OfSystem(pms));
    RankedFacts(Keep(i, OfSystem(pms)));
    RankedFacts(Keep(j, OfSystem(pms)));
    hide Keep; hide Ranked; hide Before;
    PicksPermute(Joins(a, pms), Joins(b, pms));
  }

  lemma {:induction false} AlternativesByName(a: seq<Entry>, b: seq<Entry>, chosen: string)
    requires FileNames(a) == FileNames(b) && a != []
    ensures b != [] && a[0].fileName == b[0].fileName && Alternatives(a[1..], chosen) == Alternatives(b[1..], chosen)
  {
    assert |FileNames(a)| == |a| && |FileNames(b)| == |b|;
    forall i | 0 <= i < |a| ensures a[i].fileName == b[i].fileName { assert FileNames(a)[i] == FileNames(b)[i]; }
  }

  /** With a primary among them, files in any order get the same suggestion. */
  lemma {:induction false} SuggestionIgnoresOrder(a: seq<File>, b: seq<File>, s: Suggestion, t: Suggestion)
    requires multiset(a) == multiset(b) && Primaries(a) != [] && IsSuggestion(a, s) && IsSuggestion(b, t)
    ensures s == t
  {
    EntriesPermute(a, b);
    assert |multiset(Primaries(a))| == |multiset(Primaries(b))|;
    hide Entries; hide Keep; hide IsBest; hide Contenders; hide Joins; hide Picks; hide Alternatives; hide FileNames;
    hide Primaries;
    var p :| IsBest(Primaries(a), p) && Contenders(a, p) != [] && s == SuggestionFor(a, p);
    var q :| IsBest(Primaries(b), q) && Contenders(b, q) != [] && t == SuggestionFor(b, q);
    BestPermutes(Primaries(a), Primaries(b), p);
    BestUnique(Primaries(b), p, q);
    ContendersPermute(a, b, p);
    JoinsPermute(a, b, p);
    AlternativesByName(Contenders(a, p), Contenders(b, p), Contenders(a, p)[0].fileName);
  }

  // ---------------------------------------------------------------- when order does matter

  /** Files in any other order get the same suggestion. */
  ghost predicate OrderIrrelevant(files: seq<File>) {
    forall other, s, t :: multiset(files) == multiset(other) && IsSuggestion(files, s) && IsSuggestion(other, t) ==>
        s == t
  }

  predicate OneSystem(files: seq<File>) {
    forall f, g :: f in files && g in files && f.format.Some? && g.format.Some? ==>
        f.format.value.pms == g.format.value.pms
  }

  lemma {:induction false} OneSystemShown(a: seq<File>, b: seq<File>)
    requires multiset(a) == multiset(b) && OneSystem(a)
    ensures ShowOnly(a) == ShowOnly(b)
  {
    EntriesPermute(a, b);
    assert |multiset(Entries(a))| == |multiset(Entries(b))|;
    if Entries(a) != [] {
      var e, f := Entries(a)[0], Entries(b)[0];
      assert f in multiset(Entries(b));
      assert f in multiset(Entries(a));
      EntryIsFile(a, e);
      EntryIsFile(a, f);
      hide Entries;
      assert AsFile(e).format.value.pms == AsFile(f).format.value.pms;
    }
  }

  lemma {:induction false} FirstEntry(f: File, rest: seq<File>)
    requires f.format.Some?
    ensures Entries([f] + rest) != [] && Entries([f] + rest)[0] == Entry(f.fileName, f.format.value)
  {
    if rest == [] {
      assert [f] + rest == [f] && [f][..0] == [];
    } else {
      var n := |rest| - 1;
      FirstEntry(f, rest[..n]);
      assert ([f] + rest)[..n + 1] == [f] + rest[..n];
    }
  }

  /** Some recognized file is of another system than the one shown. */
  lemma {:induction false} OtherSystem(files: seq<File>) returns (f: File)
    requires !OneSystem(files)
    ensures f in files && f.format.Some? && ShowOnly(files).pms.Some? && f.format.value.pms != ShowOnly(files).pms.value
  {
    var g, h :| g in files && h in files && g.format.Some? && h.format.Some?
        && g.format.value.pms != h.format.value.pms;
    var e := Entry(g.fileName, g.format.value);
    EntriesCount(files, e);
    assert AsFile(e) == g;
    assert g in multiset(files);
    assert e in multiset(Entries(files));
    f := if g.format.value.pms != ShowOnly(files).pms.value then g else h;
  }

  lemma {:induction false} MovedToFront(files: seq<File>, f: File) returns (moved: seq<File>)
    requires f in files && f.format.Some? && Primaries(files) == []
    ensures multiset(moved) == multiset(files) && Primaries(moved) == []
    ensures ShowOnly(moved).pms == Some(f.format.value.pms)
  {
    var i :| 0 <= i < |files| && files[i] == f;
    var rest := files[..i] + files[i + 1..];
    moved := [f] + rest;
    assert files == files[..i] + [f] + files[i + 1..];
    EntriesPermute(files, moved);
    assert |multiset(Primaries(moved))| == 0;
    FirstEntry(f, rest);
  }

  /** The order of the files matters exactly when no primary is among them and
    * the recognized ones are of more than one system.
    */
  lemma {:induction false} OrderIrrelevantIff(files: seq<File>)
    ensures OrderIrrelevant(files) <==> Primaries(files) != [] || OneSystem(files)
  {
    hide Entries; hide Primaries; hide SuggestionFor; hide ShowOnly; hide OneSystem;
    if Primaries(files) == [] && !OneSystem(files) {
      var f := OtherSystem(files);
      var moved := MovedToFront(files, f);
      assert IsSuggestion(files, ShowOnly(files)) && IsSuggestion(moved, ShowOnly(moved));
    } else {
      forall other, s, t | multiset(files) == multiset(other) && IsSuggestion(files, s) && IsSuggestion(other, t)
        ensures s == t
      {
        if Primaries(files) != [] {
          SuggestionIgnoresOrder(files, other, s, t);
        } else {
          EntriesPermute(files, other);
          assert |multiset(Primaries(other))| == 0;
          OneSystemShown(files, other);
        }
      }
    }
  }

  /** Two supporting files of different systems: each order shows the system of its first file. */
  lemma {:induction false} OrderMattersWithoutPrimary(f: File, g: File)
    requires Is(f, Supporting) && Is(g, Supporting) && f.format.value.pms != g.format.value.pms
    ensures multiset([f, g]) == multiset([g, f]) && Primaries([f, g]) == [] && Primaries([g, f]) == []
    ensures IsSuggestion([f, g], ShowOnly([f, g])) && IsSuggestion([g, f], ShowOnly([g, f]))
            && ShowOnly([f, g]) != ShowOnly([g, f])
  {
    hide Entries; hide Contenders; hide IsBest; hide SuggestionFor;
    TwoEntries(f, g);
    TwoEntries(g, f);
    KeepNone(Entries([f, g]), OfRole(Primary));
    KeepNone(Entries([g, f]), OfRole(Primary));
  }

  lemma {:induction false} TwoEntries(f: File, g: File)
    requires f.format.Some? && g.format.Some?
    ensures Entries([f, g]) == [Entry(f.fileName, f.format.value), Entry(g.fileName, g.format.value)]
  {
    assert [f, g][..1] == [f] && [f][..0] == [];
    assert Entries([f]) == [Entry(f.fileName, f.format.value)];
  }
}
