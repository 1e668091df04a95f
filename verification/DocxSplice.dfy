/** How a batch of edits is carried out: each edit becomes one fragment per touched
  * run, each touched run is rebuilt from its own fragments, and rebuilding the runs
  * one by one is substituting all fragments into the region's text at once.
  */
module DocxSplice {
  import opened DocxFlatten
  import opened DocxEdit
  import opened Numbers
  import Sorting

  ghost predicate Ready(f: FlatText, edits: seq<Splice>) {
    RunsOk(f.text, f.runs) && AllValid(edits) && AllOrderly(edits)
  }

  // ---------------------------------------------------------------- fragments

  predicate IsFirst(f: FlatText, e: Splice, i: nat) {
    RunsTouching(f.runs, e) != [] && RunsTouching(f.runs, e)[0] == i
  }

  /** The part of `e` inside run `i`, in the region's coordinates. Only the first touched run gets the text. */
  function Clip(f: FlatText, e: Splice, i: nat): Splice
    requires i < |f.runs|
  {
    Splice(Max(e.start, f.runs[i].flatStart), Min(e.end, f.runs[i].flatEnd), if IsFirst(f, e, i) then e.text else "")
  }

  lemma {:induction false} ClipShape(f: FlatText, e: Splice, i: nat)
    requires RunsOk(f.text, f.runs) && Valid(e) && i < |f.runs| && Touched(f.runs, e, i)
    ensures f.runs[i].flatStart <= Clip(f, e, i).start <= Clip(f, e, i).end <= f.runs[i].flatEnd
    ensures e.start <= Clip(f, e, i).start && Clip(f, e, i).end <= e.end
  {
  }

  /** The same in the run's own coordinates. */
  function Fragment(f: FlatText, e: Splice, i: nat): Splice
    requires RunsOk(f.text, f.runs) && Valid(e) && i < |f.runs| && Touched(f.runs, e, i)
  {
    ClipShape(f, e, i);
    var p, at := Clip(f, e, i), f.runs[i].flatStart;
    Splice(p.start - at, p.end - at, p.text)
  }

  /** The fragments run `i` gets, in the order of the edits. */
  function FragmentsFor(f: FlatText, edits: seq<Splice>, i: nat): seq<Splice>
    requires RunsOk(f.text, f.runs) && AllValid(edits) && i < |f.runs|
  {
    if edits == [] then []
    else
      assert Valid(edits[0]);
      (if Touched(f.runs, edits[0], i) then [Fragment(f, edits[0], i)] else []) + FragmentsFor(f, edits[1..], i)
  }

  lemma {:induction false} FragmentsCons(f: FlatText, e: Splice, edits: seq<Splice>, i: nat)
    requires RunsOk(f.text, f.runs) && AllValid(edits) && Valid(e) && i < |f.runs|
    ensures AllValid([e] + edits)
    ensures FragmentsFor(f, [e] + edits, i) ==
            if Touched(f.runs, e, i) then [Fragment(f, e, i)] + FragmentsFor(f, edits, i) else FragmentsFor(f, edits, i)
  {
    assert ([e] + edits)[1..] == edits;
  }

  lemma {:induction false} FragmentsAppend(f: FlatText, edits: seq<Splice>, e: Splice, i: nat)
    requires RunsOk(f.text, f.runs) && AllValid(edits) && Valid(e) && i < |f.runs|
    ensures FragmentsFor(f, edits + [e], i) ==
            FragmentsFor(f, edits, i) + if Touched(f.runs, e, i) then [Fragment(f, e, i)] else []
    decreases |edits|
  {
    if edits == [] {
      assert edits + [e] == [e];
    } else {
      assert (edits + [e])[1..] == edits[1..] + [e];
      FragmentsAppend(f, edits[1..], e, i);
    }
  }

  lemma {:induction false} FragmentsInside(f: FlatText, edits: seq<Splice>, i: nat)
    requires RunsOk(f.text, f.runs) && AllValid(edits) && i < |f.runs|
    ensures Within(FragmentsFor(f, edits, i), 0, f.runs[i].flatEnd - f.runs[i].flatStart)
    ensures AllValid(FragmentsFor(f, edits, i))
    decreases |edits|
  {
    if edits != [] { FragmentsInside(f, edits[1..], i); }
  }

  // ---------------------------------------------------------------- sorting fragments is sorting edits

  /** Of two orderly edits touching a run, the one starting earlier has the fragment starting earlier. */
  lemma {:induction false} FragmentOrder(f: FlatText, x: Splice, y: Splice, i: nat)
    requires RunsOk(f.text, f.runs) && Valid(x) && Valid(y) && i < |f.runs|
    requires Touched(f.runs, x, i) && Touched(f.runs, y, i) && Orderly(x, y)
    ensures ByStart(x, y) <==> ByStart(Fragment(f, x, i), Fragment(f, y, i))
  {
  }

  lemma {:induction false} FragmentsInsert(f: FlatText, x: Splice, s: seq<Splice>, i: nat)
    requires RunsOk(f.text, f.runs) && Valid(x) && AllValid(s) && i < |f.runs|
    requires forall k :: 0 <= k < |s| ==> Orderly(x, s[k])
    requires Sorting.Sorted(s, ByStart)
    ensures AllValid(Sorting.Insert(x, s, ByStart))
    ensures FragmentsFor(f, Sorting.Insert(x, s, ByStart), i) ==
            if Touched(f.runs, x, i) then Sorting.Insert(Fragment(f, x, i), FragmentsFor(f, s, i), ByStart)
            else FragmentsFor(f, s, i)
    decreases |s|
  {
    hide Touched; hide Fragment;
    if s == [] {
      FragmentsCons(f, x, s, i);
    } else if ByStart(x, s[0]) {
      FragmentsCons(f, x, s, i);
      if Touched(f.runs, x, i) { SmallerInserts(f, x, s, i); }
    } else {
      FragmentsInsert(f, x, s[1..], i);
      FragmentsCons(f, s[0], s[1..], i);
      FragmentsCons(f, s[0], Sorting.Insert(x, s[1..], ByStart), i);
      assert s == [s[0]] + s[1..];
      if Touched(f.runs, x, i) && Touched(f.runs, s[0], i) {
        hide FragmentsFor;
        FragmentOrder(f, x, s[0], i);
        LargerInserts(Fragment(f, x, i), Fragment(f, s[0], i), FragmentsFor(f, s[1..], i));
      }
    }
  }

  lemma {:induction false} LargerInserts(x: Splice, h: Splice, t: seq<Splice>)
    requires !ByStart(x, h)
    ensures Sorting.Insert(x, [h] + t, ByStart) == [h] + Sorting.Insert(x, t, ByStart)
  {
    assert ([h] + t)[1..] == t;
  }

  lemma {:induction false} SmallerInserts(f: FlatText, x: Splice, s: seq<Splice>, i: nat)
    requires RunsOk(f.text, f.runs) && Valid(x) && AllValid(s) && i < |f.runs| && Touched(f.runs, x, i)
    requires forall k :: 0 <= k < |s| ==> Orderly(x, s[k]) && ByStart(x, s[k])
    ensures Sorting.Insert(Fragment(f, x, i), FragmentsFor(f, s, i), ByStart) ==
            [Fragment(f, x, i)] + FragmentsFor(f, s, i)
    decreases |s|
  {
    if s != [] {
      FragmentsCons(f, s[0], s[1..], i);
      assert s == [s[0]] + s[1..];
      if Touched(f.runs, s[0], i) { FragmentOrder(f, x, s[0], i); } else { SmallerInserts(f, x, s[1..], i); }
    }
  }

  /** Sorting a run's fragments gives the fragments of the sorted edits. */
  lemma {:induction false} SortCommutes(f: FlatText, edits: seq<Splice>, i: nat)
    requires Ready(f, edits) && i < |f.runs|
    ensures AllValid(Sorted(edits))
    ensures Sorted(FragmentsFor(f, edits, i)) == FragmentsFor(f, Sorted(edits), i)
    decreases |edits|
  {
    if edits != [] {
      var x, rest := edits[0], edits[1..];
      SortCommutes(f, rest, i);
      SortedFacts(rest);
      assert AllOrderly(rest);
      forall k | 0 <= k < |Sorted(rest)| ensures Orderly(x, Sorted(rest)[k]) { assert Sorted(rest)[k] in rest; }
      FragmentsInsert(f, x, Sorted(rest), i);
      var fr := FragmentsFor(f, rest, i);
      if Touched(f.runs, x, i) {
        assert ([Fragment(f, x, i)] + fr)[1..] == fr;
      } else {
        assert [] + fr == fr;
      }
    }
  }

  // ---------------------------------------------------------------- rebuilt runs and regions

  lemma {:induction false} FragmentsFit(f: FlatText, edits: seq<Splice>, i: nat)
    requires Ready(f, edits) && i < |f.runs|
    ensures Fits(Sorted(FragmentsFor(f, edits, i)), 0, f.runs[i].flatEnd - f.runs[i].flatStart)
  {
    var frs, width := FragmentsFor(f, edits, i), f.runs[i].flatEnd - f.runs[i].flatStart;
    FragmentsInside(f, edits, i);
    FragmentsOrderly(f, edits, i);
    OrderlySortsToChain(frs);
    SortedFacts(frs);
    forall k | 0 <= k < |Sorted(frs)| ensures Sorted(frs)[k].end <= width { assert Sorted(frs)[k] in frs; }
    ChainFits(Sorted(frs), 0, width);
  }

  lemma {:induction false} FragmentsOrderly(f: FlatText, edits: seq<Splice>, i: nat)
    requires Ready(f, edits) && i < |f.runs|
    ensures AllOrderly(FragmentsFor(f, edits, i))
    decreases |edits|
  {
    if edits != [] {
      var x, rest := edits[0], edits[1..];
      assert AllOrderly(rest);
      FragmentsOrderly(f, rest, i);
      FragmentsCons(f, x, rest, i);
      assert edits == [x] + rest;
      hide FragmentsFor; hide Touched; hide Fragment;
      if Touched(f.runs, x, i) {
        OrderlyWithRest(f, x, rest, i);
        OrderlyCons(Fragment(f, x, i), FragmentsFor(f, rest, i));
      }
    }
  }

  lemma {:induction false} OrderlyCons(x: Splice, s: seq<Splice>)
    requires AllOrderly(s) && forall y :: y in s ==> Orderly(x, y)
    ensures AllOrderly([x] + s)
  {
    var all := [x] + s;
    hide Orderly;
    forall i, j | 0 <= i < j < |all| ensures Orderly(all[i], all[j]) {
      assert all[j] == s[j - 1] && s[j - 1] in s;
    }
  }

  lemma {:induction false} OrderlyWithRest(f: FlatText, x: Splice, rest: seq<Splice>, i: nat)
    requires RunsOk(f.text, f.runs) && Valid(x) && AllValid(rest) && i < |f.runs| && Touched(f.runs, x, i)
    requires forall k :: 0 <= k < |rest| ==> Orderly(x, rest[k])
    ensures forall y :: y in FragmentsFor(f, rest, i) ==> Orderly(Fragment(f, x, i), y)
    decreases |rest|
  {
    if rest != [] { OrderlyWithRest(f, x, rest[1..], i); }
  }

  /** The new text of run `i`. */
  ghost function Rebuilt(f: FlatText, edits: seq<Splice>, i: nat): string
    requires Ready(f, edits) && i < |f.runs|
  {
    FragmentsFit(f, edits, i);
    Replaced(f.text[f.runs[i].flatStart..f.runs[i].flatEnd], Sorted(FragmentsFor(f, edits, i)))
  }

  ghost function Contents(f: FlatText, edits: seq<Splice>): (r: seq<string>)
    requires Ready(f, edits)
    ensures |r| == |f.runs| && forall i :: 0 <= i < |r| ==> r[i] == Rebuilt(f, edits, i)
  {
    seq(|f.runs|, i requires 0 <= i < |f.runs| => Rebuilt(f, edits, i))
  }

  /** `text[..stop]` with the first `n` runs' texts replaced by `contents` and everything else kept. */
  function Assembled(text: string, runs: seq<RunSpan>, contents: seq<string>, n: nat, stop: nat): string
    requires RunsOk(text, runs) && |contents| == |runs| && n <= |runs| && stop <= |text|
    requires n > 0 ==> runs[n - 1].flatEnd <= stop
  {
    if n == 0 then text[..stop]
    else
      Assembled(text, runs, contents, n - 1, runs[n - 1].flatStart) + contents[n - 1] + text[runs[n - 1].flatEnd..stop]
  }

  /** The region's text once every run holds its new content. */
  ghost function NewText(f: FlatText, edits: seq<Splice>): string
    requires Ready(f, edits)
  {
    Assembled(f.text, f.runs, Contents(f, edits), |f.runs|, |f.text|)
  }

  /** The fragments of the first `n` runs, in the region's coordinates. */
  function AllFragments(f: FlatText, sorted: seq<Splice>, n: nat): seq<Splice>
    requires RunsOk(f.text, f.runs) && AllValid(sorted) && n <= |f.runs|
  {
    if n == 0 then []
    else AllFragments(f, sorted, n - 1) + Shift(FragmentsFor(f, sorted, n - 1), f.runs[n - 1].flatStart)
  }

  /** Rebuilding run by run is substituting all fragments into the region's text. */
  lemma {:induction false} RunByRun(f: FlatText, edits: seq<Splice>, n: nat, stop: nat)
    requires Ready(f, edits) && n <= |f.runs| && stop <= |f.text| && (n > 0 ==> f.runs[n - 1].flatEnd <= stop)
    ensures AllValid(Sorted(edits)) && Fits(AllFragments(f, Sorted(edits), n), 0, stop)
    ensures Assembled(f.text, f.runs, Contents(f, edits), n, stop) ==
            Substitute(f.text, AllFragments(f, Sorted(edits), n), 0, stop)
    decreases n
  {
    OrderlySortsToChain(edits);
    if n > 0 {
      var lo, hi := f.runs[n - 1].flatStart, f.runs[n - 1].flatEnd;
      var all, frs := AllFragments(f, Sorted(edits), n - 1), FragmentsFor(f, Sorted(edits), n - 1);
      RunByRun(f, edits, n - 1, lo);
      OneRun(f, edits, n - 1, stop);
      hide *;
      SpliceParts(f.text, all, Shift(frs, lo), 0, lo, stop);
      UnfoldRun(f, edits, n, stop);
      Regroup(Substitute(f.text, all, 0, lo), Rebuilt(f, edits, n - 1), f.text[hi..stop]);
    }
  }

  lemma {:induction false} UnfoldRun(f: FlatText, edits: seq<Splice>, n: nat, stop: nat)
    requires Ready(f, edits) && 0 < n <= |f.runs| && f.runs[n - 1].flatEnd <= stop <= |f.text|
    ensures RunsOk(f.text, f.runs) && AllValid(Sorted(edits))
    ensures n > 1 ==> f.runs[n - 2].flatEnd <= f.runs[n - 1].flatStart
    ensures f.runs[n - 1].flatStart <= f.runs[n - 1].flatEnd
    ensures Assembled(f.text, f.runs, Contents(f, edits), n, stop) ==
            Assembled(f.text, f.runs, Contents(f, edits), n - 1, f.runs[n - 1].flatStart) + Rebuilt(f, edits, n - 1)
            + f.text[f.runs[n - 1].flatEnd..stop]
    ensures AllFragments(f, Sorted(edits), n) ==
            AllFragments(f, Sorted(edits), n - 1)
                + Shift(FragmentsFor(f, Sorted(edits), n - 1), f.runs[n - 1].flatStart)
  {
    OrderlySortsToChain(edits);
  }

  lemma {:induction false} OneRun(f: FlatText, edits: seq<Splice>, i: nat, stop: nat)
    requires Ready(f, edits) && i < |f.runs| && f.runs[i].flatEnd <= stop <= |f.text| && AllValid(Sorted(edits))
    ensures var lo, hi := f.runs[i].flatStart, f.runs[i].flatEnd;
            var frs := Shift(FragmentsFor(f, Sorted(edits), i), lo);
            Fits(frs, lo, stop) && Substitute(f.text, frs, lo, stop) == Rebuilt(f, edits, i) + f.text[hi..stop]
  {
    hide *;
    RebuiltFromSorted(f, edits, i);
    var lo, hi := f.runs[i].flatStart, f.runs[i].flatEnd;
    var frs := FragmentsFor(f, Sorted(edits), i);
    SpliceSlice(f.text, lo, hi, frs, 0);
    ThenKeep(f.text, Shift(frs, lo), lo, hi, stop);
  }

  lemma {:induction false} RebuiltFromSorted(f: FlatText, edits: seq<Splice>, i: nat)
    requires Ready(f, edits) && i < |f.runs|
    ensures RunsOk(f.text, f.runs) && AllValid(Sorted(edits))
    ensures var lo, hi, frs := f.runs[i].flatStart, f.runs[i].flatEnd, FragmentsFor(f, Sorted(edits), i);
            && lo <= hi <= |f.text| && Fits(frs, 0, hi - lo)
            && Rebuilt(f, edits, i) == Substitute(f.text[lo..hi], frs, 0, hi - lo)
  {
    SortCommutes(f, edits, i);
    FragmentsFit(f, edits, i);
    hide FragmentsFor; hide Fits; hide Substitute;
  }

  lemma {:induction false} ThenKeep(text: string, splices: seq<Splice>, lo: nat, hi: nat, stop: nat)
    requires Fits(splices, lo, hi) && hi <= stop <= |text|
    ensures Fits(splices, lo, stop)
    ensures Substitute(text, splices, lo, stop) == Substitute(text, splices, lo, hi) + text[hi..stop]
  {
    SpliceParts(text, splices, [], lo, hi, stop);
    assert splices + [] == splices;
  }
}
