/** Applying edits to a document: check, collect each run's fragments, rebuild and
  * escape each touched run, and splice the results into the document's XML.
  */
module DocxApply {
  import opened DocxFlatten
  import opened DocxEdit
  import opened Numbers
  import opened DocxSplice

  datatype Edit = Edit(region: nat, splice: Splice)

  datatype Result = Applied(xml: string) | Overlapping | NoMatchingRun

  /** The edits of one region, in order. */
  function EditsOf(edits: seq<Edit>, r: nat): seq<Splice> {
    if edits == [] then []
    else
      var rest, e := EditsOf(edits[..|edits| - 1], r), edits[|edits| - 1];
      if e.region == r then rest + [e.splice] else rest
  }

  predicate EditsOk(regions: seq<FlatText>, edits: seq<Edit>) {
    forall k :: 0 <= k < |edits| ==> edits[k].region < |regions| && Valid(edits[k].splice)
  }

  lemma {:induction false} EditsOfValid(regions: seq<FlatText>, edits: seq<Edit>, r: nat)
    requires EditsOk(regions, edits)
    ensures AllValid(EditsOf(edits, r))
    decreases |edits|
  {
    if edits != [] { EditsOfValid(regions, edits[..|edits| - 1], r); }
  }

  // ---------------------------------------------------------------- escaping

  function EscapeChar(c: char): string {
    if c == '&' then "&amp;" else if c == '<' then "&lt;" else if c == '>' then "&gt;" else [c]
  }

  function Escape(s: string): string { if s == [] then [] else EscapeChar(s[0]) + Escape(s[1..]) }

  /** Reading escaped text back. */
  function Unescape(s: string): string {
    if s == [] then []
    else if "&amp;" <= s then ['&'] + Unescape(s[5..])
    else if "&lt;" <= s then ['<'] + Unescape(s[4..])
    else if "&gt;" <= s then ['>'] + Unescape(s[4..])
    else [s[0]] + Unescape(s[1..])
  }

  /** Escaped text reads back as the text, and cannot be taken for markup. */
  lemma {:induction false} EscapeRoundTrip(s: string)
    ensures Unescape(Escape(s)) == s
    ensures '<' !in Escape(s) && '>' !in Escape(s)
    decreases |s|
  {
    if s != [] {
      EscapeRoundTrip(s[1..]);
      var head, tail := EscapeChar(s[0]), Escape(s[1..]);
      assert head <= head + tail && (head + tail)[|head|..] == tail;
      if s[0] != '&' && s[0] != '<' && s[0] != '>' { assert (head + tail)[0] == s[0]; }
      if s[0] == '<' || s[0] == '>' { assert (head + tail)[1] == head[1] && (head + tail)[2] == head[2]; }
    }
  }

  /** Only the three characters of markup are written otherwise. */
  lemma {:induction false} EscapedIff(s: string)
    ensures |Escape(s)| >= |s|
    ensures Escape(s) == s <==> '&' !in s && '<' !in s && '>' !in s
    decreases |s|
  {
    if s != [] {
      EscapedIff(s[1..]);
      assert s == [s[0]] + s[1..];
      assert Escape(s)[|EscapeChar(s[0])|..] == Escape(s[1..]);
    }
  }

  method EscapeText(text: string) returns (escaped: string)
    ensures escaped == Escape(text)
  {
    escaped := "";
    for k := 0 to |text|
      invariant Escape(text) == escaped + Escape(text[k..])
    {
      assert text[k..][0] == text[k] && text[k..][1..] == text[k + 1..];
      escaped := escaped + EscapeChar(text[k]);
    }
  }

  // ---------------------------------------------------------------- collecting fragments

  type Groups = map<(nat, nat), seq<Splice>>

  function Get(groups: Groups, r: nat, i: nat): seq<Splice> {
    if (r, i) in groups then groups[(r, i)] else []
  }

  ghost predicate RegionsOk(regions: seq<FlatText>) {
    forall r :: 0 <= r < |regions| ==> RunsOk(regions[r].text, regions[r].runs)
  }

  predicate KeysOk(regions: seq<FlatText>, groups: Groups) {
    forall key :: key in groups ==> key.0 < |regions| && key.1 < |regions[key.0].runs| && groups[key] != []
  }

  /** Every run holds exactly its own fragments. */
  ghost predicate Collected(regions: seq<FlatText>, edits: seq<Edit>, groups: Groups) {
    && KeysOk(regions, groups) && RegionsOk(regions)
    && (forall r: nat :: AllValid(EditsOf(edits, r)))
    && (forall r: nat, i: nat :: r < |regions| && i < |regions[r].runs| ==>
          Get(groups, r, i) == FragmentsFor(regions[r], EditsOf(edits, r), i))
  }

  /** What `e` adds to run `i`, once the runs in `done` have been seen to. */
  ghost function Gain(f: FlatText, e: Splice, done: seq<nat>, i: nat): seq<Splice>
    requires RunsOk(f.text, f.runs) && Valid(e)
  {
    if i in done && i < |f.runs| && Touched(f.runs, e, i) then [Fragment(f, e, i)] else []
  }

  ghost predicate Gained(regions: seq<FlatText>, r: nat, e: Splice, done: seq<nat>, groups: Groups, added: Groups)
    requires RegionsOk(regions) && r < |regions| && Valid(e)
  {
    forall s: nat, i: nat ::
      Get(added, s, i) == if s == r then Get(groups, s, i) + Gain(regions[r], e, done, i) else Get(groups, s, i)
  }

  method AddEdit(regions: seq<FlatText>, r: nat, e: Splice, touched: seq<nat>, groups: Groups) returns (added: Groups)
    requires RegionsOk(regions) && r < |regions| && Valid(e) && KeysOk(regions, groups)
    requires touched == RunsTouching(regions[r].runs, e)
    ensures KeysOk(regions, added) && Gained(regions, r, e, touched, groups, added)
  {
    hide RunsTouching; hide Touched; hide Fragment; hide RunsOk; hide Gained;
    var f := regions[r];
    added := groups;
    GainNone(regions, r, e, groups);
    assert touched[..0] == [];
    for p := 0 to |touched|
      invariant KeysOk(regions, added) && Gained(regions, r, e, touched[..p], groups, added)
    {
      var i := touched[p];
      TouchedFragment(f, e, p);
      var run := f.runs[i];
      var fragment := Splice(Max(e.start, run.flatStart) - run.flatStart, Min(e.end, run.flatEnd) - run.flatStart,
                             if p == 0 then e.text else "");
      ghost var before := added;
      added := added[(r, i) := Get(added, r, i) + [fragment]];
      GainOne(regions, r, e, p, groups, before, added);
    }
    assert touched[..|touched|] == touched;
  }

  lemma {:induction false} GainNone(regions: seq<FlatText>, r: nat, e: Splice, groups: Groups)
    requires RegionsOk(regions) && r < |regions| && Valid(e)
    ensures Gained(regions, r, e, [], groups, groups)
  {
  }

  /** The fragment computed for the `p`-th touched run is that run's own. */
  lemma {:induction false} TouchedFragment(f: FlatText, e: Splice, p: nat)
    requires RunsOk(f.text, f.runs) && Valid(e) && p < |RunsTouching(f.runs, e)|
    ensures var i := RunsTouching(f.runs, e)[p];
            && i < |f.runs| && Touched(f.runs, e, i)
            && f.runs[i].flatStart <= Max(e.start, f.runs[i].flatStart)
               && f.runs[i].flatStart <= Min(e.end, f.runs[i].flatEnd)
            && Fragment(f, e, i) == Splice(Max(e.start, f.runs[i].flatStart) - f.runs[i].flatStart,
                                           Min(e.end, f.runs[i].flatEnd) - f.runs[i].flatStart,
                                               if p == 0 then e.text else "")
  {
    var i := RunsTouching(f.runs, e)[p];
    TouchedIsTouching(f.runs, e);
    assert i in RunsTouching(f.runs, e);
    ClipShape(f, e, i);
    FirstPosition(f, e, p);
  }

  lemma {:induction false} GainOne(regions: seq<FlatText>, r: nat, e: Splice, p: nat, groups: Groups, before: Groups,
                                   after: Groups)
    requires RegionsOk(regions) && r < |regions| && Valid(e) && p < |RunsTouching(regions[r].runs, e)|
    requires Gained(regions, r, e, RunsTouching(regions[r].runs, e)[..p], groups, before)
    requires var i := RunsTouching(regions[r].runs, e)[p];
             && i < |regions[r].runs| && Touched(regions[r].runs, e, i)
             && after == before[(r, i) := Get(before, r, i) + [Fragment(regions[r], e, i)]]
    ensures Gained(regions, r, e, RunsTouching(regions[r].runs, e)[..p + 1], groups, after)
  {
    hide RunsTouching; hide Touched; hide Fragment; hide RunsOk; hide Gain;
    var f, t := regions[r], RunsTouching(regions[r].runs, e);
    forall s: nat, i: nat
      ensures Get(after, s, i) == if s == r then Get(groups, s, i) + Gain(f, e, t[..p + 1], i) else Get(groups, s, i)
    {
      GainAt(f, e, p, i);
      assert Get(before, s, i) == if s == r then Get(groups, s, i) + Gain(f, e, t[..p], i) else Get(groups, s, i);
    }
  }

  lemma {:induction false} GainAt(f: FlatText, e: Splice, p: nat, i: nat)
    requires RunsOk(f.text, f.runs) && Valid(e) && p < |RunsTouching(f.runs, e)|
    requires RunsTouching(f.runs, e)[p] < |f.runs| && Touched(f.runs, e, RunsTouching(f.runs, e)[p])
    ensures var t := RunsTouching(f.runs, e);
            && (i != t[p] ==> Gain(f, e, t[..p + 1], i) == Gain(f, e, t[..p], i))
            && Gain(f, e, t[..p + 1], t[p]) == [Fragment(f, e, t[p])] && Gain(f, e, t[..p], t[p]) == []
  {
    var t := RunsTouching(f.runs, e);
    TouchedRunsAreNeighbours(f.text, f.runs, e);
    hide RunsTouching; hide Touched; hide Fragment; hide RunsOk;
    NotYet(t, p);
    assert t[..p + 1] == t[..p] + [t[p]];
  }

  lemma {:induction false} NotYet(touched: seq<nat>, p: nat)
    requires Consecutive(touched) && p < |touched|
    ensures touched[p] !in touched[..p]
  {
    ConsecutiveAt(touched, p);
    forall q | 0 <= q < p ensures touched[q] != touched[p] { ConsecutiveAt(touched, q); }
  }

  lemma {:induction false} FirstPosition(f: FlatText, e: Splice, p: nat)
    requires RunsOk(f.text, f.runs) && Valid(e) && p < |RunsTouching(f.runs, e)|
    ensures IsFirst(f, e, RunsTouching(f.runs, e)[p]) <==> p == 0
  {
    TouchedRunsAreNeighbours(f.text, f.runs, e);
    ConsecutiveAt(RunsTouching(f.runs, e), p);
  }

  method CollectFragments(regions: seq<FlatText>, edits: seq<Edit>) returns (ok: bool, groups: Groups)
    requires RegionsOk(regions) && EditsOk(regions, edits)
    ensures ok <==> forall k :: 0 <= k < |edits| ==> RunsTouching(regions[edits[k].region].runs, edits[k].splice) != []
    ensures ok ==> Collected(regions, edits, groups)
  {
    groups := map[];
    for k := 0 to |edits|
      invariant forall j :: 0 <= j < k ==> RunsTouching(regions[edits[j].region].runs, edits[j].splice) != []
      invariant Collected(regions, edits[..k], groups)
    {
      var r, e := edits[k].region, edits[k].splice;
      var touched := RunsTouching(regions[r].runs, e);
      if touched == [] { return false, groups; }
      ghost var before := groups;
      groups := AddEdit(regions, r, e, touched, groups);
      CollectOne(regions, edits, k, before, groups);
    }
    assert edits[..|edits|] == edits;
    ok := true;
  }

  lemma {:induction false} CollectOne(regions: seq<FlatText>, edits: seq<Edit>, k: nat, before: Groups, after: Groups)
    requires k < |edits| && EditsOk(regions, edits) && Collected(regions, edits[..k], before) && KeysOk(regions, after)
    requires var r, e := edits[k].region, edits[k].splice;
             Gained(regions, r, e, RunsTouching(regions[r].runs, e), before, after)
    ensures Collected(regions, edits[..k + 1], after)
  {
    var more, e := edits[..k + 1], edits[k].splice;
    assert more[..|more| - 1] == edits[..k] && more[|more| - 1] == edits[k];
    assert EditsOk(regions, more);
    forall r: nat ensures AllValid(EditsOf(more, r)) { EditsOfValid(regions, more, r); }
    TouchedIsTouching(regions[edits[k].region].runs, e);
    hide RunsTouching; hide FragmentsFor;
    forall r: nat, i: nat | r < |regions| && i < |regions[r].runs|
      ensures Get(after, r, i) == FragmentsFor(regions[r], EditsOf(more, r), i)
    {
      FragmentsAppend(regions[r], EditsOf(edits[..k], r), e, i);
    }
  }

  // ---------------------------------------------------------------- replacements in the XML

  type Key = (nat, nat)

  predicate InDocument(regions: seq<FlatText>, key: Key) { key.0 < |regions| && key.1 < |regions[key.0].runs| }

  function RunAt(regions: seq<FlatText>, key: Key): RunSpan
    requires InDocument(regions, key)
  {
    regions[key.0].runs[key.1]
  }

  /** The contents of any two runs are ranges of the XML that do not even adjoin. */
  ghost predicate ContentsApart(xml: string, regions: seq<FlatText>) {
    && (forall a: Key :: InDocument(regions, a) ==>
        RunAt(regions, a).contentStart <= RunAt(regions, a).contentEnd <= |xml|)
    && (forall a: Key, b: Key :: InDocument(regions, a) && InDocument(regions, b) && a != b ==>
          RunAt(regions, a).contentEnd < RunAt(regions, b).contentStart
              || RunAt(regions, b).contentEnd < RunAt(regions, a).contentStart)
  }

  ghost predicate AllReady(regions: seq<FlatText>, edits: seq<Edit>) {
    forall r: nat :: r < |regions| ==> Ready(regions[r], EditsOf(edits, r))
  }

  /** Some edit touches the run. */
  ghost predicate Edited(regions: seq<FlatText>, edits: seq<Edit>, key: Key)
    requires AllReady(regions, edits)
  {
    InDocument(regions, key) && FragmentsFor(regions[key.0], EditsOf(edits, key.0), key.1) != []
  }

  /** The run's content, escaped, in place of what is there. */
  ghost function Replacement(regions: seq<FlatText>, edits: seq<Edit>, key: Key): Splice
    requires AllReady(regions, edits) && InDocument(regions, key)
  {
    var run := RunAt(regions, key);
    Splice(run.contentStart, run.contentEnd, Escape(Rebuilt(regions[key.0], EditsOf(edits, key.0), key.1)))
  }

  /** One replacement per run in `keys`. */
  ghost predicate Replaces(regions: seq<FlatText>, edits: seq<Edit>, keys: seq<Key>, reps: seq<Splice>)
    requires AllReady(regions, edits)
  {
    && |reps| == |keys| && (forall a, b :: 0 <= a < b < |keys| ==> keys[a] != keys[b])
    && (forall a :: 0 <= a < |keys| ==> InDocument(regions, keys[a]) && reps[a] == Replacement(regions, edits, keys[a]))
  }

  /** One replacement per edited run, in some order. */
  ghost predicate ReplacesEdited(regions: seq<FlatText>, edits: seq<Edit>, reps: seq<Splice>)
    requires AllReady(regions, edits)
  {
    exists keys :: Replaces(regions, edits, keys, reps) && forall key :: key in keys <==> Edited(regions, edits, key)
  }

  method BuildReplacements(regions: seq<FlatText>, ghost edits: seq<Edit>, groups: Groups) returns (reps: seq<Splice>)
    requires Collected(regions, edits, groups) && AllReady(regions, edits)
    ensures ReplacesEdited(regions, edits, reps)
  {
    hide FragmentsFor; hide Escape; hide Rebuilt; hide Ready; hide Fits;
    reps := [];
    ghost var keys := [];
    var left := groups.Keys;
    while left != {}
      invariant left <= groups.Keys && Replaces(regions, edits, keys, reps)
      invariant forall key :: key in keys <==> key in groups && key !in left
    {
      var key :| key in left;
      var f, run := regions[key.0], regions[key.0].runs[key.1];
      GroupFits(regions, edits, groups, key);
      var rebuilt := SpliceAll(f.text[run.flatStart..run.flatEnd], groups[key]);
      var escaped := EscapeText(rebuilt);
      assert Splice(run.contentStart, run.contentEnd, escaped) == Replacement(regions, edits, key);
      reps, keys := reps + [Splice(run.contentStart, run.contentEnd, escaped)], keys + [key];
      left := left - {key};
    }
    GroupsAreEdited(regions, edits, groups);
  }

  lemma {:induction false} GroupsAreEdited(regions: seq<FlatText>, edits: seq<Edit>, groups: Groups)
    requires Collected(regions, edits, groups) && AllReady(regions, edits)
    ensures forall key: Key :: key in groups <==> Edited(regions, edits, key)
  {
    hide FragmentsFor;
    forall key: Key ensures key in groups <==> Edited(regions, edits, key) {
      if InDocument(regions, key) {
        assert Get(groups, key.0, key.1) == FragmentsFor(regions[key.0], EditsOf(edits, key.0), key.1);
      }
    }
  }

  lemma {:induction false} GroupFits(regions: seq<FlatText>, edits: seq<Edit>, groups: Groups, key: Key)
    requires Collected(regions, edits, groups) && AllReady(regions, edits) && key in groups
    ensures InDocument(regions, key)
    ensures var f, run := regions[key.0], RunAt(regions, key);
            && run.flatStart <= run.flatEnd <= |f.text|
            && Fits(Sorted(groups[key]), 0, run.flatEnd - run.flatStart)
            && Rebuilt(f, EditsOf(edits, key.0), key.1) ==
               Replaced(f.text[run.flatStart..run.flatEnd], Sorted(groups[key]))
  {
    assert Get(groups, key.0, key.1) == FragmentsFor(regions[key.0], EditsOf(edits, key.0), key.1);
    FragmentsFit(regions[key.0], EditsOf(edits, key.0), key.1);
  }

  lemma {:induction false} ReplacementsFit(xml: string, regions: seq<FlatText>, edits: seq<Edit>, keys: seq<Key>,
                                           reps: seq<Splice>)
    requires AllReady(regions, edits) && Replaces(regions, edits, keys, reps) && ContentsApart(xml, regions)
    ensures Fits(Sorted(reps), 0, |xml|)
  {
    hide Rebuilt; hide Escape; hide AllReady;
    OrderlySortsToChain(reps);
    SortedFacts(reps);
    var t := Sorted(reps);
    forall k | 0 <= k < |t| ensures t[k].end <= |xml| { assert t[k] in reps; }
    ChainFits(t, 0, |xml|);
  }

  ghost predicate Conflict(edits: seq<Edit>, r: nat) {
    !AllOrderly(EditsOf(edits, r)) || !AllDistinct(EditsOf(edits, r))
  }

  /** `chain` holds the replacement of every edited run and nothing else. */
  ghost predicate ChangesOnlyEdited(regions: seq<FlatText>, edits: seq<Edit>, chain: seq<Splice>)
    requires AllReady(regions, edits)
  {
    && (forall x :: x in chain ==> exists key :: Edited(regions, edits, key) && x == Replacement(regions, edits, key))
    && (forall key :: Edited(regions, edits, key) ==> Replacement(regions, edits, key) in chain)
  }

  /** Either the edits of some region conflict, or an edit touches no run, or the XML
    * changes exactly in the contents of the edited runs, each now holding its rebuilt
    * text, escaped.
    */
  method ApplyEdits(xml: string, regions: seq<FlatText>, edits: seq<Edit>)
      returns (result: Result, ghost chain: seq<Splice>)
    requires RegionsOk(regions) && EditsOk(regions, edits) && ContentsApart(xml, regions)
    ensures result.Overlapping? <==> exists r :: 0 <= r < |regions| && Conflict(edits, r)
    ensures result.NoMatchingRun? ==>
            exists k :: 0 <= k < |edits| && RunsTouching(regions[edits[k].region].runs, edits[k].splice) == []
    ensures result.Applied? ==>
            forall k :: 0 <= k < |edits| ==> RunsTouching(regions[edits[k].region].runs, edits[k].splice) != []
    ensures result.Applied? ==> Fits(chain, 0, |xml|) && result.xml == Replaced(xml, chain)
    ensures result.Applied? ==> AllReady(regions, edits) && ChangesOnlyEdited(regions, edits, chain)
  {
    chain := [];
    for r := 0 to |regions|
      invariant forall s :: 0 <= s < r ==> !Conflict(edits, s) && AllValid(EditsOf(edits, s))
    {
      EditsOfValid(regions, edits, r);
      var free := CheckNoOverlaps(EditsOf(edits, r));
      if !free {
        assert Conflict(edits, r);
        return Overlapping, chain;
      }
    }
    var ok, groups := CollectFragments(regions, edits);
    if !ok { return NoMatchingRun, chain; }
    var reps := BuildReplacements(regions, edits, groups);
    ghost var keys :|
        Replaces(regions, edits, keys, reps) && forall key :: key in keys <==> Edited(regions, edits, key);
    ReplacementsFit(xml, regions, edits, keys, reps);
    var spliced := SpliceAll(xml, reps);
    chain := Sorted(reps);
    OnlyEdited(regions, edits, keys, reps);
    result := Applied(spliced);
  }

  lemma {:induction false} OnlyEdited(regions: seq<FlatText>, edits: seq<Edit>, keys: seq<Key>, reps: seq<Splice>)
    requires AllReady(regions, edits) && Replaces(regions, edits, keys, reps)
    requires forall key :: key in keys <==> Edited(regions, edits, key)
    ensures ChangesOnlyEdited(regions, edits, Sorted(reps))
  {
    hide Replacement; hide Edited; hide AllReady;
    SortedFacts(reps);
    hide Sorted;
    forall x | x in Sorted(reps)
      ensures exists key :: Edited(regions, edits, key) && x == Replacement(regions, edits, key)
    {
      var a :| 0 <= a < |reps| && reps[a] == x;
      assert keys[a] in keys;
    }
    forall key | Edited(regions, edits, key) ensures Replacement(regions, edits, key) in Sorted(reps) {
      var a :| 0 <= a < |keys| && keys[a] == key;
      assert reps[a] in reps;
    }
  }

  // ---------------------------------------------------------------- flattened documents

  lemma {:induction false} RunCounted(runs: seq<RunSpan>, i: nat, j: nat, m: Mark)
    requires i <= j < |runs| && MarkOf(runs[i]) == m == MarkOf(runs[j])
    ensures RunCount(runs, m) >= if i < j then 2 else 1
    decreases |runs|
  {
    var n := |runs| - 1;
    if j < n {
      RunCounted(runs[..n], i, j, m);
    } else if i < j {
      RunCounted(runs[..n], i, i, m);
    }
  }

  lemma {:induction false} CellsCounted(cells: seq<FlatText>, c: nat, d: nat, m: Mark)
    requires c <= d < |cells|
    ensures CellCount(cells, m) >= RunCount(cells[c].runs, m) + if c < d then RunCount(cells[d].runs, m) else 0
    decreases |cells|
  {
    var n := |cells| - 1;
    if d < n {
      CellsCounted(cells[..n], c, d, m);
    } else if c < d {
      CellsCounted(cells[..n], c, c, m);
    }
  }

  /** Two different runs of the regions are two different text elements. */
  lemma {:induction false} RunsCounted(events: seq<Event>, a: Key, b: Key)
    requires var regions := Regions(Flatten(events));
             InDocument(regions, a) && InDocument(regions, b) && MarkOf(RunAt(regions, a)) == MarkOf(RunAt(regions, b))
    requires a.0 < b.0 || (a.0 == b.0 && a.1 <= b.1)
    ensures Count(Fold(Initial, events), MarkOf(RunAt(Regions(Flatten(events)), a))) >= if a == b then 1 else 2
  {
    var s, regions := Fold(Initial, events), Regions(Flatten(events));
    var m := MarkOf(RunAt(regions, a));
    if a.0 == b.0 {
      RunCounted(regions[a.0].runs, a.1, b.1, m);
    } else {
      RunCounted(regions[a.0].runs, a.1, a.1, m);
      RunCounted(regions[b.0].runs, b.1, b.1, m);
    }
    if a.0 > 0 {
      CellsCounted(s.cells, a.0 - 1, b.0 - 1, m);
    } else if b.0 > 0 {
      CellsCounted(s.cells, b.0 - 1, b.0 - 1, m);
    }
  }

  lemma {:induction false} RunInBounds(xml: string, events: seq<Event>, a: Key)
    requires InOrder(events) && (forall i :: 0 <= i < |events| ==> events[i].after <= |xml|)
             && InDocument(Regions(Flatten(events)), a)
    ensures var run := RunAt(Regions(Flatten(events)), a); run.contentStart <= run.contentEnd <= |xml|
  {
    var m := MarkOf(RunAt(Regions(Flatten(events)), a));
    RunsCounted(events, a, a);
    EveryTextCounted(events, m);
    CountedOnce(events, m);
    hide Fold; hide Regions;
    var i :| 0 <= i < |events| && IsText(events[i], m);
    assert EventOk(events[i]);
  }

  lemma {:induction false} RunsApart(events: seq<Event>, a: Key, b: Key)
    requires InOrder(events) && InDocument(Regions(Flatten(events)), a) && InDocument(Regions(Flatten(events)), b)
    requires a.0 < b.0 || (a.0 == b.0 && a.1 < b.1)
    ensures var regions := Regions(Flatten(events));
            RunAt(regions, a).contentEnd < RunAt(regions, b).contentStart
                || RunAt(regions, b).contentEnd < RunAt(regions, a).contentStart
  {
    var regions := Regions(Flatten(events));
    var m, n := MarkOf(RunAt(regions, a)), MarkOf(RunAt(regions, b));
    RunsCounted(events, a, a);
    RunsCounted(events, b, b);
    if m == n { RunsCounted(events, a, b); }
    hide Fold; hide Regions; hide Count;
    ContentRangesApart(events, m, n);
    ContentRangesApart(events, n, m);
  }

  /** The regions of any document read from its XML meet what applying edits asks of them. */
  lemma {:induction false} FlattenedIsEditable(xml: string, events: seq<Event>)
    requires InOrder(events) && forall i :: 0 <= i < |events| ==> events[i].after <= |xml|
    ensures RegionsOk(Regions(Flatten(events))) && ContentsApart(xml, Regions(Flatten(events)))
  {
    var regions := Regions(Flatten(events));
    RegionsAreWellFormed(events);
    hide Fold; hide InOrder;
    forall a: Key | InDocument(regions, a)
      ensures RunAt(regions, a).contentStart <= RunAt(regions, a).contentEnd <= |xml|
    {
      RunInBounds(xml, events, a);
    }
    forall a: Key, b: Key | InDocument(regions, a) && InDocument(regions, b) && a != b
      ensures RunAt(regions, a).contentEnd < RunAt(regions, b).contentStart
              || RunAt(regions, b).contentEnd < RunAt(regions, a).contentStart
    {
      if a.0 < b.0 || (a.0 == b.0 && a.1 < b.1) { RunsApart(events, a, b); } else { RunsApart(events, b, a); }
    }
  }
}
