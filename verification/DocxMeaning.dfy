/** The fragments of a batch of edits, taken together, are the edits themselves,
  * cut at run boundaries and with the separators between runs left in place.
  */
module DocxMeaning {
  import opened DocxFlatten
  import opened DocxEdit
  import opened Numbers
  import opened DocxSplice

  // ---------------------------------------------------------------- from fragments to pieces

  /** The pieces of one edit among the first `n` runs. */
  function Pieces(f: FlatText, e: Splice, n: nat): seq<Splice>
    requires n <= |f.runs|
  {
    if n == 0 then [] else Pieces(f, e, n - 1) + OwnPiece(f, e, n - 1)
  }

  function AllPieces(f: FlatText, edits: seq<Splice>): seq<Splice> {
    if edits == [] then [] else AllPieces(f, edits[..|edits| - 1]) + Pieces(f, edits[|edits| - 1], |f.runs|)
  }

  /** `y` comes after `x`, and they are not both insertions at one point. */
  predicate Follows(x: Splice, y: Splice) { x.end <= y.start && !SameSpan(x, y) }

  predicate AllFollow(s: seq<Splice>) { forall i, j :: 0 <= i < j < |s| ==> Follows(s[i], s[j]) }

  /** Beyond a run that an edit touches, no earlier edit touches a run. */
  lemma {:induction false} EarlierEditsStayBehind(f: FlatText, x: Splice, y: Splice, i: nat, j: nat)
    requires RunsOk(f.text, f.runs) && Valid(x) && Valid(y) && Follows(x, y) && i < j < |f.runs|
             && Touched(f.runs, y, i)
    ensures !Touched(f.runs, x, j)
  {
  }

  lemma {:induction false} NoFragmentsBeyond(f: FlatText, edits: seq<Splice>, e: Splice, i: nat, j: nat)
    requires RunsOk(f.text, f.runs) && AllValid(edits) && Valid(e) && i < j < |f.runs| && Touched(f.runs, e, i)
    requires forall k :: 0 <= k < |edits| ==> Follows(edits[k], e)
    ensures FragmentsFor(f, edits, j) == []
    decreases |edits|
  {
    if edits != [] {
      EarlierEditsStayBehind(f, edits[0], e, i, j);
      NoFragmentsBeyond(f, edits[1..], e, i, j);
    }
  }

  lemma {:induction false} PiecesWitness(f: FlatText, e: Splice, n: nat)
    requires n <= |f.runs|
    ensures Pieces(f, e, n) != [] <==> exists i :: 0 <= i < n && Touched(f.runs, e, i)
  {
    hide Touched; hide Clip;
    if n > 0 { PiecesWitness(f, e, n - 1); }
  }

  lemma {:induction false} ShiftAppend(a: seq<Splice>, b: seq<Splice>, d: nat)
    ensures Shift(a + b, d) == Shift(a, d) + Shift(b, d)
    decreases |a|
  {
    if a == [] {
      assert a + b == b;
    } else {
      assert (a + b)[1..] == a[1..] + b;
      ShiftAppend(a[1..], b, d);
    }
  }

  lemma {:induction false} OneOrOther(f: FlatText, edits: seq<Splice>, e: Splice, i: nat)
    requires RunsOk(f.text, f.runs) && AllValid(edits) && Valid(e) && i < |f.runs|
    requires forall k :: 0 <= k < |edits| ==> Follows(edits[k], e)
    ensures Pieces(f, e, i) == [] || FragmentsFor(f, edits, i) == []
  {
    PiecesWitness(f, e, i);
    if Pieces(f, e, i) != [] {
      var k :| 0 <= k < i && Touched(f.runs, e, k);
      NoFragmentsBeyond(f, edits, e, k, i);
    }
  }

  function OwnPiece(f: FlatText, e: Splice, i: nat): seq<Splice>
    requires i < |f.runs|
  {
    if Touched(f.runs, e, i) then [Clip(f, e, i)] else []
  }

  lemma {:induction false} AppendOwnPiece(f: FlatText, edits: seq<Splice>, e: Splice, i: nat)
    requires RunsOk(f.text, f.runs) && AllValid(edits) && Valid(e) && i < |f.runs|
    ensures AllValid(edits + [e])
    ensures Shift(FragmentsFor(f, edits + [e], i), f.runs[i].flatStart) ==
            Shift(FragmentsFor(f, edits, i), f.runs[i].flatStart) + OwnPiece(f, e, i)
  {
    var frs := FragmentsFor(f, edits, i);
    FragmentsAppend(f, edits, e, i);
    hide FragmentsFor;
    if Touched(f.runs, e, i) {
      ShiftAppend(frs, [Fragment(f, e, i)], f.runs[i].flatStart);
      ShiftedFragment(f, e, i);
    } else {
      assert frs + [] == frs;
    }
  }

  lemma {:induction false} LastEditLast(f: FlatText, edits: seq<Splice>, e: Splice, n: nat)
    requires RunsOk(f.text, f.runs) && AllValid(edits) && Valid(e) && n <= |f.runs|
    requires forall k :: 0 <= k < |edits| ==> Follows(edits[k], e)
    ensures AllValid(edits + [e])
    ensures AllFragments(f, edits + [e], n) == AllFragments(f, edits, n) + Pieces(f, e, n)
    decreases n
  {
    hide FragmentsFor; hide OwnPiece; hide Shift; hide Follows; hide RunsOk;
    if n > 0 {
      LastEditLast(f, edits, e, n - 1);
      LastEditStep(f, edits, e, n);
    }
  }

  lemma {:induction false} LastEditStep(f: FlatText, edits: seq<Splice>, e: Splice, n: nat)
    requires RunsOk(f.text, f.runs) && AllValid(edits) && Valid(e) && 0 < n <= |f.runs| && AllValid(edits + [e])
    requires forall k :: 0 <= k < |edits| ==> Follows(edits[k], e)
    requires AllFragments(f, edits + [e], n - 1) == AllFragments(f, edits, n - 1) + Pieces(f, e, n - 1)
    ensures AllFragments(f, edits + [e], n) == AllFragments(f, edits, n) + Pieces(f, e, n)
  {
    hide *;
    UnfoldStep(f, edits, n);
    UnfoldStep(f, edits + [e], n);
    PiecesStep(f, e, n);
    OneOrOther(f, edits, e, n - 1);
    AppendOwnPiece(f, edits, e, n - 1);
    ShiftNothing(f.runs[n - 1].flatStart);
    var a, b := AllFragments(f, edits, n - 1), Pieces(f, e, n - 1);
    var c, d := Shift(FragmentsFor(f, edits, n - 1), f.runs[n - 1].flatStart), OwnPiece(f, e, n - 1);
    calc {
      AllFragments(f, edits + [e], n);
      a + b + (c + d);
      { Interleave(a, b, c, d); }
      a + c + (b + d);
      AllFragments(f, edits, n) + Pieces(f, e, n);
    }
  }

  lemma {:induction false} UnfoldStep(f: FlatText, edits: seq<Splice>, n: nat)
    requires RunsOk(f.text, f.runs) && AllValid(edits) && 0 < n <= |f.runs|
    ensures AllFragments(f, edits, n) ==
            AllFragments(f, edits, n - 1) + Shift(FragmentsFor(f, edits, n - 1), f.runs[n - 1].flatStart)
  {
  }

  lemma {:induction false} PiecesStep(f: FlatText, e: Splice, n: nat)
    requires 0 < n <= |f.runs|
    ensures Pieces(f, e, n) == Pieces(f, e, n - 1) + OwnPiece(f, e, n - 1)
    ensures Pieces(f, e, n) ==
            if Touched(f.runs, e, n - 1) then Pieces(f, e, n - 1) + [Clip(f, e, n - 1)] else Pieces(f, e, n - 1)
  {
  }

  lemma {:induction false} ShiftNothing(d: nat)
    ensures Shift([], d) == []
  {
  }

  lemma {:induction false} Interleave(a: seq<Splice>, b: seq<Splice>, c: seq<Splice>, d: seq<Splice>)
    requires b == [] || c == []
    ensures a + b + (c + d) == a + c + (b + d)
  {
  }

  lemma {:induction false} ShiftedFragment(f: FlatText, e: Splice, i: nat)
    requires RunsOk(f.text, f.runs) && Valid(e) && i < |f.runs| && Touched(f.runs, e, i)
    ensures Shift([Fragment(f, e, i)], f.runs[i].flatStart) == [Clip(f, e, i)]
  {
  }

  /** The fragments of all runs are the pieces of all edits, in the edits' order. */
  lemma {:induction false} FragmentsArePieces(f: FlatText, edits: seq<Splice>)
    requires RunsOk(f.text, f.runs) && AllValid(edits) && AllFollow(edits)
    ensures AllFragments(f, edits, |f.runs|) == AllPieces(f, edits)
    decreases |edits|
  {
    hide FragmentsFor; hide Pieces; hide Shift;
    if edits == [] {
      NoFragments(f, |f.runs|);
    } else {
      var last := |edits| - 1;
      FragmentsArePieces(f, edits[..last]);
      LastEditLast(f, edits[..last], edits[last], |f.runs|);
      assert edits[..last] + [edits[last]] == edits;
    }
  }

  lemma {:induction false} NoFragments(f: FlatText, n: nat)
    requires RunsOk(f.text, f.runs) && n <= |f.runs|
    ensures AllFragments(f, [], n) == []
  {
    if n > 0 { NoFragments(f, n - 1); }
  }

  // ---------------------------------------------------------------- the pieces of one edit

  /** The edit as far as the text goes: one that ends past the text ends with it. */
  function Clamp(f: FlatText, e: Splice): Splice { Splice(e.start, Min(e.end, |f.text|), e.text) }

  function Clamps(f: FlatText, edits: seq<Splice>): (r: seq<Splice>)
    ensures |r| == |edits| && forall k :: 0 <= k < |r| ==> r[k] == Clamp(f, edits[k])
  {
    seq(|edits|, k requires 0 <= k < |edits| => Clamp(f, edits[k]))
  }

  /** No separator inside the edit's range. */
  ghost predicate Covered(f: FlatText, e: Splice) {
    forall x :: e.start <= x < Clamp(f, e).end ==> InRun(f.runs, x)
  }

  lemma {:induction false} TouchingStartsInText(f: FlatText, e: Splice)
    requires RunsOk(f.text, f.runs) && Valid(e) && RunsTouching(f.runs, e) != []
    ensures Valid(Clamp(f, e))
  {
    TouchedIsTouching(f.runs, e);
    assert RunsTouching(f.runs, e)[0] in RunsTouching(f.runs, e);
  }

  predicate Adjoining(s: seq<Splice>) { forall i :: 0 < i < |s| ==> s[i].start == s[i - 1].end && s[i].text == "" }

  /** Pieces that together are exactly `e`. */
  predicate Tiles(s: seq<Splice>, e: Splice) {
    s != [] && s[0].start == e.start && s[0].text == e.text && Adjoining(s) && s[|s| - 1].end == e.end && AllValid(s)
  }

  ghost predicate LastTouched(f: FlatText, e: Splice, n: nat, k: nat)
    requires n <= |f.runs|
  {
    k < n && Touched(f.runs, e, k) && forall j :: k < j < n ==> !Touched(f.runs, e, j)
  }

  lemma {:induction false} FirstIsLeast(f: FlatText, e: Splice, i: nat)
    requires RunsOk(f.text, f.runs) && Valid(e) && i < |f.runs| && Touched(f.runs, e, i)
    ensures IsFirst(f, e, i) <==> forall j :: 0 <= j < i ==> !Touched(f.runs, e, j)
  {
    var t := RunsTouching(f.runs, e);
    TouchedIsTouching(f.runs, e);
    TouchedRunsAreNeighbours(f.text, f.runs, e);
    var a :| 0 <= a < |t| && t[a] == i;
    ConsecutiveAt(t, a);
    assert t[0] in t;
    forall j | 0 <= j < i && Touched(f.runs, e, j) ensures t[0] <= j {
      assert j in t;
      var b :| 0 <= b < |t| && t[b] == j;
      ConsecutiveAt(t, b);
    }
  }

  /** How far the pieces reach. */
  function Reach(f: FlatText, e: Splice, k: nat): nat
    requires k < |f.runs|
  {
    Min(e.end, f.runs[k].flatEnd)
  }

  lemma {:induction false} TilesUpTo(f: FlatText, e: Splice, n: nat) returns (k: nat)
    requires RunsOk(f.text, f.runs) && Valid(e) && n <= |f.runs| && Covered(f, e)
    ensures Pieces(f, e, n) == [] ==> forall j :: 0 <= j < n ==> !Touched(f.runs, e, j)
    ensures Pieces(f, e, n) != [] ==>
            LastTouched(f, e, n, k) && Tiles(Pieces(f, e, n), Splice(e.start, Reach(f, e, k), e.text))
  {
    hide RunsTouching; hide OwnPiece;
    if n == 0 { return 0; }
    k := TilesUpTo(f, e, n - 1);
    PiecesStep(f, e, n);
    if Touched(f.runs, e, n - 1) {
      TilesStep(f, e, n, k);
      k := n - 1;
    }
  }

  lemma {:induction false} TilesStep(f: FlatText, e: Splice, n: nat, k: nat)
    requires RunsOk(f.text, f.runs) && Valid(e) && 0 < n <= |f.runs| && Covered(f, e) && Touched(f.runs, e, n - 1)
    requires Pieces(f, e, n - 1) == [] ==> forall j :: 0 <= j < n - 1 ==> !Touched(f.runs, e, j)
    requires Pieces(f, e, n - 1) != [] ==>
               LastTouched(f, e, n - 1, k) && Tiles(Pieces(f, e, n - 1), Splice(e.start, Reach(f, e, k), e.text))
    ensures Tiles(Pieces(f, e, n), Splice(e.start, Reach(f, e, n - 1), e.text))
  {
    var p := Clip(f, e, n - 1);
    ClipShape(f, e, n - 1);
    FirstIsLeast(f, e, n - 1);
    if Pieces(f, e, n - 1) == [] { StartsAtStart(f, e, n - 1); } else { ContinuesAtReach(f, e, k, n - 1); }
    hide Touched; hide RunsOk; hide Covered; hide IsFirst;
    PiecesStep(f, e, n);
    if Pieces(f, e, n - 1) != [] { TilesSnoc(Pieces(f, e, n - 1), p, e.start, e.text); }
  }

  lemma {:induction false} TilesSnoc(s: seq<Splice>, p: Splice, start: nat, text: string)
    requires Tiles(s, Splice(start, p.start, text)) && Valid(p) && p.text == ""
    ensures Tiles(s + [p], Splice(start, p.end, text))
  {
  }

  lemma {:induction false} TouchedAt(f: FlatText, e: Splice, x: nat) returns (j: nat)
    requires RunsOk(f.text, f.runs) && e.start <= x < Clamp(f, e).end && Covered(f, e)
    ensures j < |f.runs| && Touched(f.runs, e, j) && f.runs[j].flatStart <= x < f.runs[j].flatEnd
  {
    assert InRun(f.runs, x);
    j :| 0 <= j < |f.runs| && f.runs[j].flatStart <= x < f.runs[j].flatEnd;
  }

  lemma {:induction false} StartsAtStart(f: FlatText, e: Splice, i: nat)
    requires RunsOk(f.text, f.runs) && Valid(e) && Covered(f, e) && i < |f.runs| && Touched(f.runs, e, i)
    requires forall j :: 0 <= j < i ==> !Touched(f.runs, e, j)
    ensures Clip(f, e, i).start == e.start
  {
    if e.start < e.end {
      var j := TouchedAt(f, e, e.start);
    }
  }

  lemma {:induction false} ContinuesAtReach(f: FlatText, e: Splice, k: nat, i: nat)
    requires RunsOk(f.text, f.runs) && Valid(e) && Covered(f, e) && i < |f.runs| && Touched(f.runs, e, i)
    requires LastTouched(f, e, i, k)
    ensures Clip(f, e, i).start == Reach(f, e, k)
  {
    var x := f.runs[k].flatEnd;
    if x < f.runs[i].flatStart {
      var j := TouchedAt(f, e, x);
    }
  }

  /** An edit with no separator in its range is tiled by its pieces. */
  lemma {:induction false} CoveredIsTiled(f: FlatText, e: Splice)
    requires RunsOk(f.text, f.runs) && Valid(e) && Covered(f, e) && RunsTouching(f.runs, e) != []
    ensures Tiles(Pieces(f, e, |f.runs|), Clamp(f, e))
  {
    TouchedIsTouching(f.runs, e);
    assert RunsTouching(f.runs, e)[0] in RunsTouching(f.runs, e);
    var k := TilesUpTo(f, e, |f.runs|);
    var x := f.runs[k].flatEnd;
    if x < Clamp(f, e).end {
      var j := TouchedAt(f, e, x);
    }
  }

  // ---------------------------------------------------------------- tiled edits substitute alike

  lemma {:induction false} MergeTiles(text: string, s: seq<Splice>, e: Splice, m: seq<Splice>, c: nat, stop: nat)
    requires Tiles(s, e) && Fits([e] + m, c, stop) && stop <= |text|
    ensures Fits(s + m, c, stop) && Substitute(text, s + m, c, stop) == Substitute(text, [e] + m, c, stop)
    decreases |s|
  {
    if |s| == 1 {
      assert s == [e];
    } else {
      var rest := s[2..];
      var one := Splice(e.start, s[1].end, e.text);
      MergedTiles(s, e);
      MergeTiles(text, [one] + rest, e, m, c, stop);
      assert [one] + rest + m == [one] + (rest + m) && s + m == [s[0], s[1]] + (rest + m);
      hide Tiles;
      MergeTwo(text, s[0], s[1], rest + m, c, stop);
    }
  }

  lemma {:induction false} MergedTiles(s: seq<Splice>, e: Splice)
    requires Tiles(s, e) && |s| > 1
    ensures Tiles([Splice(e.start, s[1].end, e.text)] + s[2..], e)
    ensures Valid(s[0]) && Valid(s[1]) && s[1].start == s[0].end && s[1].text == "" && s[0].start == e.start
            && s[0].text == e.text
  {
    var t := [Splice(e.start, s[1].end, e.text)] + s[2..];
    forall i | 0 < i < |t| ensures t[i].start == t[i - 1].end && t[i].text == "" && Valid(t[i]) {
      assert t[i] == s[i + 1] && t[i - 1].end == s[i].end;
    }
    assert t[|t| - 1].end == s[|s| - 1].end;
  }

  lemma {:induction false} MergeTwo(text: string, x: Splice, y: Splice, m: seq<Splice>, c: nat, stop: nat)
    requires Valid(x) && Valid(y) && y.start == x.end && y.text == "" && stop <= |text|
    requires Fits([Splice(x.start, y.end, x.text)] + m, c, stop)
    ensures Fits([x, y] + m, c, stop)
    ensures Substitute(text, [x, y] + m, c, stop) == Substitute(text, [Splice(x.start, y.end, x.text)] + m, c, stop)
  {
    var one := Splice(x.start, y.end, x.text);
    assert ([one] + m)[1..] == m && ([x, y] + m)[1..] == [y] + m && ([y] + m)[1..] == m;
    hide Fits; hide Substitute;
    Unfold(text, [one] + m, c, stop);
    Unfold(text, [y] + m, x.end, stop);
    Unfold(text, [x, y] + m, c, stop);
    assert text[x.end..y.start] + "" + Substitute(text, m, y.end, stop) == Substitute(text, m, y.end, stop);
  }

  ghost predicate AllTiled(f: FlatText, edits: seq<Splice>) {
    forall k :: 0 <= k < |edits| ==> Tiles(Pieces(f, edits[k], |f.runs|), Clamp(f, edits[k]))
  }

  lemma {:induction false} MergeAll(f: FlatText, edits: seq<Splice>, m: seq<Splice>)
    requires AllTiled(f, edits) && Fits(Clamps(f, edits) + m, 0, |f.text|)
    ensures Fits(AllPieces(f, edits) + m, 0, |f.text|)
    ensures Replaced(f.text, AllPieces(f, edits) + m) == Replaced(f.text, Clamps(f, edits) + m)
    decreases |edits|
  {
    hide Fits; hide Substitute; hide Tiles; hide Pieces; hide Replaced; hide Clamp;
    if edits == [] {
      assert Clamps(f, edits) == [];
    } else {
      var last := |edits| - 1;
      var front, e := edits[..last], Clamp(f, edits[last]);
      var before, ps := AllPieces(f, front), Pieces(f, edits[last], |f.runs|);
      assert Clamps(f, edits) + m == Clamps(f, front) + ([e] + m);
      MergeAll(f, front, [e] + m);
      assert before + ps + m == before + (ps + m);
      MergeMiddle(f.text, before, ps, e, m);
    }
  }

  lemma {:induction false} MergeMiddle(text: string, before: seq<Splice>, ps: seq<Splice>, e: Splice, m: seq<Splice>)
    requires Tiles(ps, e) && Fits(before + ([e] + m), 0, |text|)
    ensures Fits(before + (ps + m), 0, |text|)
    ensures Replaced(text, before + (ps + m)) == Replaced(text, before + ([e] + m))
  {
    hide Fits; hide Substitute; hide Tiles;
    var mid := EndOf(before, 0);
    FitsSplit(before, [e] + m, 0, |text|);
    MergeTiles(text, ps, e, m, mid, |text|);
    SpliceParts(text, before, [e] + m, 0, mid, |text|);
    SpliceParts(text, before, ps + m, 0, mid, |text|);
  }

  // ---------------------------------------------------------------- lengths

  function Removed(s: seq<Splice>): int { if s == [] then 0 else s[0].end - s[0].start + Removed(s[1..]) }
  function Added(s: seq<Splice>): int { if s == [] then 0 else |s[0].text| + Added(s[1..]) }

  lemma {:induction false} Sums(a: seq<Splice>, b: seq<Splice>)
    ensures Removed(a + b) == Removed(a) + Removed(b) && Added(a + b) == Added(a) + Added(b)
    decreases |a|
  {
    if a == [] {
      assert a + b == b;
    } else {
      assert (a + b)[1..] == a[1..] + b;
      Sums(a[1..], b);
    }
  }

  lemma {:induction false} LengthOf(text: string, s: seq<Splice>, c: nat, stop: nat)
    requires Fits(s, c, stop) && stop <= |text|
    ensures |Substitute(text, s, c, stop)| == stop - c - Removed(s) + Added(s)
    decreases |s|
  {
    FitsEnd(s, c, stop);
    if s != [] { LengthOf(text, s[1..], s[0].end, stop); }
  }

  lemma {:induction false} PiecesSums(f: FlatText, e: Splice, n: nat)
    requires 0 < n <= |f.runs|
    ensures var p, ps, touched := Clip(f, e, n - 1), Pieces(f, e, n - 1), Touched(f.runs, e, n - 1);
            && Removed(Pieces(f, e, n)) == Removed(ps) + (if touched then p.end - p.start else 0)
            && Added(Pieces(f, e, n)) == Added(ps) + (if touched then |p.text| else 0)
            && (Pieces(f, e, n) == [] <==> ps == [] && !touched)
  {
    PiecesStep(f, e, n);
    hide Touched; hide Clip; hide Pieces;
    Sums(Pieces(f, e, n - 1), [Clip(f, e, n - 1)]);
  }

  /** The pieces together carry the edit's text once. */
  lemma {:induction false} PiecesAdd(f: FlatText, e: Splice, n: nat)
    requires RunsOk(f.text, f.runs) && Valid(e) && n <= |f.runs|
    ensures Added(Pieces(f, e, n)) == if Pieces(f, e, n) == [] then 0 else |e.text|
  {
    hide OwnPiece; hide RunsOk; hide RunsTouching; hide Touched;
    if n > 0 {
      PiecesAdd(f, e, n - 1);
      PiecesSums(f, e, n);
      PiecesWitness(f, e, n - 1);
      if Touched(f.runs, e, n - 1) { FirstIsLeast(f, e, n - 1); }
    }
  }

  /** The pieces remove no more than the edit's range, and less if `x` in it is outside every run. */
  lemma {:induction false} PiecesRemove(f: FlatText, e: Splice, n: nat, x: nat) returns (reach: nat, k: nat)
    requires RunsOk(f.text, f.runs) && Valid(e) && n <= |f.runs|
    ensures e.start <= reach <= e.end && (reach == e.start || (k < n && reach <= f.runs[k].flatEnd))
    ensures Removed(Pieces(f, e, n)) <= reach - e.start
    ensures e.start <= x < reach && !InRun(f.runs, x) ==> Removed(Pieces(f, e, n)) < reach - e.start
  {
    hide OwnPiece; hide RunsTouching; hide Touched; hide IsFirst;
    if n == 0 { return e.start, 0; }
    reach, k := PiecesRemove(f, e, n - 1, x);
    PiecesSums(f, e, n);
    if Touched(f.runs, e, n - 1) {
      ClipShape(f, e, n - 1);
      reach, k := Clip(f, e, n - 1).end, n - 1;
    }
  }

  lemma {:induction false} Shortfall(f: FlatText, e: Splice)
    requires RunsOk(f.text, f.runs) && Valid(e) && Valid(Clamp(f, e))
    ensures Removed(Pieces(f, e, |f.runs|)) <= Clamp(f, e).end - e.start
    ensures !Covered(f, e) ==> Removed(Pieces(f, e, |f.runs|)) < Clamp(f, e).end - e.start
  {
    if Covered(f, e) {
      var r, k := PiecesRemove(f, e, |f.runs|, 0);
    } else {
      var x: nat :| e.start <= x < Clamp(f, e).end && !InRun(f.runs, x);
      var r, k := PiecesRemove(f, e, |f.runs|, x);
    }
  }

  ghost predicate AllTouch(f: FlatText, edits: seq<Splice>) {
    forall k :: 0 <= k < |edits| ==> RunsTouching(f.runs, edits[k]) != []
  }

  ghost predicate AllCovered(f: FlatText, edits: seq<Splice>) {
    forall k :: 0 <= k < |edits| ==> Covered(f, edits[k])
  }

  lemma {:induction false} TotalShortfall(f: FlatText, edits: seq<Splice>)
    requires RunsOk(f.text, f.runs) && AllValid(edits) && AllTouch(f, edits)
    ensures Added(AllPieces(f, edits)) == Added(Clamps(f, edits))
    ensures Removed(AllPieces(f, edits)) <= Removed(Clamps(f, edits))
    ensures !AllCovered(f, edits) ==> Removed(AllPieces(f, edits)) < Removed(Clamps(f, edits))
    decreases |edits|
  {
    hide Pieces; hide Covered; hide RunsTouching; hide Clamp;
    if edits == [] {
      assert Clamps(f, edits) == [];
    } else {
      var last := |edits| - 1;
      var front, e := edits[..last], edits[last];
      TotalShortfall(f, front);
      OneShortfall(f, e);
      assert Clamps(f, edits) == Clamps(f, front) + [Clamp(f, e)];
      Sums(Clamps(f, front), [Clamp(f, e)]);
      Sums(AllPieces(f, front), Pieces(f, e, |f.runs|));
      assert !AllCovered(f, edits) ==> !AllCovered(f, front) || !Covered(f, e);
    }
  }

  lemma {:induction false} OneShortfall(f: FlatText, e: Splice)
    requires RunsOk(f.text, f.runs) && Valid(e) && RunsTouching(f.runs, e) != []
    ensures Added(Pieces(f, e, |f.runs|)) == Added([Clamp(f, e)])
    ensures Removed(Pieces(f, e, |f.runs|)) <= Removed([Clamp(f, e)])
    ensures !Covered(f, e) ==> Removed(Pieces(f, e, |f.runs|)) < Removed([Clamp(f, e)])
  {
    PiecesAdd(f, e, |f.runs|);
    TouchingStartsInText(f, e);
    Shortfall(f, e);
    hide Pieces; hide Covered;
    TouchedIsTouching(f.runs, e);
    assert RunsTouching(f.runs, e)[0] in RunsTouching(f.runs, e);
    PiecesWitness(f, e, |f.runs|);
  }

  // ---------------------------------------------------------------- the theorem

  lemma {:induction false} AcceptedEditsFollow(edits: seq<Splice>)
    requires AllValid(edits) && AllOrderly(edits) && AllDistinct(edits)
    ensures AllFollow(Sorted(edits))
  {
    var t := Sorted(edits);
    SortedFacts(edits);
    OrderlySortsToChain(edits);
    DistinctIfNeighboursDiffer(edits);
    hide Sorted;
    forall p, q | 0 <= p < q < |t| ensures Follows(t[p], t[q]) {
      ChainApart(t, p, q);
      SpansDiffer(t, p, q);
    }
  }

  /** Edits accepted by the overlap check, each touching a run, leave the region
    * reading as if all of them had been applied to its text at once, exactly when
    * none of them reaches over a separator.
    */
  lemma {:induction false} EditsReadAsReplacements(f: FlatText, edits: seq<Splice>)
    requires RunsOk(f.text, f.runs) && AllValid(edits) && Accepted(edits) && AllTouch(f, edits)
    ensures Fits(Clamps(f, Sorted(edits)), 0, |f.text|)
    ensures NewText(f, edits) == Replaced(f.text, Clamps(f, Sorted(edits))) <==> AllCovered(f, edits)
  {
    assert AllOrderly(edits) && AllDistinct(edits);
    hide *;
    var t, c, n := Sorted(edits), Clamps(f, Sorted(edits)), |f.text|;
    AcceptedEditsFit(f, edits);
    NewTextFromPieces(f, edits);
    SortedTouch(f, edits);
    TotalShortfall(f, t);
    LengthOf(f.text, c, 0, n);
    LengthOf(f.text, AllPieces(f, t), 0, n);
    ReplacedIs(f.text, c);
    ReplacedIs(f.text, AllPieces(f, t));
    if AllCovered(f, t) {
      AllCoveredTiled(f, t);
      assert c + [] == c && AllPieces(f, t) + [] == AllPieces(f, t);
      MergeAll(f, t, []);
    }
  }

  lemma {:induction false} AcceptedEditsFit(f: FlatText, edits: seq<Splice>)
    requires RunsOk(f.text, f.runs) && AllValid(edits) && AllOrderly(edits) && AllTouch(f, edits)
    ensures Fits(Clamps(f, Sorted(edits)), 0, |f.text|)
  {
    var t, c, n := Sorted(edits), Clamps(f, Sorted(edits)), |f.text|;
    SortedFacts(edits);
    OrderlySortsToChain(edits);
    hide Sorted; hide RunsTouching; hide RunsOk;
    forall k | 0 <= k < |t| ensures Valid(c[k]) {
      assert t[k] in edits;
      TouchingStartsInText(f, t[k]);
    }
    ChainFits(c, 0, n);
  }

  /** The least region in which an accepted edit does not read so: two paragraphs, and an
    * edit over both. The text between them stays.
    */
  lemma {:induction false} EditOverSeparatorKeepsIt(f: FlatText, t: string)
    requires f.text == "a\nb" && |f.runs| == 2 && f.runs[0].flatStart == 0 && f.runs[0].flatEnd == 1
    requires f.runs[1].flatStart == 2 && f.runs[1].flatEnd == 3
    ensures var edits := [Splice(0, 3, t)];
            && RunsOk(f.text, f.runs) && AllValid(edits) && Accepted(edits) && AllTouch(f, edits)
            && !AllCovered(f, edits) && Fits(Clamps(f, Sorted(edits)), 0, |f.text|)
            && NewText(f, edits) != Replaced(f.text, Clamps(f, Sorted(edits)))
  {
    var e := Splice(0, 3, t);
    assert Meets(f.runs[0], e);
    assert 0 in RunsTouching(f.runs, e);
    assert !InRun(f.runs, 1);
    assert !Covered(f, [e][0]);
    hide RunsTouching; hide Covered; hide NewText; hide Sorted;
    EditsReadAsReplacements(f, [e]);
  }

  lemma {:induction false} NewTextFromPieces(f: FlatText, edits: seq<Splice>)
    requires RunsOk(f.text, f.runs) && AllValid(edits) && AllOrderly(edits) && AllDistinct(edits)
    ensures Ready(f, edits) && AllValid(Sorted(edits)) && Fits(AllPieces(f, Sorted(edits)), 0, |f.text|)
    ensures NewText(f, edits) == Replaced(f.text, AllPieces(f, Sorted(edits)))
  {
    NewTextIs(f, edits);
    RunByRun(f, edits, |f.runs|, |f.text|);
    AcceptedEditsFollow(edits);
    hide *;
    FragmentsArePieces(f, Sorted(edits));
    ReplacedIs(f.text, AllPieces(f, Sorted(edits)));
  }

  lemma {:induction false} SortedTouch(f: FlatText, edits: seq<Splice>)
    requires AllTouch(f, edits)
    ensures AllTouch(f, Sorted(edits))
    ensures AllCovered(f, edits) <==> AllCovered(f, Sorted(edits))
  {
    var t := Sorted(edits);
    SortedFacts(edits);
    hide Sorted; hide Covered; hide RunsTouching;
    forall k | 0 <= k < |t| ensures RunsTouching(f.runs, t[k]) != [] && (AllCovered(f, edits) ==> Covered(f, t[k])) {
      assert t[k] in edits;
    }
    forall k | 0 <= k < |edits| ensures AllCovered(f, t) ==> Covered(f, edits[k]) { assert edits[k] in t; }
  }

  lemma {:induction false} AllCoveredTiled(f: FlatText, t: seq<Splice>)
    requires RunsOk(f.text, f.runs) && AllValid(t) && AllTouch(f, t) && AllCovered(f, t)
    ensures AllTiled(f, t)
  {
    forall k | 0 <= k < |t| ensures Tiles(Pieces(f, t[k], |f.runs|), Clamp(f, t[k])) {
      CoveredIsTiled(f, t[k]);
    }
  }

  lemma {:induction false} NewTextIs(f: FlatText, edits: seq<Splice>)
    requires Ready(f, edits)
    ensures RunsOk(f.text, f.runs) && (|f.runs| > 0 ==> f.runs[|f.runs| - 1].flatEnd <= |f.text|)
    ensures NewText(f, edits) == Assembled(f.text, f.runs, Contents(f, edits), |f.runs|, |f.text|)
  {
  }

  lemma {:induction false} ReplacedIs(text: string, s: seq<Splice>)
    requires Fits(s, 0, |text|)
    ensures Replaced(text, s) == Substitute(text, s, 0, |text|)
  {
  }
}
