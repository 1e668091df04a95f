/** Where everything ends up when ranges of a text are replaced. */
module DocxReplaced {
  import opened DocxEdit

  /** How much longer the first `k` splices make the text. */
  function Growth(splices: seq<Splice>, k: nat): int
    requires k <= |splices|
  {
    if k == 0 then 0
    else |splices[0].text| - (splices[0].end - splices[0].start) + Growth(splices[1..], k - 1)
  }

  /** The text between the splices before `k` and the one at `k` runs from here ... */
  function GapFrom(splices: seq<Splice>, cursor: nat, k: nat): nat
    requires k <= |splices|
  {
    if k == 0 then cursor else splices[k - 1].end
  }

  /** ... to here. */
  function GapTo(splices: seq<Splice>, stop: nat, k: nat): nat
    requires k <= |splices|
  {
    if k == |splices| then stop else splices[k].start
  }

  /** Part of a text. */
  predicate Stands(part: string, whole: string, at: int) {
    0 <= at && at + |part| <= |whole| && whole[at..at + |part|] == part
  }

  lemma {:induction false} StandsLater(part: string, whole: string, before: string, at: int)
    requires Stands(part, whole, at)
    ensures Stands(part, before + whole, |before| + at)
  {
  }

  lemma {:induction false} SpliceStands(text: string, splices: seq<Splice>, cursor: nat, stop: nat, k: nat)
    requires Fits(splices, cursor, stop) && stop <= |text| && k < |splices|
    ensures Stands(splices[k].text, Substitute(text, splices, cursor, stop),
                   splices[k].start - cursor + Growth(splices, k))
    decreases |splices|
  {
    var h, rest := splices[0], splices[1..];
    Unfold(text, splices, cursor, stop);
    var before := text[cursor..h.start] + h.text;
    var after := Substitute(text, rest, h.end, stop);
    assert Substitute(text, splices, cursor, stop) == before + after;
    hide Substitute;
    if k == 0 {
      assert (before + after)[h.start - cursor..h.start - cursor + |h.text|] == h.text;
    } else {
      SpliceStands(text, rest, h.end, stop, k - 1);
      StandsLater(splices[k].text, after, before, rest[k - 1].start - h.end + Growth(rest, k - 1));
    }
  }

  lemma {:induction false} GapStands(text: string, splices: seq<Splice>, cursor: nat, stop: nat, k: nat)
    requires Fits(splices, cursor, stop) && stop <= |text| && k <= |splices|
    ensures GapFrom(splices, cursor, k) <= GapTo(splices, stop, k) <= |text|
    ensures Stands(text[GapFrom(splices, cursor, k)..GapTo(splices, stop, k)],
                   Substitute(text, splices, cursor, stop), GapFrom(splices, cursor, k) - cursor + Growth(splices, k))
    decreases |splices|
  {
    if splices != [] {
      var h, rest := splices[0], splices[1..];
      Unfold(text, splices, cursor, stop);
      var before := text[cursor..h.start] + h.text;
      var after := Substitute(text, rest, h.end, stop);
      assert Substitute(text, splices, cursor, stop) == before + after;
      hide Substitute;
      if k == 0 {
        assert (before + after)[..h.start - cursor] == text[cursor..h.start];
      } else {
        GapStands(text, rest, h.end, stop, k - 1);
        assert GapFrom(rest, h.end, k - 1) == GapFrom(splices, cursor, k);
        assert GapTo(rest, stop, k - 1) == GapTo(splices, stop, k);
        StandsLater(text[GapFrom(splices, cursor, k)..GapTo(splices, stop, k)], after, before,
                    GapFrom(rest, h.end, k - 1) - h.end + Growth(rest, k - 1));
      }
    }
  }

  lemma {:induction false} SubstituteLength(text: string, splices: seq<Splice>, cursor: nat, stop: nat)
    requires Fits(splices, cursor, stop) && stop <= |text|
    ensures |Substitute(text, splices, cursor, stop)| == stop - cursor + Growth(splices, |splices|)
    decreases |splices|
  {
    if splices != [] {
      Unfold(text, splices, cursor, stop);
      SubstituteLength(text, splices[1..], splices[0].end, stop);
    }
  }

  /** The splice's text stands where its range was. */
  ghost predicate SpliceKept(text: string, splices: seq<Splice>, result: string, k: nat)
    requires k < |splices|
  {
    Stands(splices[k].text, result, splices[k].start + Growth(splices, k))
  }

  /** The text before the splice at `k`, from the one before it on, stands where it did. */
  ghost predicate GapKept(text: string, splices: seq<Splice>, result: string, k: nat)
    requires k <= |splices|
  {
    var from, to := GapFrom(splices, 0, k), GapTo(splices, |text|, k);
    from <= to <= |text| && Stands(text[from..to], result, from + Growth(splices, k))
  }

  /** Replacing ranges puts each splice's text where its range was, keeps the text between
    * them, both moved by what earlier splices added or took, and adds nothing else.
    */
  lemma {:induction false} ReplacedIs(text: string, splices: seq<Splice>)
    requires Fits(splices, 0, |text|)
    ensures |Replaced(text, splices)| == |text| + Growth(splices, |splices|)
    ensures forall k :: 0 <= k < |splices| ==> SpliceKept(text, splices, Replaced(text, splices), k)
    ensures forall k :: 0 <= k <= |splices| ==> GapKept(text, splices, Replaced(text, splices), k)
  {
    SubstituteLength(text, splices, 0, |text|);
    hide Substitute; hide Fits; hide Stands; hide Growth; hide GapKept; hide SpliceKept;
    forall k | 0 <= k < |splices| ensures SpliceKept(text, splices, Replaced(text, splices), k) {
      SpliceIsKept(text, splices, k);
    }
    forall k | 0 <= k <= |splices| ensures GapKept(text, splices, Replaced(text, splices), k) {
      GapIsKept(text, splices, k);
    }
  }

  lemma {:induction false} SpliceIsKept(text: string, splices: seq<Splice>, k: nat)
    requires Fits(splices, 0, |text|) && k < |splices|
    ensures SpliceKept(text, splices, Replaced(text, splices), k)
  {
    hide Substitute; hide Fits; hide Stands;
    SpliceStands(text, splices, 0, |text|, k);
  }

  lemma {:induction false} GapIsKept(text: string, splices: seq<Splice>, k: nat)
    requires Fits(splices, 0, |text|) && k <= |splices|
    ensures GapKept(text, splices, Replaced(text, splices), k)
  {
    hide Substitute; hide Fits; hide Stands;
    GapStands(text, splices, 0, |text|, k);
  }
}
