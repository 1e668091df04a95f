/** Reading an edited document again. The reader delivers the same events at other
  * offsets, each text element with its new content, and text that was put behind a
  * self-closing text element as events of its own. The regions then read as the edits
  * intended, exactly when no text was put behind such an element.
  */
module DocxReread {
  import opened Options
  import opened DocxFlatten
  import opened DocxEdit
  import opened DocxSplice
  import opened DocxMeaning
  import opened DocxApply
  import opened DocxRuns

  // ---------------------------------------------------------------- the stream of the spliced document

  /** The replacement written at offset `x`, if any. */
  function WrittenAt(chain: seq<Splice>, x: nat): (r: Option<Splice>)
    ensures r.Some? ==> r.value in chain && r.value.start == x
    ensures r.None? ==> forall s :: s in chain ==> s.start != x
  {
    if chain == [] then None else if chain[0].start == x then Some(chain[0]) else WrittenAt(chain[1..], x)
  }

  /** What a text element holds once `chain` is written: its new content, unescaped, or what
    * it held. What is written at a self-closing element lands behind it.
    */
  function Holds(e: Event, chain: seq<Splice>): string {
    if !e.Text? then ""
    else
      var written := WrittenAt(chain, e.contentStart);
      if written.Some? then Unescape(written.value.text) else Decoded(e.pieces)
  }

  predicate AllOther(events: seq<Event>) { forall i :: 0 <= i < |events| ==> events[i].Other? }

  /** Text was written behind the self-closing element. */
  predicate Strays(e: Event, chain: seq<Splice>)
    requires e.EmptyText?
  {
    var written := WrittenAt(chain, e.after);
    written.Some? && written.value.text != ""
  }

  /** What the reader delivers for `e` once `chain` is written. Text outside the text elements
    * arrives as events without effect, and may be split or merged.
    */
  predicate Becomes(e: Event, out: seq<Event>, chain: seq<Splice>) {
    match e
    case Open(name, _, _) => |out| == 1 && out[0].Open? && out[0].name == name
    case Empty(name, isNone, _, _) => |out| == 1 && out[0].Empty? && out[0].name == name && out[0].isNone == isNone
    case Close(name, _, _) => |out| == 1 && out[0].Close? && out[0].name == name
    case Text(_, _, _, _) => |out| == 1 && out[0].Text? && Decoded(out[0].pieces) == Holds(e, chain)
    case EmptyText(_, _) =>
        out != [] && out[0].EmptyText? && AllOther(out[1..]) && (out[1..] != [] <==> Strays(e, chain))
    case Other(_, _) => AllOther(out)
  }

  /** `events'` is a stream of the document spliced with `chain`, if `events` is one of the document. */
  ghost predicate Reread(events: seq<Event>, events': seq<Event>, chain: seq<Splice>)
    decreases |events|
  {
    if events == [] then events' == []
    else
      var n := |events| - 1;
      exists m :: 0 <= m <= |events'| && Becomes(events[n], events'[m..], chain)
          && Reread(events[..n], events'[..m], chain)
  }

  /** `e'` is `e` with other offsets; `found` gives what a text element is now found to hold. */
  predicate Alike(e: Event, e': Event, found: nat -> string) {
    match e
    case Open(name, _, _) => e'.Open? && e'.name == name
    case Empty(name, isNone, _, _) => e'.Empty? && e'.name == name && e'.isNone == isNone
    case Close(name, _, _) => e'.Close? && e'.name == name
    case Text(_, start, _, _) => e'.Text? && Decoded(e'.pieces) == found(start)
    case EmptyText(_, after) => e'.EmptyText? && found(after) == ""
    case Other(_, _) => e'.Other?
  }

  /** The offset by which a text element is known. */
  predicate HoldsAt(e: Event, x: nat) { (e.Text? && e.contentStart == x) || (e.EmptyText? && e.after == x) }

  ghost function HeldAt(events: seq<Event>, chain: seq<Splice>, x: nat): string {
    if k: nat :| k < |events| && HoldsAt(events[k], x) then Holds(events[k], chain) else ""
  }

  ghost function HeldIn(events: seq<Event>, chain: seq<Splice>): nat -> string { (x: nat) => HeldAt(events, chain, x) }

  /** Text elements of one document are known by different offsets. */
  lemma {:induction false} HeldUnique(events: seq<Event>, chain: seq<Splice>, k: nat, x: nat)
    requires InOrder(events) && k < |events| && HoldsAt(events[k], x)
    ensures HeldAt(events, chain, x) == Holds(events[k], chain)
  {
    hide Holds;
    forall j: nat | j < |events| && HoldsAt(events[j], x)
      ensures j == k
    {
      OffsetsDiffer(events, j, k, x); OffsetsDiffer(events, k, j, x);
    }
  }

  lemma {:induction false} OffsetsDiffer(events: seq<Event>, j: nat, k: nat, x: nat)
    requires InOrder(events) && j < |events| && k < |events|
    ensures j < k && HoldsAt(events[j], x) ==> !HoldsAt(events[k], x)
  {
    assert EventOk(events[j]) && EventOk(events[k]);
  }

  ghost predicate Agrees(events: seq<Event>, chain: seq<Splice>, found: nat -> string) {
    forall k :: 0 <= k < |events| ==>
      (events[k].Text? ==> found(events[k].contentStart) == Holds(events[k], chain))
          && (events[k].EmptyText? ==> found(events[k].after) == "")
  }

  lemma {:induction false} HeldAgrees(events: seq<Event>, chain: seq<Splice>)
    requires InOrder(events)
    ensures Agrees(events, chain, HeldIn(events, chain))
  {
    hide HeldAt; hide InOrder;
    forall k | 0 <= k < |events|
      ensures events[k].Text? ==> HeldIn(events, chain)(events[k].contentStart) == Holds(events[k], chain)
      ensures events[k].EmptyText? ==> HeldIn(events, chain)(events[k].after) == ""
    {
      if events[k].Text? { HeldUnique(events, chain, k, events[k].contentStart); }
      if events[k].EmptyText? { HeldUnique(events, chain, k, events[k].after); }
    }
  }

  // ---------------------------------------------------------------- reading a region

  /** `text` with every run's stretch replaced by what is found there. */
  function Reading(text: string, runs: seq<RunSpan>, found: nat -> string): string
    requires RunsOk(text, runs)
    decreases |runs|
  {
    if runs == [] then text
    else
      var k := |runs| - 1;
      Reading(text[..runs[k].flatStart], runs[..k], found) + found(runs[k].contentStart) + text[runs[k].flatEnd..]
  }

  lemma {:induction false} NothingRead(found: nat -> string)
    ensures RunsOk("", []) && Reading("", [], found) == ""
  {
  }

  lemma {:induction false} ReadSeparator(text: string, runs: seq<RunSpan>, found: nat -> string, c: string)
    requires RunsOk(text, runs)
    ensures RunsOk(text + c, runs) && Reading(text + c, runs, found) == Reading(text, runs, found) + c
  {
    if runs != [] {
      var k := |runs| - 1;
      assert (text + c)[..runs[k].flatStart] == text[..runs[k].flatStart];
      assert (text + c)[runs[k].flatEnd..] == text[runs[k].flatEnd..] + c;
      Regroup(Reading(text[..runs[k].flatStart], runs[..k], found) + found(runs[k].contentStart),
              text[runs[k].flatEnd..], c);
    }
  }

  lemma {:induction false} ReadRun(text: string, runs: seq<RunSpan>, found: nat -> string, decoded: string,
                                   run: RunSpan)
    requires RunsOk(text, runs) && run.flatStart == |text| && run.flatEnd == |text| + |decoded|
    ensures RunsOk(text + decoded, runs + [run])
    ensures Reading(text + decoded, runs + [run], found) == Reading(text, runs, found) + found(run.contentStart)
  {
    assert (runs + [run])[..|runs|] == runs && (text + decoded)[..|text|] == text
           && (text + decoded)[run.flatEnd..] == "";
  }

  lemma {:induction false} ReadClosedRun(text: string, runs: seq<RunSpan>, found: nat -> string, end: nat)
    requires RunsOk(text, runs) && runs != []
    ensures var last := |runs| - 1; var closed := runs[last := runs[last].(runEnd := end)];
            RunsOk(text, closed) && Reading(text, closed, found) == Reading(text, runs, found)
  {
    var last := |runs| - 1;
    assert runs[last := runs[last].(runEnd := end)][..last] == runs[..last];
  }

  // ---------------------------------------------------------------- simulation

  ghost predicate Same(acc: Accumulator, acc': Accumulator, found: nat -> string) {
    RunsOk(acc.text, acc.runs) && acc'.text == Reading(acc.text, acc.runs, found)
        && acc'.wroteParagraph == acc.wroteParagraph
    && |acc'.runs| == |acc.runs|
  }

  ghost predicate SameText(f: FlatText, f': FlatText, found: nat -> string) {
    RunsOk(f.text, f.runs) && f'.text == Reading(f.text, f.runs, found)
  }

  ghost predicate Tracks(s: State, s': State, found: nat -> string) {
    && Same(s.body, s'.body, found) && |s.stack| == |s'.stack| && |s.cells| == |s'.cells|
    && (forall i :: 0 <= i < |s.stack| ==> Same(s.stack[i], s'.stack[i], found))
    && (forall i :: 0 <= i < |s.cells| ==> SameText(s.cells[i], s'.cells[i], found))
    && s.inTabStops == s'.inTabStops && s.fallback == s'.fallback && s.run.pushed == s'.run.pushed
  }

  lemma {:induction false} TracksCurrent(s: State, s': State, found: nat -> string, acc: Accumulator, acc': Accumulator)
    requires Tracks(s, s', found) && Same(acc, acc', found)
    ensures Tracks(WithCurrent(s, acc), WithCurrent(s', acc'), found)
  {
  }

  lemma {:induction false} HandleTracks(s: State, s': State, e: Event, e': Event, found: nat -> string)
    requires Tracks(s, s', found) && Alike(e, e', found)
    ensures Tracks(Handle(s, e), Handle(s', e'), found)
  {
    match e
    case Open(name, _, _) => OpenTracks(s, s', name, e.before, e'.before, found);
    case Empty(name, isNone, _, _) => EmptyTracks(s, s', e, e', found);
    case Close(name, _, _) => CloseTracks(s, s', e, e', found);
    case Text(_, _, pieces, _) => TextTracks(s, s', e, e', found);
    case EmptyText(_, _) => TextTracks(s, s', e, e', found);
    case Other(_, _) =>
  }

  lemma {:induction false} OpenTracks(s: State, s': State, name: Name, before: nat, before': nat, found: nat -> string)
    requires Tracks(s, s', found)
    ensures Tracks(OnOpen(s, name, before), OnOpen(s', name, before'), found)
  {
    hide Reading; hide RunsOk;
    if name == P { ParagraphTracks(s, s', found); }
    if name == Tc { NothingRead(found); }
  }

  lemma {:induction false} ParagraphTracks(s: State, s': State, found: nat -> string)
    requires Tracks(s, s', found)
    ensures Tracks(OnOpen(s, P, 0), OnOpen(s', P, 0), found)
  {
    hide Reading; hide RunsOk;
    var acc, acc' := Current(s), Current(s');
    assert Same(acc, acc', found);
    var t, t' := s.(depth := s.depth + 1), s'.(depth := s'.depth + 1);
    ReadSeparator(acc.text, acc.runs, found, "\n");
    if acc.wroteParagraph {
      TracksCurrent(t, t', found, acc.(text := acc.text + "\n"), acc'.(text := acc'.text + "\n"));
    } else {
      TracksCurrent(t, t', found, acc.(wroteParagraph := true, firstDepth := Some(s.depth + 1)),
                    acc'.(wroteParagraph := true, firstDepth := Some(s'.depth + 1)));
    }
  }

  lemma {:induction false} EmptyTracks(s: State, s': State, e: Event, e': Event, found: nat -> string)
    requires Tracks(s, s', found) && e.Empty? && Alike(e, e', found)
    ensures Tracks(Handle(s, e), Handle(s', e'), found)
  {
    if e.name == Tab {
      TabTracks(s, s', e, e', found);
    } else if e.name == P {
      EmptyParagraphTracks(s, s', e, e', found);
    }
    hide Reading; hide RunsOk; hide Same; hide SameText; hide WithCurrent;
  }

  lemma {:induction false} TabTracks(s: State, s': State, e: Event, e': Event, found: nat -> string)
    requires Tracks(s, s', found) && e.Empty? && Alike(e, e', found) && e.name == Tab
    ensures Tracks(Handle(s, e), Handle(s', e'), found)
  {
    hide Reading; hide RunsOk;
    var acc, acc' := Current(s), Current(s');
    assert Same(acc, acc', found);
    ReadSeparator(acc.text, acc.runs, found, "\t");
    var t, t' := Current(Handle(s, e)), Current(Handle(s', e'));
    assert Same(t, t', found);
    hide Same;
    TracksCurrent(s, s', found, t, t');
  }

  lemma {:induction false} EmptyParagraphTracks(s: State, s': State, e: Event, e': Event, found: nat -> string)
    requires Tracks(s, s', found) && e.Empty? && Alike(e, e', found) && e.name == P
    ensures Tracks(Handle(s, e), Handle(s', e'), found)
  {
    hide Reading; hide RunsOk;
    assert Same(Current(s), Current(s'), found);
    var t, t' := Current(Handle(s, e)), Current(Handle(s', e'));
    assert Same(t, t', found);
    hide Same;
    TracksCurrent(s, s', found, t, t');
  }

  lemma {:induction false} CloseTracks(s: State, s': State, e: Event, e': Event, found: nat -> string)
    requires Tracks(s, s', found) && e.Close? && Alike(e, e', found)
    ensures Tracks(Handle(s, e), Handle(s', e'), found)
  {
    hide Reading; hide RunsOk; hide CloseParagraph; hide CloseRun;
    var acc := Current(s);
    assert Same(acc, Current(s'), found);
    if e.name == TxbxContent { ReadSeparator(acc.text, acc.runs, found, "\n"); }
    if e.name == P { CloseParagraphTracks(s, s', e.before, e'.before, found); }
    if e.name == R { CloseRunTracks(s, s', e.after, e'.after, found); }
  }

  lemma {:induction false} CloseParagraphTracks(s: State, s': State, before: nat, before': nat, found: nat -> string)
    requires Tracks(s, s', found)
    ensures Tracks(CloseParagraph(s, before), CloseParagraph(s', before'), found)
  {
    hide Reading; hide RunsOk;
    assert Same(Current(s), Current(s'), found);
  }

  lemma {:induction false} CloseRunTracks(s: State, s': State, after: nat, after': nat, found: nat -> string)
    requires Tracks(s, s', found)
    ensures Tracks(CloseRun(s, after), CloseRun(s', after'), found)
  {
    hide Reading; hide RunsOk;
    var acc := Current(s);
    assert Same(acc, Current(s'), found);
    if acc.runs != [] { ReadClosedRun(acc.text, acc.runs, found, after); }
  }

  lemma {:induction false} TextTracks(s: State, s': State, e: Event, e': Event, found: nat -> string)
    requires Tracks(s, s', found) && (e.Text? || e.EmptyText?) && Alike(e, e', found)
    ensures Tracks(Handle(s, e), Handle(s', e'), found)
  {
    hide Reading;
    var acc := Current(s);
    assert Same(acc, Current(s'), found);
    var decoded := if e.Text? then Decoded(e.pieces) else "";
    var start, end :=
        if e.Text? then e.contentStart else e.after, if e.Text? then ContentEnd(e.contentStart, e.pieces) else e.after;
    var pushed := PushRun(acc, decoded, start, end, s.run, e.before);
    ReadRun(acc.text, acc.runs, found, decoded, pushed.runs[|acc.runs|]);
  }

  lemma {:induction false} StepTracks(s: State, s': State, e: Event, e': Event, found: nat -> string)
    requires Tracks(s, s', found) && Alike(e, e', found)
    ensures Tracks(Step(s, e), Step(s', e'), found)
  {
    if s.fallback == 0 && !OpensFallback(e) && !ClosesFallback(e) {
      HandleTracks(s, s', e, e', found);
    }
    hide Handle; hide Reading;
  }

  lemma {:induction false} FoldAppend(s: State, a: seq<Event>, b: seq<Event>)
    ensures Fold(s, a + b) == Fold(Fold(s, a), b)
    decreases |b|
  {
    hide Step;
    if b == [] {
      assert a + b == a;
    } else {
      var n := |b| - 1;
      FoldAppend(s, a, b[..n]);
      assert (a + b)[..|a| + n] == a + b[..n];
    }
  }

  lemma {:induction false} OthersChangeNothing(s: State, others: seq<Event>)
    requires AllOther(others)
    ensures Fold(s, others) == s
    decreases |others|
  {
    if others != [] { OthersChangeNothing(s, others[..|others| - 1]); }
  }

  lemma {:induction false} FoldOne(s: State, e: Event)
    ensures Fold(s, [e]) == Step(s, e)
  {
    assert [e][..0] == [];
  }

  lemma {:induction false} BecomesTracks(s: State, s': State, e: Event, out: seq<Event>, chain: seq<Splice>,
                                         found: nat -> string)
    requires Tracks(s, s', found) && Becomes(e, out, chain)
    requires (e.Text? ==> found(e.contentStart) == Holds(e, chain)) && (e.EmptyText? ==> found(e.after) == "")
    ensures Tracks(Step(s, e), Fold(s', out), found)
  {
    hide Tracks; hide Holds; hide Strays; hide Handle; hide Fold;
    if e.Other? {
      OthersChangeNothing(s', out);
      OthersChangeNothing(s, [e]);
      FoldOne(s, e);
    } else {
      assert Alike(e, out[0], found);
      StepTracks(s, s', e, out[0], found);
      assert out == [out[0]] + out[1..];
      FoldAppend(s', [out[0]], out[1..]);
      FoldOne(s', out[0]);
      assert AllOther(out[1..]);
      OthersChangeNothing(Step(s', out[0]), out[1..]);
    }
  }

  lemma {:induction false} FoldTracks(events: seq<Event>, events': seq<Event>, chain: seq<Splice>, found: nat -> string)
    requires Reread(events, events', chain) && Agrees(events, chain, found)
    ensures Tracks(Fold(Initial, events), Fold(Initial, events'), found)
    decreases |events|
  {
    hide Step; hide Becomes; hide Holds;
    if events != [] {
      var n := |events| - 1;
      var m :| 0 <= m <= |events'| && Becomes(events[n], events'[m..], chain)
          && Reread(events[..n], events'[..m], chain);
      FoldTracks(events[..n], events'[..m], chain, found);
      hide Tracks;
      BecomesTracks(Fold(Initial, events[..n]), Fold(Initial, events'[..m]), events[n], events'[m..], chain, found);
      FoldAppend(Initial, events'[..m], events'[m..]);
      assert events'[..m] + events'[m..] == events';
    }
  }

  /** Every region reads as before with each run's text replaced by what its element now holds. */
  lemma {:induction false} RegionsReadAsHeld(events: seq<Event>, events': seq<Event>, chain: seq<Splice>)
    requires InOrder(events) && Reread(events, events', chain)
    ensures var was, now := Regions(Flatten(events)), Regions(Flatten(events'));
            |now| == |was| && forall r :: 0 <= r < |was| ==> SameText(was[r], now[r], HeldIn(events, chain))
  {
    HeldAgrees(events, chain);
    FoldTracks(events, events', chain, HeldIn(events, chain));
    hide Reading; hide Fold; hide RunsOk; hide HeldAt;
  }

  // ---------------------------------------------------------------- what the edits intended

  lemma {:induction false} ReadingIsAssembled(text: string, runs: seq<RunSpan>, found: nat -> string,
                                              contents: seq<string>, n: nat, stop: nat)
    requires RunsOk(text, runs) && |contents| == |runs| && n <= |runs| && stop <= |text|
             && (n > 0 ==> runs[n - 1].flatEnd <= stop)
    requires forall i :: 0 <= i < |runs| ==> contents[i] == found(runs[i].contentStart)
    ensures RunsOk(text[..stop], runs[..n])
    ensures Reading(text[..stop], runs[..n], found) == Assembled(text, runs, contents, n, stop)
    decreases n
  {
    if n > 0 {
      var lo, hi := runs[n - 1].flatStart, runs[n - 1].flatEnd;
      ReadingIsAssembled(text, runs, found, contents, n - 1, lo);
      assert runs[..n][..n - 1] == runs[..n - 1] && text[..stop][..lo] == text[..lo]
             && text[..stop][hi..] == text[hi..stop];
    }
  }

  ghost predicate Missing(a: seq<string>, b: seq<string>, n: nat)
    requires |a| == |b| && n <= |a|
  {
    exists i :: 0 <= i < n && b[i] != a[i]
  }

  lemma {:induction false} MissingTextShows(text: string, runs: seq<RunSpan>, a: seq<string>, b: seq<string>, n: nat,
                                            stop: nat)
    requires RunsOk(text, runs) && |a| == |b| == |runs| && n <= |runs| && stop <= |text|
             && (n > 0 ==> runs[n - 1].flatEnd <= stop)
    requires forall i :: 0 <= i < |a| ==> b[i] == a[i] || b[i] == ""
    ensures |Assembled(text, runs, b, n, stop)| <= |Assembled(text, runs, a, n, stop)|
    ensures Missing(a, b, n) ==> |Assembled(text, runs, b, n, stop)| < |Assembled(text, runs, a, n, stop)|
    ensures !Missing(a, b, n) ==> Assembled(text, runs, b, n, stop) == Assembled(text, runs, a, n, stop)
    decreases n
  {
    if n > 0 {
      MissingTextShows(text, runs, a, b, n - 1, runs[n - 1].flatStart);
      assert Missing(a, b, n) <==> Missing(a, b, n - 1) || b[n - 1] != a[n - 1];
    }
  }

  /** What is found in each run is its rebuilt text, or nothing. */
  ghost predicate FoundOrLost(f: FlatText, edits: seq<Splice>, found: nat -> string)
    requires Ready(f, edits)
  {
    forall i :: 0 <= i < |f.runs| ==>
        found(f.runs[i].contentStart) == Rebuilt(f, edits, i) || found(f.runs[i].contentStart) == ""
  }

  ghost predicate AllFound(f: FlatText, edits: seq<Splice>, found: nat -> string)
    requires Ready(f, edits)
  {
    forall i :: 0 <= i < |f.runs| ==> found(f.runs[i].contentStart) == Rebuilt(f, edits, i)
  }

  lemma {:induction false} RegionReadsBack(f: FlatText, f': FlatText, edits: seq<Splice>, found: nat -> string)
    requires Ready(f, edits) && SameText(f, f', found) && FoundOrLost(f, edits, found)
    ensures f'.text == NewText(f, edits) <==> AllFound(f, edits, found)
  {
    hide Rebuilt; hide Reading;
    var n, contents := |f.runs|, Contents(f, edits);
    var there := seq(n, i requires 0 <= i < n => found(f.runs[i].contentStart));
    ReadingIsAssembled(f.text, f.runs, found, there, n, |f.text|);
    assert f.text[..|f.text|] == f.text && f.runs[..n] == f.runs;
    MissingTextShows(f.text, f.runs, contents, there, n, |f.text|);
  }

  // ---------------------------------------------------------------- what an empty run gets

  predicate NoText(s: seq<Splice>) { forall i :: 0 <= i < |s| ==> s[i].text == "" }

  lemma {:induction false} NothingAdded(s: seq<Splice>)
    ensures Added(s) >= 0 && (Added(s) == 0 <==> NoText(s))
    decreases |s|
  {
    if s != [] {
      NothingAdded(s[1..]);
      assert NoText(s) <==> s[0].text == "" && NoText(s[1..]);
    }
  }

  lemma {:induction false} NothingRemoved(s: seq<Splice>)
    requires AllValid(s) && Within(s, 0, 0)
    ensures Removed(s) == 0
    decreases |s|
  {
    if s != [] {
      assert Valid(s[0]);
      NothingRemoved(s[1..]);
    }
  }

  /** No edit puts text into run `i`. */
  predicate NothingFor(f: FlatText, edits: seq<Splice>, i: nat) {
    forall j :: 0 <= j < |edits| ==> IsFirst(f, edits[j], i) ==> edits[j].text == ""
  }

  lemma {:induction false} FragmentsWithoutText(f: FlatText, edits: seq<Splice>, i: nat)
    requires RunsOk(f.text, f.runs) && AllValid(edits) && i < |f.runs|
    ensures NoText(FragmentsFor(f, edits, i)) <==> NothingFor(f, edits, i)
    decreases |edits|
  {
    hide Touched; hide IsFirst; hide RunsOk; hide FragmentsFor; hide NoText; hide NothingFor;
    if edits == [] {
      NoFragmentsNoText(f, i);
    } else {
      var e, rest := edits[0], edits[1..];
      assert edits == [e] + rest;
      FragmentsWithoutText(f, rest, i);
      FragmentsCons(f, e, rest, i);
      FirstIsTouched(f, e, i);
      NothingForCons(f, e, rest, i);
      if Touched(f.runs, e, i) { NoTextCons(Fragment(f, e, i), FragmentsFor(f, rest, i)); }
    }
  }

  lemma {:induction false} NoFragmentsNoText(f: FlatText, i: nat)
    requires RunsOk(f.text, f.runs) && i < |f.runs|
    ensures NoText(FragmentsFor(f, [], i)) && NothingFor(f, [], i)
  {
  }

  lemma {:induction false} NoTextCons(x: Splice, s: seq<Splice>)
    ensures NoText([x] + s) <==> x.text == "" && NoText(s)
  {
    var all := [x] + s;
    if NoText(all) {
      assert all[0].text == "";
      forall k | 0 <= k < |s| ensures s[k].text == "" { assert all[k + 1] == s[k]; }
    }
  }

  lemma {:induction false} NothingForCons(f: FlatText, e: Splice, rest: seq<Splice>, i: nat)
    ensures NothingFor(f, [e] + rest, i) <==> (IsFirst(f, e, i) ==> e.text == "") && NothingFor(f, rest, i)
  {
    hide IsFirst;
    var all := [e] + rest;
    if NothingFor(f, all, i) {
      assert IsFirst(f, all[0], i) ==> all[0].text == "";
      forall j | 0 <= j < |rest| ensures IsFirst(f, rest[j], i) ==> rest[j].text == "" { assert all[j + 1] == rest[j]; }
    }
  }

  lemma {:induction false} FirstIsTouched(f: FlatText, e: Splice, i: nat)
    requires i < |f.runs|
    ensures IsFirst(f, e, i) ==> Touched(f.runs, e, i)
  {
    TouchedIsTouching(f.runs, e);
    if IsFirst(f, e, i) { assert RunsTouching(f.runs, e)[0] in RunsTouching(f.runs, e); }
  }

  lemma {:induction false} RunInText(f: FlatText, edits: seq<Splice>, i: nat)
    requires Ready(f, edits) && i < |f.runs|
    ensures f.runs[i].flatStart <= f.runs[i].flatEnd <= |f.text|
  {
  }

  /** A run without text stays without text exactly when no edit puts any into it. */
  lemma {:induction false} EmptyRunRebuilt(f: FlatText, edits: seq<Splice>, i: nat)
    requires Ready(f, edits) && i < |f.runs| && f.runs[i].flatStart == f.runs[i].flatEnd
    ensures Rebuilt(f, edits, i) == "" <==> NothingFor(f, edits, i)
  {
    hide FragmentsFor; hide Fits; hide Substitute; hide Sorted; hide NothingFor; hide NoText; hide RunsOk; hide Chain;
    RunInText(f, edits, i);
    var frs := FragmentsFor(f, edits, i);
    var sorted, slice := Sorted(frs), f.text[f.runs[i].flatStart..f.runs[i].flatEnd];
    FragmentsFit(f, edits, i);
    FragmentsWithoutText(f, edits, i);
    ChainFits(sorted, 0, 0);
    LengthOf(slice, sorted, 0, 0);
    NothingRemoved(sorted);
    NothingAdded(sorted);
    SortedWithoutText(frs);
  }

  lemma {:induction false} SortedWithoutText(s: seq<Splice>)
    ensures NoText(Sorted(s)) <==> NoText(s)
  {
    var t := Sorted(s);
    SortedFacts(s);
    hide Sorted;
    forall k | 0 <= k < |t| ensures NoText(s) ==> t[k].text == "" { assert t[k] in s; }
    forall k | 0 <= k < |s| ensures NoText(t) ==> s[k].text == "" { assert s[k] in t; }
  }

  // ---------------------------------------------------------------- the theorem

  /** The run's text element closes itself. */
  ghost predicate SelfClosing(events: seq<Event>, run: RunSpan) {
    exists k :: 0 <= k < |events| && events[k].EmptyText? && IsText(events[k], MarkOf(run))
  }

  /** `chain` is what applying `edits` writes into the document read as `events`. */
  ghost predicate Writes(xml: string, events: seq<Event>, edits: seq<Edit>, chain: seq<Splice>) {
    && InOrder(events) && (forall i :: 0 <= i < |events| ==> events[i].after <= |xml|)
    && AllReady(Regions(Flatten(events)), edits) && ChangesOnlyEdited(Regions(Flatten(events)), edits, chain)
  }

  /** What is written into a run's element is its own rebuilt text. */
  lemma {:induction false} WrittenIsRebuilt(xml: string, regions: seq<FlatText>, edits: seq<Edit>, chain: seq<Splice>,
                                            key: Key)
    requires ContentsApart(xml, regions) && AllReady(regions, edits) && ChangesOnlyEdited(regions, edits, chain)
             && InDocument(regions, key)
    ensures var written := WrittenAt(chain, RunAt(regions, key).contentStart);
            && (written.Some? ==> Unescape(written.value.text) == Rebuilt(regions[key.0], EditsOf(edits, key.0), key.1))
            && (written.None? ==> !Edited(regions, edits, key))
  {
    var written := WrittenAt(chain, RunAt(regions, key).contentStart);
    hide WrittenAt; hide AllReady; hide Rebuilt; hide Unescape; hide Escape;
    if written.Some? {
      var other :| Edited(regions, edits, other) && written.value == Replacement(regions, edits, other);
      assert InDocument(regions, other);
      assert other == key;
      EscapeRoundTrip(Rebuilt(regions[key.0], EditsOf(edits, key.0), key.1));
    }
    assert Edited(regions, edits, key) ==> Replacement(regions, edits, key) in chain;
  }

  lemma {:induction false} UneditedRun(f: FlatText, edits: seq<Splice>, i: nat)
    requires Ready(f, edits) && i < |f.runs| && FragmentsFor(f, edits, i) == []
    ensures f.runs[i].flatStart <= f.runs[i].flatEnd <= |f.text|
    ensures Rebuilt(f, edits, i) == f.text[f.runs[i].flatStart..f.runs[i].flatEnd]
  {
    SortedFacts([]);
    assert Sorted([]) == [];
  }

  /** What a run's element holds afterwards: the rebuilt text, or nothing if it closes itself. */
  lemma {:induction false} RunHolds(xml: string, events: seq<Event>, edits: seq<Edit>, chain: seq<Splice>, key: Key)
    requires Writes(xml, events, edits, chain) && InDocument(Regions(Flatten(events)), key)
    ensures var regions := Regions(Flatten(events));
            var f, own, run := regions[key.0], EditsOf(edits, key.0), RunAt(regions, key);
            && (SelfClosing(events, run) ==>
                HeldIn(events, chain)(run.contentStart) == "" && run.flatStart == run.flatEnd)
            && (!SelfClosing(events, run) ==> HeldIn(events, chain)(run.contentStart) == Rebuilt(f, own, key.1))
  {
    var regions := Regions(Flatten(events));
    var f, own, run := regions[key.0], EditsOf(edits, key.0), RunAt(regions, key);
    RunsStandForTheirText(events);
    FlattenedIsEditable(xml, events);
    WrittenIsRebuilt(xml, regions, edits, chain, key);
    hide Fold; hide Regions; hide ContentsApart; hide ChangesOnlyEdited; hide Rebuilt; hide HeldAt; hide FragmentsFor;
    assert HasElement(f.text, run, events);
    var k: nat :| StandsFor(f.text, run, events, k);
    HeldUnique(events, chain, k, run.contentStart);
    if events[k].EmptyText? {
      assert SelfClosing(events, run);
    } else {
      OneElement(events, run, k);
      if WrittenAt(chain, run.contentStart).None? { UneditedRun(f, own, key.1); }
    }
  }

  lemma {:induction false} OneElement(events: seq<Event>, run: RunSpan, k: nat)
    requires InOrder(events) && k < |events| && IsText(events[k], MarkOf(run)) && !events[k].EmptyText?
    ensures !SelfClosing(events, run)
  {
    forall j: nat | j < |events| && IsText(events[j], MarkOf(run)) ensures j == k {
      MarksDiffer(events, j, k, MarkOf(run));
      MarksDiffer(events, k, j, MarkOf(run));
    }
  }

  lemma {:induction false} MarksDiffer(events: seq<Event>, j: nat, k: nat, m: Mark)
    requires InOrder(events) && j < |events| && k < |events|
    ensures j < k && IsText(events[j], m) ==> !IsText(events[k], m)
  {
    assert EventOk(events[j]);
  }

  /** No edit of the region puts text into a self-closing text element. */
  ghost predicate NothingIntoSelfClosing(events: seq<Event>, f: FlatText, edits: seq<Splice>) {
    forall i :: 0 <= i < |f.runs| && SelfClosing(events, f.runs[i]) ==> NothingFor(f, edits, i)
  }

  /** An edited document, read again: each region's text is what the edits intended, if and
    * only if none of its edits puts text into a self-closing text element.
    */
  lemma {:induction false} EditedDocumentReadsBack(xml: string, events: seq<Event>, edits: seq<Edit>,
                                                   chain: seq<Splice>,
                                                   events': seq<Event>, r: nat)
    requires Writes(xml, events, edits, chain) && Reread(events, events', chain) && r < |Regions(Flatten(events))|
    ensures |Regions(Flatten(events'))| == |Regions(Flatten(events))|
    ensures var f, own := Regions(Flatten(events))[r], EditsOf(edits, r);
            Regions(Flatten(events'))[r].text == NewText(f, own) <==> NothingIntoSelfClosing(events, f, own)
  {
    RegionsReadAsHeld(events, events', chain);
    var regions := Regions(Flatten(events));
    var f, own, found := regions[r], EditsOf(edits, r), HeldIn(events, chain);
    hide Fold; hide Regions; hide Reread; hide Reading; hide HeldIn; hide Rebuilt; hide SelfClosing; hide NothingFor;
    forall i: nat | i < |f.runs|
      ensures SelfClosing(events, f.runs[i]) ==>
              found(f.runs[i].contentStart) == "" && (Rebuilt(f, own, i) == "" <==> NothingFor(f, own, i))
      ensures !SelfClosing(events, f.runs[i]) ==> found(f.runs[i].contentStart) == Rebuilt(f, own, i)
    {
      RunHolds(xml, events, edits, chain, (r, i));
      if SelfClosing(events, f.runs[i]) { EmptyRunRebuilt(f, own, i); }
    }
    RegionReadsBack(f, Regions(Flatten(events'))[r], own, found);
  }
}
