/** The least document whose edited text is not there on reading it again. */
module DocxLostText {
  import opened Options
  import opened DocxFlatten
  import opened DocxEdit
  import opened DocxSplice
  import opened DocxMeaning
  import opened DocxApply
  import opened DocxReread

  /** A paragraph with one run, whose text element closes itself. */
  const XML := "<w:p><w:r><w:t/></w:r></w:p>"

  const Events := [Open(P, 0, 5), Open(R, 5, 10), EmptyText(10, 16), Close(R, 16, 22), Close(P, 22, 28)]

  /** The stream once `n` bytes of text stand behind the text element. */
  function EventsWith(n: nat): seq<Event> {
    [Open(P, 0, 5), Open(R, 5, 10), EmptyText(10, 16), Other(16, 16 + n), Close(R, 16 + n, 22 + n),
     Close(P, 22 + n, 28 + n)]
  }

  const TheRun := RunSpan(0, 0, 16, 16, false, 5, 22, 10, None)

  const TheBody := FlatText("", [TheRun], [], None)

  lemma {:induction false} FoldSnoc(events: seq<Event>, e: Event)
    ensures Fold(Initial, events + [e]) == Step(Fold(Initial, events), e)
  {
    assert (events + [e])[..|events|] == events;
  }

  const InParagraph := Initial.(body := NewAccumulator.(wroteParagraph := true, firstDepth := Some(1)), depth := 1)

  const InRunElement := InParagraph.(run := RunState(false, false, 5, 0, None, false))

  const AfterText :=
      InRunElement.(body := InParagraph.body.(runs := [TheRun.(runEnd := 16)]),
                    run := InRunElement.run.(pushed := true))

  const AfterRun := AfterText.(body := AfterText.body.(runs := [TheRun]))

  lemma {:induction false} StepsIn()
    ensures Step(Initial, Events[0]) == InParagraph && Step(InParagraph, Events[1]) == InRunElement
  {
  }

  lemma {:induction false} StepText()
    ensures Step(InRunElement, Events[2]) == AfterText
  {
  }

  lemma {:induction false} StepsOut()
    ensures Step(AfterText, Events[3]) == AfterRun && Finish(Step(AfterRun, Events[4]).body) == TheBody
    ensures Step(AfterRun, Events[4]).cells == []
  {
  }

  lemma {:induction false} ReadDocument()
    ensures Flatten(Events) == FlatDocument(TheBody, [])
  {
    hide Fold; hide Step;
    var a, b, c, d, e := Events[0], Events[1], Events[2], Events[3], Events[4];
    FoldNothing();
    FoldSnoc([], a);
    FoldSnoc([a], b);
    FoldSnoc([a, b], c);
    FoldSnoc([a, b, c], d);
    FoldSnoc([a, b, c, d], e);
    assert [] + [a] == [a] && [a] + [b] == [a, b] && [a, b] + [c] == [a, b, c] && [a, b, c] + [d] == [a, b, c, d];
    assert [a, b, c, d] + [e] == Events;
    StepsIn();
    StepText();
    StepsOut();
  }

  lemma {:induction false} FoldNothing()
    ensures Fold(Initial, []) == Initial
  {
  }

  lemma {:induction false} RereadSnoc(events: seq<Event>, events': seq<Event>, e: Event, out: seq<Event>,
                                      chain: seq<Splice>)
    requires Reread(events, events', chain) && Becomes(e, out, chain)
    ensures Reread(events + [e], events' + out, chain)
  {
    hide Becomes;
    var all, all' := events + [e], events' + out;
    assert all[..|events|] == events && all'[..|events'|] == events' && all'[|events'|..] == out;
  }

  lemma {:induction false} RereadDocument(written: string)
    requires written != ""
    ensures Reread(Events, EventsWith(|written|), [Splice(16, 16, written)])
  {
    var chain, n := [Splice(16, 16, written)], |written|;
    var a, b, c, d, e := Events[0], Events[1], Events[2], Events[3], Events[4];
    var other, d', e' := Other(16, 16 + n), Close(R, 16 + n, 22 + n), Close(P, 22 + n, 28 + n);
    assert Becomes(a, [a], chain) && Becomes(b, [b], chain) && Becomes(d, [d'], chain) && Becomes(e, [e'], chain);
    assert Becomes(c, [c, other], chain) by { assert [c, other][1..] == [other]; }
    assert Reread([], [], chain);
    hide Becomes; hide Reread;
    RereadSnoc([], [], a, [a], chain);
    RereadSnoc([] + [a], [] + [a], b, [b], chain);
    RereadSnoc([] + [a] + [b], [] + [a] + [b], c, [c, other], chain);
    RereadSnoc([] + [a] + [b] + [c], [] + [a] + [b] + [c, other], d, [d'], chain);
    RereadSnoc([] + [a] + [b] + [c] + [d], [] + [a] + [b] + [c, other] + [d'], e, [e'], chain);
    assert [] + [a] + [b] + [c] + [d] + [e] == Events;
    assert [] + [a] + [b] + [c, other] + [d'] + [e'] == EventsWith(n);
  }

  lemma {:induction false} InsertionTouches(t: string)
    ensures var e := Splice(0, 0, t);
            && RunsTouching(TheBody.runs, e) == [0] && Touched(TheBody.runs, e, 0) && IsFirst(TheBody, e, 0)
            && Ready(TheBody, [e]) && Accepted([e]) && AllTouch(TheBody, [e])
  {
    assert FirstHolding(TheBody.runs, 0, 0) == 0;
  }

  lemma {:induction false} InsertionFragment(t: string)
    ensures var e := Splice(0, 0, t); Ready(TheBody, [e]) && FragmentsFor(TheBody, [e], 0) == [e] && Sorted([e]) == [e]
  {
    var e := Splice(0, 0, t);
    InsertionTouches(t);
    FragmentsCons(TheBody, e, [], 0);
    assert [e] + [] == [e];
    SortedFacts([e]);
    assert Sorted([e])[0] in Sorted([e]);
  }

  lemma {:induction false} InsertionRebuilt(t: string)
    ensures var e := Splice(0, 0, t); Ready(TheBody, [e]) && Rebuilt(TheBody, [e], 0) == t
  {
    var e := Splice(0, 0, t);
    InsertionFragment(t);
    FragmentsFit(TheBody, [e], 0);
    hide FragmentsFor; hide Sorted; hide Ready;
    assert [e][1..] == [] && TheBody.text[0..0] == "";
    assert Substitute("", [e], 0, 0) == "" + t + "";
  }

  /** The region, with its only run, takes an insertion at its start. */
  lemma {:induction false} Insertion(t: string)
    ensures var e := Splice(0, 0, t);
            && Ready(TheBody, [e]) && Accepted([e]) && AllTouch(TheBody, [e]) && IsFirst(TheBody, e, 0)
            && FragmentsFor(TheBody, [e], 0) != [] && Rebuilt(TheBody, [e], 0) == t && NewText(TheBody, [e]) == t
  {
    var e := Splice(0, 0, t);
    InsertionTouches(t);
    InsertionFragment(t);
    InsertionRebuilt(t);
    hide FragmentsFor; hide Sorted; hide Rebuilt; hide RunsTouching; hide IsFirst;
    assert Assembled("", TheBody.runs, Contents(TheBody, [e]), 0, 0) == "";
    assert NewText(TheBody, [e]) == "" + t + "";
  }

  lemma {:induction false} WritesDocument(t: string)
    ensures Writes(XML, Events, [Edit(0, Splice(0, 0, t))], [Splice(16, 16, Escape(t))])
    ensures EditsOf([Edit(0, Splice(0, 0, t))], 0) == [Splice(0, 0, t)]
  {
    hide FragmentsFor; hide Rebuilt; hide Escape; hide NewText; hide Ready; hide Fold; hide RunsTouching; hide Sorted;
    hide IsFirst;
    var edits, chain, regions := [Edit(0, Splice(0, 0, t))], [Splice(16, 16, Escape(t))], [TheBody];
    ReadDocument();
    Insertion(t);
    assert edits[..0] == [] && EditsOf([], 0) == [];
    assert EditsOf(edits, 0) == [Splice(0, 0, t)];
    assert Regions(Flatten(Events)) == regions;
    assert InOrder(Events);
    assert AllReady(regions, edits);
    hide Flatten; hide EditsOf;
    assert Replacement(regions, edits, (0, 0)) == chain[0];
    assert Edited(regions, edits, (0, 0));
    forall key: Key | Edited(regions, edits, key) ensures key == (0, 0) {}
  }

  /** Text put into the self-closing element of this document is accepted and written, and is
    * not there when the document is read again.
    */
  lemma {:induction false} SelfClosingElementLosesText(t: string)
    requires t != ""
    ensures var edits, chain := [Edit(0, Splice(0, 0, t))], [Splice(16, 16, Escape(t))];
            && Writes(XML, Events, edits, chain) && Reread(Events, EventsWith(|Escape(t)|), chain)
            && Flatten(Events).body == TheBody && Accepted(EditsOf(edits, 0)) && AllTouch(TheBody, EditsOf(edits, 0))
            && Ready(TheBody, EditsOf(edits, 0)) && NewText(TheBody, EditsOf(edits, 0)) == t
            && Regions(Flatten(EventsWith(|Escape(t)|))) != [] && Regions(Flatten(EventsWith(|Escape(t)|)))[0].text != t
  {
    var edits, chain := [Edit(0, Splice(0, 0, t))], [Splice(16, 16, Escape(t))];
    ReadDocument();
    WritesDocument(t);
    Insertion(t);
    RereadDocument(Escape(t));
    assert IsText(Events[2], MarkOf(TheRun));
    assert SelfClosing(Events, TheRun);
    hide Fold; hide Reread; hide NewText; hide Writes; hide Escape; hide Ready;
    assert IsFirst(TheBody, [Splice(0, 0, t)][0], 0);
    assert !NothingFor(TheBody, [Splice(0, 0, t)], 0);
    EditedDocumentReadsBack(XML, Events, edits, chain, EventsWith(|Escape(t)|), 0);
  }
}
