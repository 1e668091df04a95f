/** That the reader delivers the regions the stream describes: its state after each event
  * is what the events so far say, and so is each region it is writing.
  */
module DocxReading {
  import opened Options
  import opened DocxFlatten
  import opened DocxCells
  import opened DocxRuns
  import opened DocxText

  // ---------------------------------------------------------------- the reader knows where it is

  ghost predicate Knows(s: State, events: seq<Event>, n: nat)
    requires n <= |events|
  {
    && s.fallback == FallbackDepth(events[..n]) && |s.stack| == CellDepth(events[..n])
    && s.inTabStops == Inside(events, Tabs, n) && s.depth == ParagraphDepth(events, n)
    && s.run == RunKnown(events, n)
  }

  lemma {:induction false} NextPrefix(events: seq<Event>, n: nat)
    requires n < |events|
    ensures events[..n + 1][..n] == events[..n] && events[..n + 1][n] == events[n]
  {
  }

  lemma {:induction false} DepthsStep(s: State, events: seq<Event>, n: nat)
    requires n < |events| && s.fallback == FallbackDepth(events[..n]) && |s.stack| == CellDepth(events[..n])
    ensures var s' := Step(s, events[n]);
            s'.fallback == FallbackDepth(events[..n + 1]) && |s'.stack| == CellDepth(events[..n + 1])
  {
    NextPrefix(events, n);
  }

  lemma {:induction false} InsideStep(events: seq<Event>, name: Name, n: nat)
    ensures Inside(events, name, n + 1) <==>
            Opens(events, n, name) || (!Closes(events, n, name) && Inside(events, name, n))
  {
    hide FallbackDepth;
  }

  lemma {:induction false} UnderlinedStep(events: seq<Event>, n: nat)
    ensures Underlined(events, n + 1) <==>
            if Opens(events, n, R) then false
            else if Empties(events, n, U) && Inside(events, RPr, n) then !events[n].isNone
            else Underlined(events, n)
  {
    hide FallbackDepth; hide Inside;
  }

  lemma {:induction false} OpenedStep(events: seq<Event>, name: Name, n: nat)
    ensures OpenedAt(events, name, n + 1) ==
            if Opens(events, n, name) then events[n].before else OpenedAt(events, name, n)
  {
    hide FallbackDepth;
  }

  lemma {:induction false} PropsStep(events: seq<Event>, n: nat)
    ensures PropsRange(events, n + 1) ==
            if Opens(events, n, R) then None
            else if Empties(events, n, RPr) then Some((events[n].before, events[n].after))
            else if Closes(events, n, RPr) then Some((OpenedAt(events, RPr, n), events[n].after))
            else PropsRange(events, n)
  {
    hide FallbackDepth; hide OpenedAt;
  }

  lemma {:induction false} HasTextStep(events: seq<Event>, n: nat)
    ensures HasText(events, n + 1) <==>
            if Opens(events, n, R) then false else IsTextAt(events, n) || HasText(events, n)
  {
    hide FallbackDepth;
  }

  /** What is known of the current run. */
  function RunKnown(events: seq<Event>, n: nat): RunState {
    RunState(Inside(events, RPr, n), Underlined(events, n), OpenedAt(events, R, n), OpenedAt(events, RPr, n),
             PropsRange(events, n), HasText(events, n))
  }

  /** What an event tells about the current run. */
  function RunAfter(run: RunState, e: Event): RunState {
    match e
    case Open(name, before, _) =>
      if name.R? then RunState(run.inProps, false, before, run.rprOpen, None, false)
      else if name.RPr? then run.(inProps := true, rprOpen := before) else run
    case Empty(name, isNone, before, after) =>
      if name.U? && run.inProps then run.(underlined := !isNone)
      else if name.RPr? then run.(rprRange := Some((before, after))) else run
    case Close(name, _, after) =>
      if name.RPr? then run.(inProps := false, rprRange := Some((run.rprOpen, after))) else run
    case Text(_, _, _, _) => run.(pushed := true)
    case EmptyText(_, _) => run.(pushed := true)
    case Other(_, _) => run
  }

  lemma {:induction false} RunStep(s: State, e: Event)
    ensures Step(s, e).run == if s.fallback == 0 then RunAfter(s.run, e) else s.run
  {
  }

  lemma {:induction false} RunKnownStep(events: seq<Event>, n: nat)
    requires n < |events|
    ensures RunKnown(events, n + 1) ==
            if Live(events, n) then RunAfter(RunKnown(events, n), events[n]) else RunKnown(events, n)
  {
    hide Inside; hide Underlined; hide OpenedAt; hide PropsRange; hide HasText; hide FallbackDepth;
    InsideStep(events, RPr, n);
    UnderlinedStep(events, n);
    OpenedStep(events, R, n);
    OpenedStep(events, RPr, n);
    PropsStep(events, n);
    HasTextStep(events, n);
  }

  lemma {:induction false} RunStateStep(s: State, events: seq<Event>, n: nat)
    requires n < |events| && Knows(s, events, n)
    ensures Step(s, events[n]).run == RunKnown(events, n + 1)
  {
    hide Step; hide RunAfter; hide RunKnown; hide FallbackDepth; hide CellDepth;
    RunStep(s, events[n]);
    RunKnownStep(events, n);
  }

  lemma {:induction false} PlaceStep(s: State, events: seq<Event>, n: nat)
    requires n < |events| && Knows(s, events, n)
    ensures var s' := Step(s, events[n]);
            s'.inTabStops == Inside(events, Tabs, n + 1) && s'.depth == ParagraphDepth(events, n + 1)
  {
    InsideStep(events, Tabs, n);
    hide FallbackDepth; hide CellDepth; hide Inside; hide Underlined; hide OpenedAt; hide PropsRange; hide HasText;
  }

  lemma {:induction false} KnowsStep(s: State, events: seq<Event>, n: nat)
    requires n < |events| && Knows(s, events, n)
    ensures Knows(Step(s, events[n]), events, n + 1)
  {
    DepthsStep(s, events, n);
    RunStateStep(s, events, n);
    PlaceStep(s, events, n);
    hide Step;
  }

  // ---------------------------------------------------------------- a region being written

  ghost predicate Keeps(acc: Accumulator, events: seq<Event>, r: Span) {
    && acc.text == Reads(events, r) && (acc.wroteParagraph <==> FirstParagraph(events, r).Some?)
    && RunsAre(acc.runs, events, r) && acc.underlinedTabs == UnderlinedTabs(events, r)
    && acc.emptyParagraph == InsertionPoint(events, r) && acc.firstDepth == OpenFirst(events, r)
  }

  /** The depth of the region's first paragraph while that is open. */
  function OpenFirst(events: seq<Event>, r: Span): Option<nat> {
    var f := FirstParagraph(events, r);
    if f.None? || FirstClosed(events, r).Some? then None else Some(ParagraphDepth(events, f.value + 1))
  }

  lemma {:induction false} TextsIn(events: seq<Event>, r: Span)
    ensures var texts := Texts(events, r);
            && (forall i :: 0 <= i < |texts| ==> r.from <= texts[i] < r.to && texts[i] < |events|)
            && (forall i, j :: 0 <= i < j < |texts| ==> texts[i] < texts[j])
    decreases r.to
  {
    hide FallbackDepth; hide CellDepth;
    if r.to > r.from {
      var k := r.to - 1;
      TextsIn(events, r.(to := k));
      assert Texts(events, r) == Texts(events, r.(to := k))
          + if LiveAt(events, k, r.depth) && IsTextAt(events, k) then [k] else [];
    }
  }

  lemma {:induction false} TextsAfter(events: seq<Event>, r: Span, i: nat)
    requires i < |Texts(events, r)|
    ensures Texts(events, Span(Texts(events, r)[i] + 1, r.to, r.depth)) == Texts(events, r)[i + 1..]
    decreases r.to
  {
    hide FallbackDepth; hide CellDepth;
    var before := r.(to := r.to - 1);
    TextsIn(events, r);
    TextsIn(events, before);
    if i < |Texts(events, before)| { TextsAfter(events, before, i); }
  }

  /** An event that is no text element and closes no run leaves the runs as they are. */
  lemma {:induction false} RunsStay(runs: seq<RunSpan>, events: seq<Event>, r: Span)
    requires RunsAre(runs, events, r) && r.from <= r.to
    requires !(LiveAt(events, r.to, r.depth)
               && (IsTextAt(events, r.to) || (Closes(events, r.to, R) && HasText(events, r.to))))
    ensures RunsAre(runs, events, r.(to := r.to + 1)) && Texts(events, r.(to := r.to + 1)) == Texts(events, r)
  {
    hide FallbackDepth; hide CellDepth; hide Reads; hide Underlined; hide OpenedAt; hide PropsRange; hide HasText;
    TextsIn(events, r);
    var next := r.(to := r.to + 1);
    forall i | 0 <= i < |runs| ensures RunIs(runs[i], events, next, Texts(events, r)[i]) {
      assert RunEnd(events, next, Texts(events, r)[i]) == RunEnd(events, r, Texts(events, r)[i]);
    }
  }

  // ---------------------------------------------------------------- one event more

  function Next(r: Span): Span { r.(to := r.to + 1) }

  lemma {:induction false} ParagraphStep(events: seq<Event>, r: Span)
    requires r.from <= r.to
    ensures FirstParagraph(events, Next(r)) ==
            if FirstParagraph(events, r).Some? then FirstParagraph(events, r)
            else if LiveAt(events, r.to, r.depth) && Opens(events, r.to, P) then Some(r.to) else None
  {
    hide FallbackDepth; hide CellDepth;
  }

  lemma {:induction false} ClosedStep(events: seq<Event>, r: Span)
    requires r.from <= r.to
    ensures var f := FirstParagraph(events, r);
            FirstClosed(events, Next(r)) ==
            if FirstClosed(events, r).Some? then FirstClosed(events, r)
            else if f.Some? && ClosesParagraph(events, r.depth, f.value)(r.to) then Some(r.to) else None
  {
    ParagraphStep(events, r);
    hide FirstParagraph; hide ParagraphDepth; hide FallbackDepth; hide CellDepth;
  }

  lemma {:induction false} LoneStep(events: seq<Event>, r: Span)
    requires r.from <= r.to
    ensures var lone := First(LoneEmpty(events, r.from, r.depth), r.from, r.to);
            First(LoneEmpty(events, r.from, r.depth), r.from, r.to + 1) ==
            if lone.Some? then lone
            else if LiveAt(events, r.to, r.depth) && Empties(events, r.to, P) && FirstParagraph(events, r).None?
            then Some(r.to) else None
  {
    hide FirstParagraph; hide FallbackDepth; hide CellDepth;
  }

  /** An event that neither opens nor closes a paragraph changes nothing about paragraphs. */
  lemma {:induction false} NoParagraph(events: seq<Event>, r: Span)
    requires r.from <= r.to
    requires LiveAt(events, r.to, r.depth) ==>
               !Opens(events, r.to, P) && !Closes(events, r.to, P) && !Empties(events, r.to, P)
    ensures FirstParagraph(events, Next(r)) == FirstParagraph(events, r)
    ensures OpenFirst(events, Next(r)) == OpenFirst(events, r)
    ensures InsertionPoint(events, Next(r)) == InsertionPoint(events, r)
  {
    ParagraphStep(events, r);
    ClosedStep(events, r);
    LoneStep(events, r);
    hide FirstParagraph; hide FirstClosed; hide First; hide Texts; hide ParagraphDepth; hide FallbackDepth;
    hide CellDepth;
  }

  /** An event that writes no tab records none. */
  lemma {:induction false} TabsStep(events: seq<Event>, r: Span)
    requires r.from <= r.to
    ensures UnderlinedTabs(events, Next(r)) ==
            if LiveAt(events, r.to, r.depth) && WritesTab(events, r.to) && Underlined(events, r.to)
            then UnderlinedTabs(events, r) + [|Reads(events, r)|] else UnderlinedTabs(events, r)
  {
    hide FallbackDepth; hide CellDepth; hide Reads; hide Underlined; hide Inside;
    assert r == Next(r).(to := r.to);
  }

  lemma {:induction false} ReadsStep(events: seq<Event>, r: Span)
    requires r.from <= r.to
    ensures Reads(events, Next(r)) == Reads(events, r) + Writes(events, Next(r), r.to)
  {
    hide Writes;
    assert r == Next(r).(to := r.to);
  }

  /** The event belongs to another region, or says nothing to any. */
  ghost predicate IsIdle(events: seq<Event>, r: Span) {
    LiveAt(events, r.to, r.depth) ==>
      && !Opens(events, r.to, P) && !Closes(events, r.to, P) && !Empties(events, r.to, P) && !IsTextAt(events, r.to)
      && !WritesTab(events, r.to) && !Closes(events, r.to, TxbxContent)
      && !(Closes(events, r.to, R) && HasText(events, r.to))
  }

  lemma {:induction false} WritesNothing(events: seq<Event>, r: Span)
    requires IsIdle(events, r)
    ensures Writes(events, Next(r), r.to) == ""
  {
    hide FallbackDepth; hide CellDepth; hide FirstParagraph; hide Inside; hide HasText;
  }

  lemma {:induction false} KeepsIdle(acc: Accumulator, events: seq<Event>, r: Span)
    requires Keeps(acc, events, r) && r.from <= r.to && IsIdle(events, r)
    ensures Keeps(acc, events, Next(r))
  {
    hide Reads; hide RunsAre; hide UnderlinedTabs; hide InsertionPoint; hide OpenFirst; hide FirstParagraph; hide Texts;
    hide LiveAt; hide Opens; hide Closes; hide Empties; hide IsTextAt; hide WritesTab; hide HasText; hide Underlined;
    hide Writes;
    ReadsStep(events, r);
    WritesNothing(events, r);
    TabsStep(events, r);
    NoParagraph(events, r);
    RunsStay(acc.runs, events, r);
  }

  /** What opening a paragraph makes of the region. */
  function WithParagraph(acc: Accumulator, depth: nat): Accumulator {
    if acc.wroteParagraph then acc.(text := acc.text + "\n")
        else acc.(wroteParagraph := true, firstDepth := Some(depth))
  }

  lemma {:induction false} ParagraphOpened(events: seq<Event>, r: Span)
    requires r.from <= r.to && LiveAt(events, r.to, r.depth) && Opens(events, r.to, P)
    ensures FirstParagraph(events, Next(r)).Some? && InsertionPoint(events, Next(r)) == InsertionPoint(events, r)
    ensures OpenFirst(events, Next(r)) ==
            if FirstParagraph(events, r).Some? then OpenFirst(events, r) else Some(ParagraphDepth(events, r.to + 1))
  {
    ParagraphStep(events, r);
    ClosedStep(events, r);
    LoneStep(events, r);
    hide FirstParagraph; hide FirstClosed; hide First; hide Texts; hide ParagraphDepth; hide FallbackDepth;
    hide CellDepth;
  }

  lemma {:induction false} NewlineBetween(events: seq<Event>, r: Span)
    requires LiveAt(events, r.to, r.depth) && Opens(events, r.to, P)
    ensures Writes(events, Next(r), r.to) == if FirstParagraph(events, r).Some? then "\n" else ""
  {
    assert r == Next(r).(to := r.to);
    hide FirstParagraph; hide FallbackDepth; hide CellDepth;
  }

  lemma {:induction false} KeepsOpen(acc: Accumulator, events: seq<Event>, r: Span)
    requires Keeps(acc, events, r) && r.from <= r.to && LiveAt(events, r.to, r.depth) && Opens(events, r.to, P)
    ensures Keeps(WithParagraph(acc, ParagraphDepth(events, r.to + 1)), events, Next(r))
  {
    ReadsStep(events, r);
    TabsStep(events, r);
    RunsStay(acc.runs, events, r);
    ParagraphOpened(events, r);
    NewlineBetween(events, r);
    hide Reads; hide RunsAre; hide UnderlinedTabs; hide InsertionPoint; hide OpenFirst; hide FirstParagraph; hide Texts;
    hide HasText; hide Underlined; hide Writes; hide Inside; hide FallbackDepth; hide CellDepth; hide ParagraphDepth;
  }

  /** What a self-closing paragraph makes of the region. */
  function WithEmpty(acc: Accumulator, inCell: bool, before: nat, after: nat): Accumulator {
    if inCell && !acc.wroteParagraph && acc.emptyParagraph.None?
    then acc.(emptyParagraph := Some(EmptyParagraph(before, after, true))) else acc
  }

  lemma {:induction false} ParagraphEmpty(events: seq<Event>, r: Span)
    requires r.from <= r.to && LiveAt(events, r.to, r.depth) && Empties(events, r.to, P)
    ensures FirstParagraph(events, Next(r)) == FirstParagraph(events, r)
    ensures OpenFirst(events, Next(r)) == OpenFirst(events, r) && Writes(events, Next(r), r.to) == ""
    ensures InsertionPoint(events, Next(r)) ==
            if r.depth > 0 && FirstParagraph(events, r).None? && InsertionPoint(events, r).None?
            then Some(EmptyParagraph(events[r.to].before, events[r.to].after, true)) else InsertionPoint(events, r)
  {
    ParagraphStep(events, r);
    ClosedStep(events, r);
    LoneStep(events, r);
    hide FirstParagraph; hide First; hide Texts; hide ParagraphDepth; hide FallbackDepth; hide CellDepth; hide Inside;
  }

  lemma {:induction false} KeepsEmpty(acc: Accumulator, events: seq<Event>, r: Span)
    requires Keeps(acc, events, r) && r.from <= r.to && LiveAt(events, r.to, r.depth) && Empties(events, r.to, P)
    ensures Keeps(WithEmpty(acc, r.depth > 0, events[r.to].before, events[r.to].after), events, Next(r))
  {
    ReadsStep(events, r);
    TabsStep(events, r);
    RunsStay(acc.runs, events, r);
    ParagraphEmpty(events, r);
    hide Reads; hide RunsAre; hide UnderlinedTabs; hide InsertionPoint; hide OpenFirst; hide FirstParagraph; hide Texts;
    hide HasText; hide Underlined; hide Writes; hide Inside; hide FallbackDepth; hide CellDepth;
  }

  /** What closing a paragraph at `depth` makes of the region. */
  function WithClosed(acc: Accumulator, inCell: bool, depth: nat, before: nat): Accumulator {
    var first := acc.firstDepth == Some(depth);
    var marked := if inCell && first && acc.runs == [] && acc.emptyParagraph.None?
                  then acc.(emptyParagraph := Some(EmptyParagraph(before, before, false))) else acc;
    if first then marked.(firstDepth := None) else marked
  }

  lemma {:induction false} ClosingWritesNothing(events: seq<Event>, r: Span)
    requires r.from <= r.to && LiveAt(events, r.to, r.depth) && Closes(events, r.to, P)
    ensures FirstParagraph(events, Next(r)) == FirstParagraph(events, r) && Writes(events, Next(r), r.to) == ""
  {
    ParagraphStep(events, r);
    hide FirstParagraph; hide FallbackDepth; hide CellDepth;
  }

  lemma {:induction false} FirstCloses(events: seq<Event>, r: Span)
    requires r.from <= r.to && LiveAt(events, r.to, r.depth) && Closes(events, r.to, P)
    ensures var first := OpenFirst(events, r) == Some(ParagraphDepth(events, r.to));
            && FirstClosed(events, Next(r)) == (if first then Some(r.to) else FirstClosed(events, r))
            && (first ==> FirstClosed(events, r).None?)
            && OpenFirst(events, Next(r)) == (if first then None else OpenFirst(events, r))
  {
    ClosingWritesNothing(events, r);
    ClosedStep(events, r);
    hide FirstParagraph; hide FirstClosed; hide ParagraphDepth; hide FallbackDepth; hide CellDepth; hide Writes;
  }

  lemma {:induction false} ParagraphClosed(events: seq<Event>, r: Span)
    requires r.from <= r.to && LiveAt(events, r.to, r.depth) && Closes(events, r.to, P)
    ensures InsertionPoint(events, Next(r)) ==
            if r.depth > 0 && OpenFirst(events, r) == Some(ParagraphDepth(events, r.to)) && Texts(events, r) == []
               && InsertionPoint(events, r).None?
            then Some(EmptyParagraph(events[r.to].before, events[r.to].before, false)) else InsertionPoint(events, r)
  {
    FirstCloses(events, r);
    LoneStep(events, r);
    assert r == Next(r).(to := r.to);
    hide FirstParagraph; hide FirstClosed; hide First; hide Texts; hide ParagraphDepth; hide FallbackDepth;
    hide CellDepth; hide OpenFirst;
  }

  lemma {:induction false} KeepsClosed(acc: Accumulator, events: seq<Event>, r: Span)
    requires Keeps(acc, events, r) && r.from <= r.to && LiveAt(events, r.to, r.depth) && Closes(events, r.to, P)
    ensures Keeps(WithClosed(acc, r.depth > 0, ParagraphDepth(events, r.to), events[r.to].before), events, Next(r))
  {
    ReadsStep(events, r);
    TabsStep(events, r);
    RunsStay(acc.runs, events, r);
    ClosingWritesNothing(events, r);
    FirstCloses(events, r);
    ParagraphClosed(events, r);
    AsManyRuns(acc.runs, events, r);
    hide Reads; hide RunsAre; hide UnderlinedTabs; hide InsertionPoint; hide OpenFirst; hide FirstParagraph; hide Texts;
    hide HasText; hide Underlined; hide Writes; hide Inside; hide FallbackDepth; hide CellDepth; hide ParagraphDepth;
  }

  lemma {:induction false} AsManyRuns(runs: seq<RunSpan>, events: seq<Event>, r: Span)
    requires RunsAre(runs, events, r)
    ensures runs == [] <==> Texts(events, r) == []
  {
    hide RunIs; hide Texts;
  }

  /** What a tab makes of the region. */
  function WithTab(acc: Accumulator, underlined: bool): Accumulator {
    acc.(underlinedTabs := if underlined then acc.underlinedTabs + [|acc.text|] else acc.underlinedTabs,
         text := acc.text + "\t")
  }

  lemma {:induction false} TabWritten(events: seq<Event>, r: Span)
    requires LiveAt(events, r.to, r.depth) && WritesTab(events, r.to)
    ensures Writes(events, Next(r), r.to) == "\t" && !IsTextAt(events, r.to) && !Closes(events, r.to, R)
    ensures !Opens(events, r.to, P) && !Closes(events, r.to, P) && !Empties(events, r.to, P)
  {
    hide FallbackDepth; hide CellDepth; hide Inside;
  }

  lemma {:induction false} KeepsTab(acc: Accumulator, events: seq<Event>, r: Span)
    requires Keeps(acc, events, r) && r.from <= r.to && LiveAt(events, r.to, r.depth) && WritesTab(events, r.to)
    ensures Keeps(WithTab(acc, Underlined(events, r.to)), events, Next(r))
  {
    hide Reads; hide RunsAre; hide UnderlinedTabs; hide InsertionPoint; hide OpenFirst; hide FirstParagraph; hide Texts;
    hide HasText; hide Underlined; hide WritesTab; hide LiveAt; hide Opens; hide Closes; hide Empties; hide IsTextAt;
    hide Writes;
    TabWritten(events, r);
    ReadsStep(events, r);
    TabsStep(events, r);
    RunsStay(acc.runs, events, r);
    NoParagraph(events, r);
  }

  lemma {:induction false} KeepsBox(acc: Accumulator, events: seq<Event>, r: Span)
    requires Keeps(acc, events, r) && r.from <= r.to && LiveAt(events, r.to, r.depth)
    requires Closes(events, r.to, TxbxContent)
    ensures Keeps(acc.(text := acc.text + "\n"), events, Next(r))
  {
    ReadsStep(events, r);
    TabsStep(events, r);
    RunsStay(acc.runs, events, r);
    NoParagraph(events, r);
    hide Reads; hide RunsAre; hide UnderlinedTabs; hide InsertionPoint; hide OpenFirst; hide FirstParagraph; hide Texts;
    hide HasText; hide Underlined; hide Inside; hide FallbackDepth; hide CellDepth;
  }

  /** The run a text element adds. */
  function RunFor(events: seq<Event>, r: Span): RunSpan
    requires r.to < |events|
  {
    var e, start := events[r.to], |Reads(events, r)|;
    RunSpan(start, start + |ContentOf(e)|, ContentStartOf(e), ContentEndOf(e), Underlined(events, r.to),
            OpenedAt(events, R, r.to), ContentEndOf(e), e.before, PropsRange(events, r.to))
  }

  lemma {:induction false} RunsPush(runs: seq<RunSpan>, events: seq<Event>, r: Span)
    requires RunsAre(runs, events, r) && r.from <= r.to && LiveAt(events, r.to, r.depth) && IsTextAt(events, r.to)
    ensures RunsAre(runs + [RunFor(events, r)], events, Next(r))
  {
    hide FallbackDepth; hide CellDepth; hide Reads; hide Underlined; hide OpenedAt; hide PropsRange; hide HasText;
    TextsIn(events, r);
    var texts, next, all := Texts(events, r), Next(r), runs + [RunFor(events, r)];
    assert r == next.(to := r.to);
    assert Texts(events, next) == texts + [r.to];
    forall i | 0 <= i < |runs| ensures RunIs(all[i], events, next, texts[i]) {
      assert RunIs(runs[i], events, r, texts[i]);
      assert RunEnd(events, next, texts[i]) == RunEnd(events, r, texts[i]);
    }
    assert RunIs(all[|runs|], events, next, r.to);
  }

  lemma {:induction false} KeepsText(acc: Accumulator, events: seq<Event>, r: Span)
    requires Keeps(acc, events, r) && r.from <= r.to && LiveAt(events, r.to, r.depth) && IsTextAt(events, r.to)
    ensures Keeps(acc.(text := acc.text + ContentOf(events[r.to]), runs := acc.runs + [RunFor(events, r)]), events,
                  Next(r))
  {
    ReadsStep(events, r);
    TabsStep(events, r);
    RunsPush(acc.runs, events, r);
    NoParagraph(events, r);
    hide Reads; hide RunsAre; hide UnderlinedTabs; hide InsertionPoint; hide OpenFirst; hide FirstParagraph; hide Texts;
    hide HasText; hide Underlined; hide Inside; hide FallbackDepth; hide CellDepth; hide RunFor;
  }

  /** What closing a run element with text makes of the region: its last run gets the element's end. */
  function WithRunEnd(acc: Accumulator, after: nat): Accumulator {
    if acc.runs == [] then acc
    else acc.(runs := acc.runs[|acc.runs| - 1 := acc.runs[|acc.runs| - 1].(runEnd := after)])
  }

  lemma {:induction false} RunEndNext(events: seq<Event>, r: Span, k: nat)
    requires k < r.to && k < |events|
    requires LiveAt(events, r.to, r.depth) && Closes(events, r.to, R) && HasText(events, r.to)
    ensures RunEnd(events, Next(r), k) ==
            if Texts(events, Span(k + 1, r.to, r.depth)) == [] then events[r.to].after else RunEnd(events, r, k)
  {
    hide Texts; hide HasText; hide FallbackDepth; hide CellDepth;
    assert r == Next(r).(to := r.to);
  }

  lemma {:induction false} NoTextMore(events: seq<Event>, r: Span)
    requires r.from <= r.to && Closes(events, r.to, R)
    ensures Texts(events, Next(r)) == Texts(events, r)
  {
    hide FallbackDepth; hide CellDepth;
    assert r == Next(r).(to := r.to);
  }

  lemma {:induction false} RunsClose(acc: Accumulator, events: seq<Event>, r: Span)
    requires RunsAre(acc.runs, events, r) && r.from <= r.to < |events| && LiveAt(events, r.to, r.depth)
    requires Closes(events, r.to, R) && HasText(events, r.to)
    ensures RunsAre(WithRunEnd(acc, events[r.to].after).runs, events, Next(r))
  {
    hide FallbackDepth; hide CellDepth; hide Reads; hide Underlined; hide OpenedAt; hide PropsRange; hide HasText;
    hide Texts; hide RunEnd; hide LiveAt; hide Closes; hide ContentOf; hide ContentEndOf; hide ContentStartOf;
    var texts, runs := Texts(events, r), WithRunEnd(acc, events[r.to].after).runs;
    TextsIn(events, r);
    NoTextMore(events, r);
    forall i | 0 <= i < |runs| ensures RunIs(runs[i], events, Next(r), texts[i]) {
      assert RunIs(acc.runs[i], events, r, texts[i]);
      TextsAfter(events, r, i);
      RunEndNext(events, r, texts[i]);
      assert |texts[i + 1..]| == |texts| - i - 1;
    }
  }

  lemma {:induction false} KeepsRunEnd(acc: Accumulator, events: seq<Event>, r: Span)
    requires Keeps(acc, events, r) && r.from <= r.to && LiveAt(events, r.to, r.depth)
    requires Closes(events, r.to, R) && HasText(events, r.to)
    ensures Keeps(WithRunEnd(acc, events[r.to].after), events, Next(r))
  {
    ReadsStep(events, r);
    TabsStep(events, r);
    RunsClose(acc, events, r);
    NoParagraph(events, r);
    hide Reads; hide RunsAre; hide UnderlinedTabs; hide InsertionPoint; hide OpenFirst; hide FirstParagraph; hide Texts;
    hide HasText; hide Underlined; hide Inside; hide FallbackDepth; hide CellDepth;
  }

  /** What the event at the end of the region's span makes of the region. */
  function Written(acc: Accumulator, events: seq<Event>, r: Span): Accumulator
    requires r.to < |events|
  {
    var k, e := r.to, events[r.to];
    if Opens(events, k, P) then WithParagraph(acc, ParagraphDepth(events, k + 1))
    else if Empties(events, k, P) then WithEmpty(acc, r.depth > 0, e.before, e.after)
    else if Closes(events, k, P) then WithClosed(acc, r.depth > 0, ParagraphDepth(events, k), e.before)
    else if WritesTab(events, k) then WithTab(acc, Underlined(events, k))
    else if Closes(events, k, TxbxContent) then acc.(text := acc.text + "\n")
    else if IsTextAt(events, k)
    then acc.(text := acc.text + ContentOf(e), runs := acc.runs + [RunFor(events, r)])
    else if Closes(events, k, R) && HasText(events, k) then WithRunEnd(acc, e.after)
    else acc
  }

  lemma {:induction false} KeepsWritten(acc: Accumulator, events: seq<Event>, r: Span)
    requires Keeps(acc, events, r) && r.from <= r.to < |events| && LiveAt(events, r.to, r.depth)
    ensures Keeps(Written(acc, events, r), events, Next(r))
  {
    hide Keeps; hide LiveAt; hide Opens; hide Closes; hide Empties; hide IsTextAt; hide WritesTab; hide HasText;
    hide WithParagraph; hide WithEmpty; hide WithClosed; hide WithTab; hide WithRunEnd; hide RunFor;
    if Opens(events, r.to, P) {
      KeepsOpen(acc, events, r);
    } else if Empties(events, r.to, P) {
      KeepsEmpty(acc, events, r);
    } else if Closes(events, r.to, P) {
      KeepsClosed(acc, events, r);
    } else if WritesTab(events, r.to) {
      KeepsTab(acc, events, r);
    } else if Closes(events, r.to, TxbxContent) {
      KeepsBox(acc, events, r);
    } else if IsTextAt(events, r.to) {
      KeepsText(acc, events, r);
    } else if Closes(events, r.to, R) && HasText(events, r.to) {
      KeepsRunEnd(acc, events, r);
    } else {
      KeepsIdle(acc, events, r);
    }
  }

  // ---------------------------------------------------------------- all regions

  /** The region being written at depth `j`. */
  function RegionAt(s: State, j: nat): Accumulator
    requires j <= |s.stack|
  {
    if j == 0 then s.body else s.stack[j - 1]
  }

  function SpanAt(events: seq<Event>, j: nat, n: nat): Span { Span(StartOf(events, j, n), n, j) }

  ghost predicate AllKeep(s: State, events: seq<Event>, n: nat) {
    forall j :: 0 <= j <= |s.stack| ==> Keeps(RegionAt(s, j), events, SpanAt(events, j, n))
  }

  ghost predicate CellsAre(cells: seq<FlatText>, events: seq<Event>, n: nat)
    requires n <= |events|
  {
    |cells| == |ClosedCells(events, n)| &&
    forall i :: 0 <= i < |cells| ==> RegionIs(cells[i], events, ClosedCells(events, n)[i])
  }

  /** The event is neither the start nor the end of a cell. */
  predicate StaysInCell(events: seq<Event>, n: nat) { !Opens(events, n, Tc) && !Closes(events, n, Tc) }

  lemma {:induction false} StaysPut(s: State, events: seq<Event>, n: nat)
    requires n < |events| && Knows(s, events, n) && StaysInCell(events, n)
    ensures var s', d := Step(s, events[n]), |s.stack|;
            && |s'.stack| == d && s'.cells == s.cells && (forall j :: 0 <= j < d ==> RegionAt(s', j) == RegionAt(s, j))
            && (!Live(events, n) ==> RegionAt(s', d) == RegionAt(s, d))
  {
    hide FallbackDepth; hide CellDepth; hide Inside; hide Underlined; hide OpenedAt; hide PropsRange; hide HasText;
    hide ParagraphDepth;
  }

  /** The reader is at the end of the region's span, outside fallback content, writing to it. */
  ghost predicate IsCurrent(s: State, events: seq<Event>, r: Span) {
    && r.to < |events| && Knows(s, events, r.to) && StaysInCell(events, r.to) && Live(events, r.to)
    && r.depth == |s.stack| && Current(s).text == Reads(events, r)
  }

  lemma {:induction false} HandlesOpen(s: State, events: seq<Event>, r: Span)
    requires IsCurrent(s, events, r) && events[r.to].Open?
    ensures Current(Step(s, events[r.to])) == Written(Current(s), events, r)
  {
    hide FallbackDepth; hide CellDepth; hide Inside; hide Underlined; hide OpenedAt; hide PropsRange; hide HasText;
    hide Reads; hide Texts;
  }

  lemma {:induction false} HandlesEmpty(s: State, events: seq<Event>, r: Span)
    requires IsCurrent(s, events, r) && events[r.to].Empty?
    ensures Current(Step(s, events[r.to])) == Written(Current(s), events, r)
  {
    hide FallbackDepth; hide CellDepth; hide Inside; hide Underlined; hide OpenedAt; hide PropsRange; hide HasText;
    hide Reads; hide Texts;
  }

  lemma {:induction false} HandlesClose(s: State, events: seq<Event>, r: Span)
    requires IsCurrent(s, events, r) && events[r.to].Close?
    ensures Current(Step(s, events[r.to])) == Written(Current(s), events, r)
  {
    hide FallbackDepth; hide CellDepth; hide Inside; hide Underlined; hide OpenedAt; hide PropsRange; hide HasText;
    hide Reads; hide Texts; hide RunFor; hide ParagraphDepth;
    var before, after := events[r.to].before, events[r.to].after;
    assert Step(s, events[r.to]) == OnClose(s, events[r.to].name, before, after);
    if events[r.to].name.P? {
      CloseParagraphIs(s, before);
    } else {
      hide CloseParagraph; hide WithClosed;
    }
  }

  lemma {:induction false} CloseParagraphIs(s: State, before: nat)
    ensures Current(CloseParagraph(s, before)) == WithClosed(Current(s), s.stack != [], s.depth, before)
  {
  }

  lemma {:induction false} HandlesText(s: State, events: seq<Event>, r: Span)
    requires IsCurrent(s, events, r) && (events[r.to].Text? || events[r.to].EmptyText?)
    ensures Current(Step(s, events[r.to])) == Written(Current(s), events, r)
  {
    hide FallbackDepth; hide CellDepth; hide Inside; hide Underlined; hide OpenedAt; hide PropsRange; hide HasText;
    hide Reads; hide Texts;
  }

  lemma {:induction false} HandlesOther(s: State, events: seq<Event>, r: Span)
    requires IsCurrent(s, events, r) && events[r.to].Other?
    ensures Current(Step(s, events[r.to])) == Written(Current(s), events, r)
  {
    hide FallbackDepth; hide CellDepth; hide Inside; hide Underlined; hide OpenedAt; hide PropsRange; hide HasText;
    hide Reads;
  }

  lemma {:induction false} HandlesCurrent(s: State, events: seq<Event>, r: Span)
    requires IsCurrent(s, events, r)
    ensures Current(Step(s, events[r.to])) == Written(Current(s), events, r)
  {
    hide IsCurrent; hide Step; hide Written; hide Current;
    assert r.to < |events| by { IsInStream(s, events, r); }
    match events[r.to]
    case Open(_, _, _) => HandlesOpen(s, events, r);
    case Empty(_, _, _, _) => HandlesEmpty(s, events, r);
    case Close(_, _, _) => HandlesClose(s, events, r);
    case Text(_, _, _, _) => HandlesText(s, events, r);
    case EmptyText(_, _) => HandlesText(s, events, r);
    case Other(_, _) => HandlesOther(s, events, r);
  }

  lemma {:induction false} IsInStream(s: State, events: seq<Event>, r: Span)
    requires IsCurrent(s, events, r)
    ensures r.to < |events|
  {
  }

  lemma {:induction false} StartStep(events: seq<Event>, j: nat, n: nat)
    ensures StartOf(events, j, n + 1) ==
            if j > 0 && Opens(events, n, Tc) && CellDepth(events[..n]) == j - 1 then n + 1 else StartOf(events, j, n)
  {
    hide CellDepth; hide FallbackDepth;
  }

  lemma {:induction false} CellsStep(events: seq<Event>, n: nat)
    requires n < |events|
    ensures var d := CellDepth(events[..n]);
            ClosedCells(events, n + 1) ==
            if ClosesCell(events, n) then ClosedCells(events, n) + [Span(StartOf(events, d, n), n, d)]
            else ClosedCells(events, n)
  {
    hide CellDepth; hide FallbackDepth; hide StartOf;
  }

  /** Regions that are not being written to stay as they are. */
  lemma {:induction false} OthersStay(s: State, events: seq<Event>, n: nat, j: nat)
    requires n < |events| && j <= |s.stack| && Keeps(RegionAt(s, j), events, SpanAt(events, j, n))
    requires |s.stack| == CellDepth(events[..n]) && (j < |s.stack| || !Live(events, n) || Opens(events, n, Tc))
    ensures Keeps(RegionAt(s, j), events, SpanAt(events, j, n + 1))
  {
    StartStep(events, j, n);
    hide Keeps; hide StartOf; hide FallbackDepth; hide CellDepth; hide HasText; hide Inside;
    KeepsIdle(RegionAt(s, j), events, SpanAt(events, j, n));
  }

  lemma {:induction false} StepInCell(s: State, events: seq<Event>, n: nat)
    requires n < |events| && Knows(s, events, n) && StaysInCell(events, n)
    requires AllKeep(s, events, n) && CellsAre(s.cells, events, n)
    ensures AllKeep(Step(s, events[n]), events, n + 1) && CellsAre(Step(s, events[n]).cells, events, n + 1)
  {
    StaysPut(s, events, n);
    CellsStep(events, n);
    var s', d := Step(s, events[n]), |s.stack|;
    hide Step; hide Keeps; hide FallbackDepth; hide ClosedCells; hide RegionIs; hide StartOf; hide CellDepth;
    assert RegionAt(s, d) == Current(s) && RegionAt(s', d) == Current(s');
    forall j | 0 <= j <= d ensures Keeps(RegionAt(s', j), events, SpanAt(events, j, n + 1)) {
      assert Keeps(RegionAt(s, j), events, SpanAt(events, j, n));
      if j < d || !Live(events, n) { OthersStay(s, events, n, j); } else { CurrentStep(s, events, n); }
    }
  }

  lemma {:induction false} MakesCurrent(s: State, events: seq<Event>, n: nat)
    requires n < |events| && Knows(s, events, n) && StaysInCell(events, n) && Live(events, n)
    requires Keeps(Current(s), events, SpanAt(events, |s.stack|, n))
    ensures IsCurrent(s, events, SpanAt(events, |s.stack|, n)) && LiveAt(events, n, |s.stack|)
  {
    hide StartOf; hide Reads; hide RunsAre; hide UnderlinedTabs; hide InsertionPoint; hide OpenFirst;
    hide FirstParagraph; hide FallbackDepth; hide CellDepth; hide StaysInCell;
  }

  lemma {:induction false} CurrentStep(s: State, events: seq<Event>, n: nat)
    requires n < |events| && Knows(s, events, n) && StaysInCell(events, n) && Live(events, n)
    requires Keeps(Current(s), events, SpanAt(events, |s.stack|, n))
    ensures Keeps(Current(Step(s, events[n])), events, SpanAt(events, |s.stack|, n + 1))
  {
    var r := SpanAt(events, |s.stack|, n);
    MakesCurrent(s, events, n);
    StartStep(events, |s.stack|, n);
    hide Knows; hide Keeps; hide Step; hide StartOf; hide Written; hide IsCurrent; hide Current; hide Live; hide LiveAt;
    hide CellDepth; hide Opens; hide Closes;
    assert !Opens(events, n, Tc);
    HandlesCurrent(s, events, r);
    KeepsWritten(Current(s), events, r);
  }

  lemma {:induction false} NothingYet(events: seq<Event>, n: nat, d: nat)
    ensures Keeps(NewAccumulator, events, Span(n, n, d))
  {
  }

  lemma {:induction false} Pushed(s: State, e: Event)
    requires s.fallback == 0 && e.Open? && e.name.Tc?
    ensures Step(s, e) == s.(stack := s.stack + [NewAccumulator])
  {
  }

  lemma {:induction false} StepIntoCell(s: State, events: seq<Event>, n: nat)
    requires n < |events| && Knows(s, events, n) && Opens(events, n, Tc)
    requires AllKeep(s, events, n) && CellsAre(s.cells, events, n)
    ensures AllKeep(Step(s, events[n]), events, n + 1) && CellsAre(Step(s, events[n]).cells, events, n + 1)
  {
    hide Step; hide Keeps; hide FallbackDepth; hide ClosedCells; hide RegionIs; hide StartOf; hide CellDepth;
    hide RunKnown; hide Inside; hide ParagraphDepth;
    CellsStep(events, n);
    Pushed(s, events[n]);
    var s', d := Step(s, events[n]), |s.stack|;
    StartStep(events, d + 1, n);
    NothingYet(events, n + 1, d + 1);
    forall j | 0 <= j <= d ensures Keeps(RegionAt(s', j), events, SpanAt(events, j, n + 1)) {
      assert Keeps(RegionAt(s, j), events, SpanAt(events, j, n));
      OthersStay(s, events, n, j);
    }
  }

  lemma {:induction false} Finished(acc: Accumulator, events: seq<Event>, r: Span)
    requires Keeps(acc, events, r)
    ensures RegionIs(Finish(acc), events, r)
  {
    AsManyRuns(acc.runs, events, r);
    hide Reads; hide RunsAre; hide UnderlinedTabs; hide InsertionPoint; hide Texts;
  }

  lemma {:induction false} Popped(s: State, e: Event)
    requires s.fallback == 0 && e.Close? && e.name.Tc?
    ensures Step(s, e) ==
            if s.stack == [] then s
            else s.(cells := s.cells + [Finish(s.stack[|s.stack| - 1])], stack := s.stack[..|s.stack| - 1])
  {
  }

  lemma {:induction false} StepOutOfCell(s: State, events: seq<Event>, n: nat)
    requires n < |events| && Knows(s, events, n) && Closes(events, n, Tc)
    requires AllKeep(s, events, n) && CellsAre(s.cells, events, n)
    ensures AllKeep(Step(s, events[n]), events, n + 1) && CellsAre(Step(s, events[n]).cells, events, n + 1)
  {
    hide Step; hide Keeps; hide FallbackDepth; hide ClosedCells; hide RegionIs; hide StartOf; hide CellDepth;
    hide RunKnown; hide Inside; hide ParagraphDepth; hide Finish;
    CellsStep(events, n);
    Popped(s, events[n]);
    var s', d := Step(s, events[n]), |s.stack|;
    assert Keeps(RegionAt(s, d), events, SpanAt(events, d, n));
    Finished(RegionAt(s, d), events, SpanAt(events, d, n));
    forall j | 0 <= j <= |s'.stack| ensures Keeps(RegionAt(s', j), events, SpanAt(events, j, n + 1)) {
      assert Keeps(RegionAt(s, j), events, SpanAt(events, j, n));
      if j < d { OthersStay(s, events, n, j); } else { ClosedNowhere(s, events, n); }
    }
  }

  /** The end of a cell outside any cell says nothing to the body. */
  lemma {:induction false} ClosedNowhere(s: State, events: seq<Event>, n: nat)
    requires n < |events| && s.stack == [] && Closes(events, n, Tc)
    requires Keeps(s.body, events, SpanAt(events, 0, n))
    ensures Keeps(s.body, events, SpanAt(events, 0, n + 1))
  {
    hide Keeps; hide FallbackDepth; hide CellDepth; hide HasText; hide Inside;
    KeepsIdle(s.body, events, SpanAt(events, 0, n));
  }

  lemma {:induction false} FoldKeeps(events: seq<Event>, n: nat)
    requires n <= |events|
    ensures var s := Fold(Initial, events[..n]);
            Knows(s, events, n) && AllKeep(s, events, n) && CellsAre(s.cells, events, n)
  {
    if n == 0 {
      NothingYet(events, 0, 0);
      hide Keeps;
    } else {
      FoldKeeps(events, n - 1);
      var s := Fold(Initial, events[..n - 1]);
      NextPrefix(events, n - 1);
      assert Fold(Initial, events[..n]) == Step(s, events[n - 1]);
      KnowsStep(s, events, n - 1);
      hide Step; hide Fold; hide Knows; hide AllKeep; hide CellsAre; hide Live;
      if Opens(events, n - 1, Tc) {
        StepIntoCell(s, events, n - 1);
      } else if Closes(events, n - 1, Tc) {
        StepOutOfCell(s, events, n - 1);
      } else {
        StepInCell(s, events, n - 1);
      }
    }
  }

  /** The body of a flattened document is what the events outside cells write, and its cells
    * are, in the order of their closing, what the events in each closed cell write.
    */
  lemma {:induction false} RegionsReadTheStream(events: seq<Event>)
    ensures var doc, cells := Flatten(events), ClosedCells(events, |events|);
            && RegionIs(doc.body, events, Span(0, |events|, 0))
            && |doc.cells| == |cells| && forall i :: 0 <= i < |cells| ==> RegionIs(doc.cells[i], events, cells[i])
  {
    assert events[..|events|] == events;
    FoldKeeps(events, |events|);
    var s := Fold(Initial, events);
    hide Keeps; hide Fold; hide RegionIs; hide ClosedCells; hide Finish;
    assert Keeps(RegionAt(s, 0), events, SpanAt(events, 0, |events|));
    Finished(s.body, events, Span(0, |events|, 0));
  }

  // ---------------------------------------------------------------- which cells those are

  /** The cell opened just before `r.from` and closed by the event at `r.to`. */
  ghost predicate IsCell(events: seq<Event>, r: Span) {
    && 0 < r.from <= r.to < |events| && 0 < r.depth
    && Opens(events, r.from - 1, Tc) && CellDepth(events[..r.from - 1]) == r.depth - 1
    && Closes(events, r.to, Tc) && CellDepth(events[..r.to]) == r.depth
    && forall k :: r.from <= k <= r.to ==> CellDepth(events[..k]) >= r.depth
  }

  lemma {:induction false} DepthStep(events: seq<Event>, k: nat)
    requires k < |events|
    ensures CellDepth(events[..k + 1]) ==
            if Opens(events, k, Tc) then CellDepth(events[..k]) + 1
            else if ClosesCell(events, k) then CellDepth(events[..k]) - 1 else CellDepth(events[..k])
  {
    NextPrefix(events, k);
    hide FallbackDepth;
  }

  /** A cell open before `n` has not been left since it was opened. */
  lemma {:induction false} OpenSinceStart(events: seq<Event>, d: nat, n: nat)
    requires n <= |events| && 0 < d <= CellDepth(events[..n])
    ensures var from := StartOf(events, d, n);
            && 0 < from <= n && Opens(events, from - 1, Tc) && CellDepth(events[..from - 1]) == d - 1
            && forall k :: from <= k <= n ==> CellDepth(events[..k]) >= d
    decreases n
  {
    if n > 0 {
      DepthStep(events, n - 1);
      StartStep(events, d, n - 1);
      hide CellDepth; hide StartOf; hide Opens; hide Closes;
      if StartOf(events, d, n) != n { OpenSinceStart(events, d, n - 1); }
    }
  }

  lemma {:induction false} NewestCell(events: seq<Event>, k: nat)
    requires k < |events| && ClosesCell(events, k)
    ensures var d := CellDepth(events[..k]); IsCell(events, Span(StartOf(events, d, k), k, d))
  {
    OpenSinceStart(events, CellDepth(events[..k]), k);
    hide CellDepth; hide StartOf; hide FallbackDepth;
  }

  ghost predicate AreClosedCells(events: seq<Event>, cells: seq<Span>, n: nat) {
    && (forall i :: 0 <= i < |cells| ==> IsCell(events, cells[i]) && cells[i].to < n)
    && (forall i, j :: 0 <= i < j < |cells| ==> cells[i].to < cells[j].to)
    && (forall k :: 0 <= k < n && ClosesCell(events, k) ==> exists i :: 0 <= i < |cells| && cells[i].to == k)
  }

  lemma {:induction false} OneMoreCell(events: seq<Event>, cells: seq<Span>, cell: Span, n: nat)
    requires AreClosedCells(events, cells, n) && IsCell(events, cell) && cell.to == n
    ensures AreClosedCells(events, cells + [cell], n + 1)
  {
    hide IsCell; hide ClosesCell;
    var more := cells + [cell];
    forall k | 0 <= k < n + 1 && ClosesCell(events, k) ensures exists i :: 0 <= i < |more| && more[i].to == k {
      if k < n {
        var i :| 0 <= i < |cells| && cells[i].to == k;
        assert more[i] == cells[i];
      } else {
        assert more[|cells|].to == k;
      }
    }
  }

  /** The cells listed are the closed cells, each once, in the order of their closing. */
  lemma {:induction false} ClosedCellsAre(events: seq<Event>, n: nat)
    requires n <= |events|
    ensures AreClosedCells(events, ClosedCells(events, n), n)
  {
    hide CellDepth; hide StartOf; hide FallbackDepth; hide IsCell; hide ClosesCell;
    if n > 0 {
      ClosedCellsAre(events, n - 1);
      CellsStep(events, n - 1);
      hide ClosedCells;
      if ClosesCell(events, n - 1) {
        var d := CellDepth(events[..n - 1]);
        NewestCell(events, n - 1);
        OneMoreCell(events, ClosedCells(events, n - 1), Span(StartOf(events, d, n - 1), n - 1, d), n - 1);
      }
    }
  }

  // ---------------------------------------------------------------- between two runs

  /** What the events from `a` up to `b` write into the region. */
  function WritesFrom(events: seq<Event>, r: Span, a: nat, b: nat): string {
    if b <= a then "" else WritesFrom(events, r, a, b - 1) + Writes(events, r, b - 1)
  }

  lemma {:induction false} ReadsOne(events: seq<Event>, r: Span, k: nat)
    requires r.from <= k
    ensures Reads(events, r.(to := k + 1)) == Reads(events, r.(to := k)) + Writes(events, r, k)
  {
    var q := r.(to := k);
    ReadsStep(events, q);
    SameWrites(events, r, Next(q), k);
    hide Writes; hide Reads;
    assert Next(q) == r.(to := k + 1);
  }

  lemma {:induction false} ReadsSplit(events: seq<Event>, r: Span, a: nat, b: nat)
    requires r.from <= a <= b
    ensures Reads(events, r.(to := b)) == Reads(events, r.(to := a)) + WritesFrom(events, r, a, b)
    decreases b
  {
    hide Writes; hide Reads;
    if a < b {
      ReadsSplit(events, r, a, b - 1);
      ReadsOne(events, r, b - 1);
    }
  }

  lemma {:induction false} SameWrites(events: seq<Event>, r: Span, q: Span, k: nat)
    requires q == r.(to := q.to)
    ensures Writes(events, q, k) == Writes(events, r, k)
  {
    assert q.(to := k) == r.(to := k);
    hide FirstParagraph; hide Inside; hide FallbackDepth; hide CellDepth;
  }

  /** Between two neighbouring runs of a region stands what the events between their text
    * elements write: a newline for each paragraph opened there but the region's first and for
    * each text box closed, and a tab for each tab, in stream order.
    */
  lemma {:induction false} BetweenRuns(flat: FlatText, events: seq<Event>, r: Span, i: nat)
    requires RegionIs(flat, events, r) && i + 1 < |flat.runs|
    ensures var texts := Texts(events, r);
            && |texts| == |flat.runs| && flat.runs[i].flatEnd <= flat.runs[i + 1].flatStart <= |flat.text|
            && flat.text[flat.runs[i].flatEnd..flat.runs[i + 1].flatStart] ==
               WritesFrom(events, r, texts[i] + 1, texts[i + 1])
  {
    hide *;
    var texts := Texts(events, r);
    RunPlace(flat, events, r, i);
    RunPlace(flat, events, r, i + 1);
    var a, b := texts[i], texts[i + 1];
    TextWritten(events, r, i);
    ReadsOne(events, r, a);
    ReadsSplit(events, r, a + 1, b);
    ReadsSplit(events, r, b, r.to);
    assert r.(to := r.to) == r;
    Gap(flat.text, Reads(events, r.(to := a)), ContentOf(events[a]), WritesFrom(events, r, a + 1, b),
        Reads(events, r.(to := b)), WritesFrom(events, r, b, r.to));
  }

  lemma {:induction false} RunPlace(flat: FlatText, events: seq<Event>, r: Span, i: nat)
    requires RegionIs(flat, events, r) && i < |flat.runs|
    ensures var texts := Texts(events, r);
            && |texts| == |flat.runs| && flat.text == Reads(events, r)
            && r.from <= texts[i] < r.to && texts[i] < |events| && (i + 1 < |texts| ==> texts[i] < texts[i + 1])
            && flat.runs[i].flatStart == |Reads(events, r.(to := texts[i]))|
            && flat.runs[i].flatEnd == |Reads(events, r.(to := texts[i]))| + |ContentOf(events[texts[i]])|
  {
    hide Texts; hide Underlined; hide OpenedAt; hide PropsRange; hide RunEnd; hide Reads;
    TextsIn(events, r);
    assert RunIs(flat.runs[i], events, r, Texts(events, r)[i]);
  }

  lemma {:induction false} Gap(text: string, before: string, x: string, between: string, upTo: string, after: string)
    requires upTo == before + x + between && text == upTo + after
    ensures |before| + |x| <= |upTo| <= |text| && text[|before| + |x|..|upTo|] == between
  {
  }

  lemma {:induction false} TextWritten(events: seq<Event>, r: Span, i: nat)
    requires i < |Texts(events, r)|
    ensures Texts(events, r)[i] < |events|
    ensures Writes(events, r, Texts(events, r)[i]) == ContentOf(events[Texts(events, r)[i]])
    decreases r.to
  {
    var before := r.(to := r.to - 1);
    hide FallbackDepth; hide CellDepth;
    if i < |Texts(events, before)| {
      TextWritten(events, before, i);
      SameWrites(events, r, before, Texts(events, r)[i]);
    }
  }
}
