/** Flattening the event stream of a WordprocessingML document into regions of
  * plain text (the body and every table cell), each with a map back to the
  * byte ranges its runs came from. A `string` stands for UTF-8 bytes, one
  * element per byte. The run and run-content elements are those of ECMA-376
  * Part 1, sections 17.3.2 and 17.3.3.
  */
module DocxFlatten {
  import opened Options

  datatype Name = Tc | P | Tabs | R | RPr | Tab | U | TxbxContent | Fallback | Unknown

  /** One stretch of decoded run text, and where it ends in the document. */
  datatype Piece = Piece(decoded: string, end: nat)

  /** What the reader delivers, with the byte offsets before and after it. A text
    * element with content arrives as one event holding its pieces.
    */
  datatype Event =
    | Open(name: Name, before: nat, after: nat)
    | Empty(name: Name, isNone: bool, before: nat, after: nat)
    | Close(name: Name, before: nat, after: nat)
    | Text(before: nat, contentStart: nat, pieces: seq<Piece>, after: nat)
    | EmptyText(before: nat, after: nat)
    | Other(before: nat, after: nat)

  datatype RunSpan = RunSpan(flatStart: nat, flatEnd: nat, contentStart: nat, contentEnd: nat, isUnderlined: bool,
                             runStart: nat, runEnd: nat, tOpenStart: nat, rprRange: Option<(nat, nat)>)

  datatype EmptyParagraph = EmptyParagraph(insertAt: nat, replaceEnd: nat, selfClosing: bool)

  datatype FlatText = FlatText(text: string, runs: seq<RunSpan>, underlinedTabs: seq<nat>,
                               emptyParagraph: Option<EmptyParagraph>)

  /** A region being written. `firstDepth`: the nesting depth of its first paragraph while that is open. */
  datatype Accumulator = Accumulator(text: string, runs: seq<RunSpan>, wroteParagraph: bool, underlinedTabs: seq<nat>,
                                     emptyParagraph: Option<EmptyParagraph>, firstDepth: Option<nat>)

  const NewAccumulator := Accumulator("", [], false, [], None, None)

  function Finish(acc: Accumulator): FlatText {
    FlatText(acc.text, acc.runs, acc.underlinedTabs, if acc.runs == [] then acc.emptyParagraph else None)
  }

  /** What is known of the run being read. */
  datatype RunState = RunState(inProps: bool, underlined: bool, start: nat, rprOpen: nat, rprRange: Option<(nat, nat)>,
                               pushed: bool)

  datatype State = State(body: Accumulator, stack: seq<Accumulator>, cells: seq<FlatText>,
                         run: RunState, inTabStops: bool, depth: nat, fallback: nat)

  const Initial := State(NewAccumulator, [], [], RunState(false, false, 0, 0, None, false), false, 0, 0)

  /** The region being written to: the innermost open cell, or the body. */
  function Current(s: State): Accumulator {
    if s.stack == [] then s.body else s.stack[|s.stack| - 1]
  }

  function WithCurrent(s: State, acc: Accumulator): State {
    if s.stack == [] then s.(body := acc) else s.(stack := s.stack[|s.stack| - 1 := acc])
  }

  function Decoded(pieces: seq<Piece>): string {
    if pieces == [] then "" else Decoded(pieces[..|pieces| - 1]) + pieces[|pieces| - 1].decoded
  }

  function ContentEnd(start: nat, pieces: seq<Piece>): nat {
    if pieces == [] then start else pieces[|pieces| - 1].end
  }

  function PushRun(acc: Accumulator, decoded: string, contentStart: nat, contentEnd: nat, run: RunState,
                   tOpen: nat): Accumulator
  {
    acc.(text := acc.text + decoded,
         runs := acc.runs + [RunSpan(|acc.text|, |acc.text| + |decoded|, contentStart, contentEnd, run.underlined,
                                     run.start, contentEnd, tOpen, run.rprRange)])
  }

  function OnOpen(s: State, name: Name, before: nat): State {
    match name
    case Tc => s.(stack := s.stack + [NewAccumulator])
    case P =>
      var depth, acc := s.depth + 1, Current(s);
      WithCurrent(s.(depth := depth),
                  if acc.wroteParagraph then acc.(text := acc.text + "\n")
                  else acc.(wroteParagraph := true, firstDepth := Some(depth)))
    case Tabs => s.(inTabStops := true)
    case R => s.(run := RunState(s.run.inProps, false, before, s.run.rprOpen, None, false))
    case RPr => s.(run := s.run.(inProps := true, rprOpen := before))
    case _ => s
  }

  function OnEmpty(s: State, name: Name, isNone: bool, before: nat, after: nat): State {
    var acc := Current(s);
    match name
    case Tab =>
      if s.inTabStops then s
      else WithCurrent(s,
                       acc.(underlinedTabs := if s.run.underlined then acc.underlinedTabs + [|acc.text|]
                            else acc.underlinedTabs,
                               text := acc.text + "\t"))
    case P =>
      if s.stack != [] && !acc.wroteParagraph && acc.emptyParagraph.None?
      then WithCurrent(s, acc.(emptyParagraph := Some(EmptyParagraph(before, after, true)))) else s
    case U => if s.run.inProps then s.(run := s.run.(underlined := !isNone)) else s
    case RPr => s.(run := s.run.(rprRange := Some((before, after))))
    case _ => s
  }

  function CloseParagraph(s: State, before: nat): State {
    var acc := Current(s);
    var first := acc.firstDepth == Some(s.depth);
    var marked := if s.stack != [] && first && acc.runs == [] && acc.emptyParagraph.None?
                  then acc.(emptyParagraph := Some(EmptyParagraph(before, before, false))) else acc;
    WithCurrent(s.(depth := if s.depth > 0 then s.depth - 1 else 0),
                if first then marked.(firstDepth := None) else marked)
  }

  /** The last run of the region gets the end of its run element. */
  function CloseRun(s: State, after: nat): State {
    var acc := Current(s);
    if s.run.pushed && acc.runs != []
    then WithCurrent(s, acc.(runs := acc.runs[|acc.runs| - 1 := acc.runs[|acc.runs| - 1].(runEnd := after)])) else s
  }

  function OnClose(s: State, name: Name, before: nat, after: nat): State {
    match name
    case Tabs => s.(inTabStops := false)
    case TxbxContent => WithCurrent(s, Current(s).(text := Current(s).text + "\n"))
    case P => CloseParagraph(s, before)
    case RPr => s.(run := s.run.(inProps := false, rprRange := Some((s.run.rprOpen, after))))
    case R => CloseRun(s, after)
    case Tc =>
      if s.stack == [] then s
      else s.(cells := s.cells + [Finish(s.stack[|s.stack| - 1])], stack := s.stack[..|s.stack| - 1])
    case _ => s
  }

  /** Handling one event outside any fallback content. */
  function Handle(s: State, e: Event): State {
    match e
    case Open(name, before, _) => OnOpen(s, name, before)
    case Empty(name, isNone, before, after) => OnEmpty(s, name, isNone, before, after)
    case Close(name, before, after) => OnClose(s, name, before, after)
    case Text(before, start, pieces, _) =>
      WithCurrent(s.(run := s.run.(pushed := true)),
                  PushRun(Current(s), Decoded(pieces), start, ContentEnd(start, pieces), s.run, before))
    case EmptyText(before, after) =>
      WithCurrent(s.(run := s.run.(pushed := true)), PushRun(Current(s), "", after, after, s.run, before))
    case Other(_, _) => s
  }

  predicate OpensFallback(e: Event) { e.Open? && e.name.Fallback? }
  predicate ClosesFallback(e: Event) { e.Close? && e.name.Fallback? }

  /** Fallback content is skipped; everything else is handled. */
  function Step(s: State, e: Event): State {
    if OpensFallback(e) then s.(fallback := s.fallback + 1)
    else if ClosesFallback(e) then s.(fallback := if s.fallback > 0 then s.fallback - 1 else 0)
    else if s.fallback > 0 then s
    else Handle(s, e)
  }

  function Fold(s: State, events: seq<Event>): State {
    if events == [] then s else Step(Fold(s, events[..|events| - 1]), events[|events| - 1])
  }

  datatype FlatDocument = FlatDocument(body: FlatText, cells: seq<FlatText>)

  /** The body, then the cells. */
  function Regions(doc: FlatDocument): seq<FlatText> { [doc.body] + doc.cells }

  /** The document's regions. Cells left open at the end of the stream are dropped. */
  function Flatten(events: seq<Event>): FlatDocument {
    var s := Fold(Initial, events);
    FlatDocument(Finish(s.body), s.cells)
  }

  method ExtractFlatText(events: seq<Event>) returns (doc: FlatDocument)
    ensures doc == Flatten(events)
  {
    var s := Initial;
    for i := 0 to |events|
      invariant s == Fold(Initial, events[..i])
    {
      assert events[..i + 1][..i] == events[..i];
      s := Step(s, events[i]);
    }
    assert events[..|events|] == events;
    doc := FlatDocument(Finish(s.body), s.cells);
  }

  // ---------------------------------------------------------------- what each region keeps

  /** Runs lie inside the text, in order, without overlapping. */
  predicate RunsOk(text: string, runs: seq<RunSpan>) {
    && (forall i :: 0 <= i < |runs| ==> runs[i].flatStart <= runs[i].flatEnd <= |text|)
    && (forall i, j :: 0 <= i < j < |runs| ==> runs[i].flatEnd <= runs[j].flatStart)
  }

  /** Position `x` belongs to a run. */
  ghost predicate InRun(runs: seq<RunSpan>, x: int) {
    exists i :: 0 <= i < |runs| && runs[i].flatStart <= x < runs[i].flatEnd
  }

  /** Text outside the runs is separators only. */
  ghost predicate SeparatorsOk(text: string, runs: seq<RunSpan>) {
    forall x :: 0 <= x < |text| ==> InRun(runs, x) || text[x] == '\n' || text[x] == '\t'
  }

  /** Recorded tabs are tabs outside the runs, in order. */
  ghost predicate TabsOk(text: string, runs: seq<RunSpan>, tabs: seq<nat>) {
    && (forall i :: 0 <= i < |tabs| ==> tabs[i] < |text| && text[tabs[i]] == '\t' && !InRun(runs, tabs[i]))
    && (forall i, j :: 0 <= i < j < |tabs| ==> tabs[i] < tabs[j])
  }

  ghost predicate RegionOk(text: string, runs: seq<RunSpan>, tabs: seq<nat>) {
    RunsOk(text, runs) && SeparatorsOk(text, runs) && TabsOk(text, runs, tabs)
  }

  lemma AppendSeparator(text: string, runs: seq<RunSpan>, tabs: seq<nat>, c: char, record: bool)
    requires RegionOk(text, runs, tabs) && (c == '\n' || c == '\t') && (record ==> c == '\t')
    ensures RegionOk(text + [c], runs, if record then tabs + [|text|] else tabs)
  {
    assert !InRun(runs, |text|);
  }

  lemma InRunAppend(runs: seq<RunSpan>, r: RunSpan, x: int)
    ensures InRun(runs + [r], x) <==> InRun(runs, x) || r.flatStart <= x < r.flatEnd
  {
    var more := runs + [r];
    if InRun(runs, x) {
      var i :| 0 <= i < |runs| && runs[i].flatStart <= x < runs[i].flatEnd;
      assert more[i] == runs[i];
    }
    if r.flatStart <= x < r.flatEnd {
      assert more[|runs|] == r;
    }
  }

  lemma AppendRun(text: string, runs: seq<RunSpan>, tabs: seq<nat>, more: string, r: RunSpan)
    requires RegionOk(text, runs, tabs) && r.flatStart == |text| && r.flatEnd == |text| + |more|
    ensures RegionOk(text + more, runs + [r], tabs)
  {
    forall x ensures InRun(runs + [r], x) <==> InRun(runs, x) || r.flatStart <= x < r.flatEnd {
      InRunAppend(runs, r, x);
    }
  }

  /** Only the end of a run's element changed. */
  ghost predicate SameFlat(runs: seq<RunSpan>, more: seq<RunSpan>) {
    && |runs| == |more|
    && forall i :: 0 <= i < |runs| ==> more[i].flatStart == runs[i].flatStart && more[i].flatEnd == runs[i].flatEnd
  }

  lemma SameFlatOk(text: string, runs: seq<RunSpan>, more: seq<RunSpan>, tabs: seq<nat>)
    requires RegionOk(text, runs, tabs) && SameFlat(runs, more)
    ensures RegionOk(text, more, tabs)
  {
    forall x ensures InRun(more, x) <==> InRun(runs, x) {
      if InRun(runs, x) {
        var i :| 0 <= i < |runs| && runs[i].flatStart <= x < runs[i].flatEnd;
        assert more[i].flatStart <= x < more[i].flatEnd;
      }
      if InRun(more, x) {
        var i :| 0 <= i < |more| && more[i].flatStart <= x < more[i].flatEnd;
        assert runs[i].flatStart <= x < runs[i].flatEnd;
      }
    }
  }

  ghost predicate AccOk(acc: Accumulator) { RegionOk(acc.text, acc.runs, acc.underlinedTabs) }
  ghost predicate FlatOk(f: FlatText) { RegionOk(f.text, f.runs, f.underlinedTabs) }

  ghost predicate RegionsOk(s: State) {
    && AccOk(s.body)
    && (forall i :: 0 <= i < |s.stack| ==> AccOk(s.stack[i]))
    && (forall i :: 0 <= i < |s.cells| ==> FlatOk(s.cells[i]))
  }

  lemma OpenOk(s: State, name: Name, before: nat)
    requires RegionsOk(s)
    ensures RegionsOk(OnOpen(s, name, before))
  {
    hide RegionOk;
    assert AccOk(NewAccumulator) by { EmptyRegionOk(); }
    if name.P? {
      var acc := Current(s);
      assert AccOk(acc);
      AppendSeparator(acc.text, acc.runs, acc.underlinedTabs, '\n', false);
    }
  }

  lemma EmptyRegionOk()
    ensures RegionOk("", [], [])
  {
  }

  lemma EmptyElementOk(s: State, name: Name, isNone: bool, before: nat, after: nat)
    requires RegionsOk(s)
    ensures RegionsOk(OnEmpty(s, name, isNone, before, after))
  {
    hide RegionOk;
    var acc := Current(s);
    assert AccOk(acc);
    if name.Tab? {
      AppendSeparator(acc.text, acc.runs, acc.underlinedTabs, '\t', s.run.underlined);
    }
  }

  lemma CloseOk(s: State, name: Name, before: nat, after: nat)
    requires RegionsOk(s)
    ensures RegionsOk(OnClose(s, name, before, after))
  {
    hide RegionOk;
    var acc := Current(s);
    assert AccOk(acc);
    if name.TxbxContent? {
      AppendSeparator(acc.text, acc.runs, acc.underlinedTabs, '\n', false);
    } else if name.R? && acc.runs != [] {
      var n := |acc.runs| - 1;
      SameFlatOk(acc.text, acc.runs, acc.runs[n := acc.runs[n].(runEnd := after)], acc.underlinedTabs);
    }
  }

  lemma TextOk(s: State, decoded: string, contentStart: nat, contentEnd: nat, tOpen: nat)
    requires RegionsOk(s)
    ensures RegionsOk(WithCurrent(s, PushRun(Current(s), decoded, contentStart, contentEnd, s.run, tOpen)))
  {
    hide RegionOk;
    var acc := Current(s);
    var more := PushRun(acc, decoded, contentStart, contentEnd, s.run, tOpen);
    assert AccOk(acc);
    AppendRun(acc.text, acc.runs, acc.underlinedTabs, decoded, more.runs[|acc.runs|]);
  }

  lemma StepOk(s: State, e: Event)
    requires RegionsOk(s)
    ensures RegionsOk(Step(s, e))
  {
    hide RegionOk;
    match e
    case Open(name, before, _) => OpenOk(s, name, before);
    case Empty(name, isNone, before, after) => EmptyElementOk(s, name, isNone, before, after);
    case Close(name, before, after) => CloseOk(s, name, before, after);
    case Text(before, start, pieces, _) => TextOk(s, Decoded(pieces), start, ContentEnd(start, pieces), before);
    case EmptyText(before, after) => TextOk(s, "", after, after, before);
    case Other(_, _) =>
  }

  lemma {:induction false} FoldOk(s: State, events: seq<Event>)
    requires RegionsOk(s)
    ensures RegionsOk(Fold(s, events))
  {
    hide RegionsOk;
    hide Step;
    if events != [] {
      FoldOk(s, events[..|events| - 1]);
      StepOk(Fold(s, events[..|events| - 1]), events[|events| - 1]);
    }
  }

  /** In every region of every document: runs are in bounds, in order and apart,
    * everything between them is a newline or a tab, and each recorded tab is one
    * of those tabs, in order.
    */
  lemma RegionsAreWellFormed(events: seq<Event>)
    ensures FlatOk(Flatten(events).body)
    ensures forall i :: 0 <= i < |Flatten(events).cells| ==> FlatOk(Flatten(events).cells[i])
  {
    assert AccOk(NewAccumulator) by { EmptyRegionOk(); }
    FoldOk(Initial, events);
  }

  // ---------------------------------------------------------------- fallback content

  /** How deep in fallback content the events leave the reader. */
  function FallbackDepth(events: seq<Event>): nat {
    if events == [] then 0
    else
      var d, e := FallbackDepth(events[..|events| - 1]), events[|events| - 1];
      if OpensFallback(e) then d + 1 else if ClosesFallback(e) && d > 0 then d - 1 else d
  }

  /** The events outside fallback content. */
  function WithoutFallback(events: seq<Event>): seq<Event> {
    if events == [] then []
    else
      var rest, e := events[..|events| - 1], events[|events| - 1];
      WithoutFallback(rest) + if OpensFallback(e) || ClosesFallback(e) || FallbackDepth(rest) > 0 then [] else [e]
  }

  lemma {:induction false} FallbackIgnored(events: seq<Event>)
    ensures Fold(Initial, WithoutFallback(events)).fallback == 0
    ensures Fold(Initial, events) == Fold(Initial, WithoutFallback(events)).(fallback := FallbackDepth(events))
  {
    if events != [] {
      var n := |events| - 1;
      var kept, e := WithoutFallback(events[..n]), events[n];
      FallbackIgnored(events[..n]);
      assert kept + [] == kept;
      if !OpensFallback(e) && !ClosesFallback(e) && FallbackDepth(events[..n]) == 0 {
        assert (kept + [e])[..|kept|] == kept;
        HandleKeepsFallback(Fold(Initial, kept), e);
      }
    }
  }

  lemma HandleKeepsFallback(s: State, e: Event)
    ensures Handle(s, e).fallback == s.fallback
  {
  }

  /** Fallback content contributes nothing: removing it from the stream changes no region. */
  lemma FallbackContributesNothing(events: seq<Event>)
    ensures Flatten(events) == Flatten(WithoutFallback(events))
  {
    FallbackIgnored(events);
  }

  // ---------------------------------------------------------------- every text element in one region

  /** Where a text element opens, and the byte range of its content. */
  datatype Mark = Mark(open: nat, start: nat, end: nat)

  function MarkOf(r: RunSpan): Mark { Mark(r.tOpenStart, r.contentStart, r.contentEnd) }

  function One(b: bool): nat { if b then 1 else 0 }

  /** How often `m` occurs among runs, in the open cells, in the finished cells, and anywhere. */
  function RunCount(runs: seq<RunSpan>, m: Mark): nat {
    if runs == [] then 0 else RunCount(runs[..|runs| - 1], m) + One(MarkOf(runs[|runs| - 1]) == m)
  }

  function OpenCount(stack: seq<Accumulator>, m: Mark): nat {
    if stack == [] then 0 else OpenCount(stack[..|stack| - 1], m) + RunCount(stack[|stack| - 1].runs, m)
  }

  function CellCount(cells: seq<FlatText>, m: Mark): nat {
    if cells == [] then 0 else CellCount(cells[..|cells| - 1], m) + RunCount(cells[|cells| - 1].runs, m)
  }

  function Count(s: State, m: Mark): nat {
    RunCount(s.body.runs, m) + OpenCount(s.stack, m) + CellCount(s.cells, m)
  }

  /** The event is the text element `m`. */
  predicate IsText(e: Event, m: Mark) {
    match e
    case Text(before, start, pieces, _) => m == Mark(before, start, ContentEnd(start, pieces))
    case EmptyText(before, after) => m == Mark(before, after, after)
    case _ => false
  }

  /** How often the text element `m` occurs outside fallback content. */
  function TextCount(events: seq<Event>, m: Mark): nat {
    if events == [] then 0
    else
      var rest := events[..|events| - 1];
      TextCount(rest, m) + One(FallbackDepth(rest) == 0 && IsText(events[|events| - 1], m))
  }

  lemma PushCount(runs: seq<RunSpan>, r: RunSpan, m: Mark)
    ensures RunCount(runs + [r], m) == RunCount(runs, m) + One(MarkOf(r) == m)
  {
    assert (runs + [r])[..|runs|] == runs;
  }

  lemma WithCurrentCount(s: State, acc: Accumulator, m: Mark)
    ensures Count(WithCurrent(s, acc), m) == Count(s, m) - RunCount(Current(s).runs, m) + RunCount(acc.runs, m)
  {
    if s.stack != [] {
      var n := |s.stack| - 1;
      assert s.stack[n := acc][..n] == s.stack[..n];
    }
  }

  lemma CloseRunCount(runs: seq<RunSpan>, after: nat, m: Mark)
    requires runs != []
    ensures RunCount(runs[|runs| - 1 := runs[|runs| - 1].(runEnd := after)], m) == RunCount(runs, m)
  {
    var n := |runs| - 1;
    assert runs[n := runs[n].(runEnd := after)][..n] == runs[..n];
  }

  lemma OpenKeepsCount(s: State, name: Name, before: nat, m: Mark)
    ensures Count(OnOpen(s, name, before), m) == Count(s, m)
  {
    if name.Tc? {
      assert (s.stack + [NewAccumulator])[..|s.stack|] == s.stack;
    } else if name.P? {
      var acc := Current(s);
      WithCurrentCount(s.(depth := s.depth + 1), if acc.wroteParagraph then acc.(text := acc.text + "\n")
                                                 else acc.(wroteParagraph := true, firstDepth := Some(s.depth + 1)), m);
    }
  }

  lemma EmptyKeepsCount(s: State, name: Name, isNone: bool, before: nat, after: nat, m: Mark)
    ensures Count(OnEmpty(s, name, isNone, before, after), m) == Count(s, m)
  {
    var s' := OnEmpty(s, name, isNone, before, after);
    if name.Tab? || name.P? {
      WithCurrentCount(s, Current(s'), m);
      assert s' == s || s' == WithCurrent(s, Current(s'));
    }
  }

  lemma PopKeepsCount(s: State, m: Mark)
    requires s.stack != []
    ensures Count(s.(cells := s.cells + [Finish(s.stack[|s.stack| - 1])], stack := s.stack[..|s.stack| - 1]), m) ==
            Count(s, m)
  {
    assert (s.cells + [Finish(s.stack[|s.stack| - 1])])[..|s.cells|] == s.cells;
  }

  lemma CloseKeepsCount(s: State, name: Name, before: nat, after: nat, m: Mark)
    ensures Count(OnClose(s, name, before, after), m) == Count(s, m)
  {
    hide RunCount;
    hide OpenCount;
    hide CellCount;
    var s' := OnClose(s, name, before, after);
    var acc := Current(s);
    if name.Tc? && s.stack != [] {
      PopKeepsCount(s, m);
    } else if name.TxbxContent? {
      WithCurrentCount(s, Current(s'), m);
    } else if name.R? && s.run.pushed && acc.runs != [] {
      CloseRunCount(acc.runs, after, m);
      WithCurrentCount(s, Current(s'), m);
    } else if name.P? {
      WithCurrentCount(s.(depth := s'.depth), Current(s'), m);
    }
  }

  lemma PushedCount(s: State, decoded: string, contentStart: nat, contentEnd: nat, tOpen: nat, m: Mark)
    ensures Count(WithCurrent(s.(run := s.run.(pushed := true)),
                              PushRun(Current(s), decoded, contentStart, contentEnd, s.run, tOpen)), m)
         == Count(s, m) + One(m == Mark(tOpen, contentStart, contentEnd))
  {
    hide RunCount;
    hide OpenCount;
    hide CellCount;
    var acc := PushRun(Current(s), decoded, contentStart, contentEnd, s.run, tOpen);
    var r := RunSpan(|Current(s).text|, |Current(s).text| + |decoded|, contentStart, contentEnd, s.run.underlined,
                     s.run.start, contentEnd, tOpen, s.run.rprRange);
    assert acc.runs == Current(s).runs + [r];
    PushCount(Current(s).runs, r, m);
    WithCurrentCount(s.(run := s.run.(pushed := true)), acc, m);
  }

  lemma TextCounts(s: State, e: Event, m: Mark)
    requires e.Text? || e.EmptyText?
    ensures Count(Handle(s, e), m) == Count(s, m) + One(IsText(e, m))
  {
    hide Count;
    match e
    case Text(before, start, pieces, _) => PushedCount(s, Decoded(pieces), start, ContentEnd(start, pieces), before, m);
    case EmptyText(before, after) => PushedCount(s, "", after, after, before, m);
  }

  lemma StepCounts(s: State, e: Event, m: Mark)
    ensures Count(Step(s, e), m) == Count(s, m) + One(s.fallback == 0 && IsText(e, m))
  {
    match e
    case Open(name, before, _) => OpenKeepsCount(s, name, before, m);
    case Empty(name, isNone, before, after) => EmptyKeepsCount(s, name, isNone, before, after, m);
    case Close(name, before, after) => CloseKeepsCount(s, name, before, after, m);
    case Text(_, _, _, _) => TextCounts(s, e, m);
    case EmptyText(_, _) => TextCounts(s, e, m);
    case Other(_, _) =>
  }

  /** Every text element outside fallback content becomes one run, of the body, of a
    * finished cell or of a cell still open, and there are no other runs.
    */
  lemma {:induction false} EveryTextCounted(events: seq<Event>, m: Mark)
    ensures Count(Fold(Initial, events), m) == TextCount(events, m)
  {
    FallbackIgnored(events);
    if events != [] {
      var n := |events| - 1;
      FallbackIgnored(events[..n]);
      EveryTextCounted(events[..n], m);
      hide Step;
      StepCounts(Fold(Initial, events[..n]), events[n], m);
    }
  }

  // ---------------------------------------------------------------- byte ranges

  predicate EventOk(e: Event) {
    e.before < e.after && (e.Text? ==> e.before < e.contentStart <= ContentEnd(e.contentStart, e.pieces) <= e.after)
  }

  /** Events cover successive stretches of the document. */
  predicate InOrder(events: seq<Event>) {
    && (forall i :: 0 <= i < |events| ==> EventOk(events[i]))
    && (forall i, j :: 0 <= i < j < |events| ==> events[i].after <= events[j].before)
  }

  lemma {:induction false} CountedOnce(events: seq<Event>, m: Mark)
    requires InOrder(events)
    ensures TextCount(events, m) <= 1
    ensures TextCount(events, m) > 0 ==> exists i :: 0 <= i < |events| && IsText(events[i], m)
  {
    if events != [] {
      var n := |events| - 1;
      CountedOnce(events[..n], m);
      if TextCount(events[..n], m) > 0 {
        var i :| 0 <= i < n && IsText(events[..n][i], m);
        assert IsText(events[i], m) && events[i].before < events[n].before;
      }
    }
  }

  /** No two runs anywhere, in the same region or in different ones, are the same
    * text element, and the byte ranges of their contents do not overlap.
    */
  lemma ContentRangesApart(events: seq<Event>, m: Mark, n: Mark)
    requires InOrder(events)
    ensures var s := Fold(Initial, events);
            && Count(s, m) <= 1
            && (Count(s, m) > 0 ==> m.open < m.start <= m.end)
            && (Count(s, m) > 0 && Count(s, n) > 0 && m != n ==> m.end <= n.open || n.end <= m.open)
  {
    EveryTextCounted(events, m);
    EveryTextCounted(events, n);
    CountedOnce(events, m);
    CountedOnce(events, n);
    if TextCount(events, m) > 0 && TextCount(events, n) > 0 {
      var i :| 0 <= i < |events| && IsText(events[i], m);
      var j :| 0 <= j < |events| && IsText(events[j], n);
      assert i == j || events[i].after <= events[j].before || events[j].after <= events[i].before;
    }
  }

  // ---------------------------------------------------------------- empty cells

  /** Only a cell offers an insertion point, and then it has no run and no text but separators. */
  lemma InsertionPointMeansNoText(events: seq<Event>)
    ensures Flatten(events).body.emptyParagraph == None
    ensures forall i :: 0 <= i < |Flatten(events).cells| && Flatten(events).cells[i].emptyParagraph.Some? ==>
              Flatten(events).cells[i].runs == [] && OnlySeparators(Flatten(events).cells[i].text)
  {
    BodyHasNoInsertionPoint(events);
    RegionsAreWellFormed(events);
    CellsFinished(events);
  }

  predicate OnlySeparators(text: string) {
    forall x :: 0 <= x < |text| ==> text[x] == '\n' || text[x] == '\t'
  }

  lemma {:induction false} BodyHasNoInsertionPoint(events: seq<Event>)
    ensures Fold(Initial, events).body.emptyParagraph == None
  {
    if events != [] {
      var n := |events| - 1;
      BodyHasNoInsertionPoint(events[..n]);
      BodyStaysWithout(Fold(Initial, events[..n]), events[n]);
      hide Step;
    }
  }

  lemma BodyStaysWithout(s: State, e: Event)
    requires s.body.emptyParagraph == None
    ensures Step(s, e).body.emptyParagraph == None
  {
  }

  predicate NoRunsWithInsertionPoint(cells: seq<FlatText>) {
    forall i :: 0 <= i < |cells| && cells[i].emptyParagraph.Some? ==> cells[i].runs == []
  }

  lemma CellsGrow(s: State, e: Event)
    ensures Step(s, e).cells == s.cells || exists acc :: Step(s, e).cells == s.cells + [Finish(acc)]
  {
    if e.Close? && e.name.Tc? && s.fallback == 0 && s.stack != [] {
      assert Step(s, e).cells == s.cells + [Finish(s.stack[|s.stack| - 1])];
    }
  }

  lemma {:induction false} CellsFinished(events: seq<Event>)
    ensures NoRunsWithInsertionPoint(Fold(Initial, events).cells)
  {
    if events != [] {
      var n := |events| - 1;
      CellsFinished(events[..n]);
      CellsGrow(Fold(Initial, events[..n]), events[n]);
      hide Step;
    }
  }
}
