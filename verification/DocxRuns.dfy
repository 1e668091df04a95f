/** Every run of a flattened region stands for the text its element holds. */
module DocxRuns {
  import opened DocxFlatten

  /** What a text element holds. */
  function ContentOf(e: Event): string { if e.Text? then Decoded(e.pieces) else "" }

  /** The run is the text element numbered `k`, and its stretch of `text` is what that holds. */
  predicate StandsFor(text: string, run: RunSpan, events: seq<Event>, k: nat) {
    && run.flatStart <= run.flatEnd <= |text| && k < |events|
    && IsText(events[k], MarkOf(run)) && text[run.flatStart..run.flatEnd] == ContentOf(events[k])
  }

  ghost predicate HasElement(text: string, run: RunSpan, events: seq<Event>) {
    exists k: nat :: StandsFor(text, run, events, k)
  }

  ghost predicate Carried(text: string, runs: seq<RunSpan>, events: seq<Event>) {
    forall i :: 0 <= i < |runs| ==> HasElement(text, runs[i], events)
  }

  ghost predicate AllCarried(s: State, events: seq<Event>) {
    && Carried(s.body.text, s.body.runs, events)
    && (forall i :: 0 <= i < |s.stack| ==> Carried(s.stack[i].text, s.stack[i].runs, events))
    && (forall i :: 0 <= i < |s.cells| ==> Carried(s.cells[i].text, s.cells[i].runs, events))
  }

  // ---------------------------------------------------------------- one region

  lemma {:induction false} LongerText(text: string, more: string, runs: seq<RunSpan>, events: seq<Event>)
    requires Carried(text, runs, events)
    ensures Carried(text + more, runs, events)
  {
    forall i | 0 <= i < |runs| ensures HasElement(text + more, runs[i], events) {
      assert HasElement(text, runs[i], events);
      var k: nat :| StandsFor(text, runs[i], events, k);
      assert (text + more)[runs[i].flatStart..runs[i].flatEnd] == text[runs[i].flatStart..runs[i].flatEnd];
      assert StandsFor(text + more, runs[i], events, k);
    }
  }

  lemma {:induction false} LongerStream(text: string, runs: seq<RunSpan>, events: seq<Event>, e: Event)
    requires Carried(text, runs, events)
    ensures Carried(text, runs, events + [e])
  {
    forall i | 0 <= i < |runs| ensures HasElement(text, runs[i], events + [e]) {
      assert HasElement(text, runs[i], events);
      var k: nat :| StandsFor(text, runs[i], events, k);
      assert (events + [e])[k] == events[k];
      assert StandsFor(text, runs[i], events + [e], k);
    }
  }

  lemma {:induction false} PushedRun(acc: Accumulator, content: string, start: nat, end: nat, run: RunState, open: nat,
                                     events: seq<Event>, k: nat)
    requires Carried(acc.text, acc.runs, events) && k < |events|
    requires IsText(events[k], Mark(open, start, end)) && ContentOf(events[k]) == content
    ensures var pushed := PushRun(acc, content, start, end, run, open); Carried(pushed.text, pushed.runs, events)
  {
    var pushed := PushRun(acc, content, start, end, run, open);
    LongerText(acc.text, content, acc.runs, events);
    var n := |acc.runs|;
    assert pushed.text[|acc.text|..|acc.text| + |content|] == content;
    assert StandsFor(pushed.text, pushed.runs[n], events, k);
    forall i | 0 <= i < |pushed.runs| ensures HasElement(pushed.text, pushed.runs[i], events) {
      if i < n { assert pushed.runs[i] == acc.runs[i] && HasElement(pushed.text, acc.runs[i], events); }
    }
  }

  lemma {:induction false} ClosedRun(text: string, runs: seq<RunSpan>, end: nat, events: seq<Event>)
    requires Carried(text, runs, events) && runs != []
    ensures Carried(text, runs[|runs| - 1 := runs[|runs| - 1].(runEnd := end)], events)
  {
    var closed := runs[|runs| - 1 := runs[|runs| - 1].(runEnd := end)];
    forall i | 0 <= i < |closed| ensures HasElement(text, closed[i], events) {
      assert HasElement(text, runs[i], events);
      var k: nat :| StandsFor(text, runs[i], events, k);
      assert StandsFor(text, closed[i], events, k);
    }
  }

  // ---------------------------------------------------------------- every step

  lemma {:induction false} CurrentCarried(s: State, acc: Accumulator, events: seq<Event>)
    requires AllCarried(s, events) && Carried(acc.text, acc.runs, events)
    ensures AllCarried(WithCurrent(s, acc), events)
  {
    hide Carried;
  }

  lemma {:induction false} OpenCarries(s: State, name: Name, before: nat, events: seq<Event>)
    requires AllCarried(s, events)
    ensures AllCarried(OnOpen(s, name, before), events)
  {
    assert Carried("", [], events);
    hide Carried;
    var acc := Current(s);
    assert Carried(acc.text, acc.runs, events);
    if name.P? { LongerText(acc.text, "\n", acc.runs, events); }
  }

  lemma {:induction false} EmptyCarries(s: State, name: Name, isNone: bool, before: nat, after: nat, events: seq<Event>)
    requires AllCarried(s, events)
    ensures AllCarried(OnEmpty(s, name, isNone, before, after), events)
  {
    hide Carried;
    var acc := Current(s);
    assert Carried(acc.text, acc.runs, events);
    if name.Tab? { LongerText(acc.text, "\t", acc.runs, events); }
  }

  lemma {:induction false} CloseCarries(s: State, name: Name, before: nat, after: nat, events: seq<Event>)
    requires AllCarried(s, events)
    ensures AllCarried(OnClose(s, name, before, after), events)
  {
    hide Carried;
    var acc := Current(s);
    assert Carried(acc.text, acc.runs, events);
    if name.TxbxContent? { LongerText(acc.text, "\n", acc.runs, events); }
    if name.R? && acc.runs != [] { ClosedRun(acc.text, acc.runs, after, events); }
  }

  lemma {:induction false} TextCarries(s: State, e: Event, events: seq<Event>)
    requires AllCarried(s, events) && (e.Text? || e.EmptyText?) && events != [] && events[|events| - 1] == e
    ensures AllCarried(Handle(s, e), events)
  {
    hide Carried;
    var acc, k, t := Current(s), |events| - 1, s.(run := s.run.(pushed := true));
    assert Carried(acc.text, acc.runs, events);
    match e
    case Text(before, start, pieces, _) =>
      PushedRun(acc, Decoded(pieces), start, ContentEnd(start, pieces), s.run, before, events, k);
      CurrentCarried(t, PushRun(acc, Decoded(pieces), start, ContentEnd(start, pieces), s.run, before), events);
    case EmptyText(before, after) =>
      PushedRun(acc, "", after, after, s.run, before, events, k);
      CurrentCarried(t, PushRun(acc, "", after, after, s.run, before), events);
  }

  lemma {:induction false} StepCarries(s: State, events: seq<Event>, e: Event)
    requires AllCarried(s, events)
    ensures AllCarried(Step(s, e), events + [e])
  {
    var all := events + [e];
    StreamGrows(s, events, e);
    hide AllCarried;
    match e
    case Open(name, before, _) => OpenCarries(s, name, before, all);
    case Empty(name, isNone, before, after) => EmptyCarries(s, name, isNone, before, after, all);
    case Close(name, before, after) => CloseCarries(s, name, before, after, all);
    case Text(_, _, _, _) => TextCarries(s, e, all);
    case EmptyText(_, _) => TextCarries(s, e, all);
    case Other(_, _) =>
    FallbackAlone(s, all);
  }

  lemma {:induction false} FallbackAlone(s: State, events: seq<Event>)
    ensures forall d: nat :: AllCarried(s, events) ==> AllCarried(s.(fallback := d), events)
  {
  }

  lemma {:induction false} StreamGrows(s: State, events: seq<Event>, e: Event)
    requires AllCarried(s, events)
    ensures AllCarried(s, events + [e])
  {
    hide Carried;
    LongerStream(s.body.text, s.body.runs, events, e);
    forall i | 0 <= i < |s.stack| ensures Carried(s.stack[i].text, s.stack[i].runs, events + [e]) {
      LongerStream(s.stack[i].text, s.stack[i].runs, events, e);
    }
    forall i | 0 <= i < |s.cells| ensures Carried(s.cells[i].text, s.cells[i].runs, events + [e]) {
      LongerStream(s.cells[i].text, s.cells[i].runs, events, e);
    }
  }

  lemma {:induction false} FoldCarries(events: seq<Event>)
    ensures AllCarried(Fold(Initial, events), events)
    decreases |events|
  {
    if events != [] {
      var n := |events| - 1;
      FoldCarries(events[..n]);
      StepCarries(Fold(Initial, events[..n]), events[..n], events[n]);
      assert events == events[..n] + [events[n]];
      hide Step; hide AllCarried;
    }
  }

  /** In every region each run's stretch of the text is exactly what its text element holds. */
  lemma {:induction false} RunsStandForTheirText(events: seq<Event>)
    ensures forall r :: 0 <= r < |Regions(Flatten(events))| ==>
              Carried(Regions(Flatten(events))[r].text, Regions(Flatten(events))[r].runs, events)
  {
    FoldCarries(events);
    hide Carried; hide Fold;
  }
}
