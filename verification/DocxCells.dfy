/** Which text elements a flattened document holds: all but those in a table cell that
  * is never closed, because the stream ends, or breaks off, inside it.
  */
module DocxCells {
  import opened DocxFlatten

  // ---------------------------------------------------------------- nesting of cells

  function NextDepth(d: nat, e: Event): nat {
    if e.Open? && e.name.Tc? then d + 1 else if e.Close? && e.name.Tc? && d > 0 then d - 1 else d
  }

  /** How deep in table cells the events leave the reader. */
  function CellDepth(events: seq<Event>): nat {
    if events == [] then 0
    else
      var rest := events[..|events| - 1];
      if FallbackDepth(rest) > 0 then CellDepth(rest) else NextDepth(CellDepth(rest), events[|events| - 1])
  }

  /** The event numbered `k` is the text element `m`, outside fallback content. */
  predicate TextAt(events: seq<Event>, k: nat, m: Mark)
    requires k < |events|
  {
    FallbackDepth(events[..k]) == 0 && IsText(events[k], m)
  }

  /** The event numbered `k` lies in a cell, and from then on the stream never leaves it. */
  predicate InOpenCell(events: seq<Event>, k: nat)
    requires k < |events|
  {
    CellDepth(events[..k]) > 0 && forall n :: k <= n <= |events| ==> CellDepth(events[..n]) >= CellDepth(events[..k])
  }

  /** How many of the first `n` events are the text element `m` and lie in a closed cell or in none. */
  function KeptTexts(events: seq<Event>, m: Mark, n: nat): nat
    requires n <= |events|
  {
    if n == 0 then 0 else KeptTexts(events, m, n - 1) + One(TextAt(events, n - 1, m) && !InOpenCell(events, n - 1))
  }

  // ---------------------------------------------------------------- texts in open cells

  /** The event is the text element `m` in the open cell at depth `d`. */
  predicate Stuck(events: seq<Event>, k: nat, m: Mark, d: nat)
    requires k < |events|
  {
    TextAt(events, k, m) && InOpenCell(events, k) && CellDepth(events[..k]) == d
  }

  function StuckTexts(events: seq<Event>, m: Mark, d: nat, n: nat): nat
    requires n <= |events|
  {
    if n == 0 then 0 else StuckTexts(events, m, d, n - 1) + One(Stuck(events, n - 1, m, d))
  }

  lemma {:induction false} Prefixes(events: seq<Event>, e: Event, n: nat)
    requires n <= |events|
    ensures (events + [e])[..n] == events[..n]
  {
  }

  lemma {:induction false} OpenCellSnoc(events: seq<Event>, e: Event, k: nat)
    requires k < |events|
    ensures InOpenCell(events + [e], k) <==> InOpenCell(events, k) && CellDepth(events + [e]) >= CellDepth(events[..k])
  {
    var more := events + [e];
    forall n | 0 <= n <= |events| ensures more[..n] == events[..n] { Prefixes(events, e, n); }
    assert more[..|more|] == more;
    hide CellDepth;
    if InOpenCell(events, k) && CellDepth(more) >= CellDepth(events[..k]) {
      forall n | k <= n <= |more| ensures CellDepth(more[..n]) >= CellDepth(more[..k]) {
        if n <= |events| { assert more[..n] == events[..n]; }
      }
    }
    if InOpenCell(more, k) {
      forall n | k <= n <= |events|
        ensures CellDepth(events[..n]) >= CellDepth(events[..k])
      {
        assert more[..n] == events[..n];
      }
    }
  }

  lemma {:induction false} NewestOpenCell(events: seq<Event>, e: Event)
    ensures InOpenCell(events + [e], |events|) <==>
            CellDepth(events) > 0 && CellDepth(events + [e]) >= CellDepth(events)
  {
    var more := events + [e];
    Prefixes(events, e, |events|);
    assert more[..|more|] == more && events[..|events|] == events;
    hide CellDepth;
    forall n | |events| <= n <= |more| ensures n == |events| || more[..n] == more {}
  }

  /** One more event keeps the texts stuck at the depths still open. */
  lemma {:induction false} StuckSnoc(events: seq<Event>, e: Event, m: Mark, d: nat, n: nat)
    requires n <= |events| && 0 < d <= CellDepth(events + [e])
    ensures StuckTexts(events + [e], m, d, n) == StuckTexts(events, m, d, n)
  {
    hide CellDepth; hide InOpenCell; hide IsText;
    if n > 0 {
      StuckSnoc(events, e, m, d, n - 1);
      OpenCellSnoc(events, e, n - 1);
      Prefixes(events, e, n - 1);
    }
  }

  lemma {:induction false} NothingStuckYet(events: seq<Event>, m: Mark, d: nat, n: nat)
    requires n <= |events| && d > CellDepth(events)
    ensures StuckTexts(events, m, d, n) == 0
  {
    if n > 0 {
      NothingStuckYet(events, m, d, n - 1);
      assert events[..|events|] == events;
    }
  }

  // ---------------------------------------------------------------- the stack of open cells

  predicate Handled(s: State, e: Event) { s.fallback == 0 && !OpensFallback(e) && !ClosesFallback(e) }

  /** What a handled event other than opening and closing a cell does to the open cells. */
  lemma {:induction false} StackKept(s: State, e: Event, m: Mark)
    requires !(e.Open? && e.name.Tc?) && !(e.Close? && e.name.Tc?)
    ensures var s' := Handle(s, e);
            && |s'.stack| == |s.stack|
            && forall j :: 0 <= j < |s.stack| ==>
                 RunCount(s'.stack[j].runs, m) == RunCount(s.stack[j].runs, m) + One(IsText(e, m) && j == |s.stack| - 1)
  {
    hide RunCount;
    var s', acc := Handle(s, e), Current(s);
    match e
    case Open(_, _, _) =>
    case Empty(_, _, _, _) =>
    case Close(name, before, after) => CloseKeepsStack(s, e, m);
    case Text(before, start, pieces, _) =>
        PushKeepsStack(s, Decoded(pieces), start, ContentEnd(start, pieces), before, m);
    case EmptyText(before, after) => PushKeepsStack(s, "", after, after, before, m);
    case Other(_, _) =>
  }

  lemma {:induction false} CloseKeepsStack(s: State, e: Event, m: Mark)
    requires e.Close? && !e.name.Tc?
    ensures var s' := Handle(s, e);
            |s'.stack| == |s.stack|
                && forall j :: 0 <= j < |s.stack| ==> RunCount(s'.stack[j].runs, m) == RunCount(s.stack[j].runs, m)
  {
    hide RunCount;
    var acc := Current(s);
    if e.name.R? && acc.runs != [] { CloseRunCount(acc.runs, e.after, m); }
  }

  lemma {:induction false} PushKeepsStack(s: State, decoded: string, start: nat, end: nat, open: nat, m: Mark)
    ensures var s' :=
            WithCurrent(s.(run := s.run.(pushed := true)), PushRun(Current(s), decoded, start, end, s.run, open));
            && |s'.stack| == |s.stack|
            && forall j :: 0 <= j < |s.stack| ==>
                 RunCount(s'.stack[j].runs, m) ==
                     RunCount(s.stack[j].runs, m) + One(m == Mark(open, start, end) && j == |s.stack| - 1)
  {
    hide RunCount;
    var acc := PushRun(Current(s), decoded, start, end, s.run, open);
    PushCount(Current(s).runs, acc.runs[|Current(s).runs|], m);
  }

  lemma {:induction false} StepStack(s: State, e: Event, m: Mark)
    ensures var s' := Step(s, e);
            && |s'.stack| == (if s.fallback > 0 then |s.stack| else NextDepth(|s.stack|, e))
            && (forall j :: 0 <= j < |s.stack| && j < |s'.stack| ==>
                  RunCount(s'.stack[j].runs, m) ==
                      RunCount(s.stack[j].runs, m) + One(s.fallback == 0 && IsText(e, m) && j == |s.stack| - 1))
            && (|s'.stack| > |s.stack| ==> RunCount(s'.stack[|s.stack|].runs, m) == 0)
  {
    if Handled(s, e) && !(e.Open? && e.name.Tc?) && !(e.Close? && e.name.Tc?) { StackKept(s, e, m); }
  }

  /** The open cells hold exactly the texts stuck at their depths. */
  lemma {:induction false} OpenCellsHoldStuck(events: seq<Event>, m: Mark)
    ensures var s := Fold(Initial, events);
            && s.fallback == FallbackDepth(events) && |s.stack| == CellDepth(events)
            && forall j :: 0 <= j < |s.stack| ==> RunCount(s.stack[j].runs, m) == StuckTexts(events, m, j + 1, |events|)
    decreases |events|
  {
    hide Step; hide RunCount; hide StuckTexts; hide CellDepth;
    FallbackIgnored(events);
    if events == [] {
      NoDepth();
    } else {
      var n := |events| - 1;
      OpenCellsHoldStuck(events[..n], m);
      assert events == events[..n] + [events[n]];
      StepHoldsStuck(Fold(Initial, events[..n]), events[..n], events[n], m);
    }
  }

  lemma {:induction false} NoDepth()
    ensures CellDepth([]) == 0
  {
  }

  lemma {:induction false} StepHoldsStuck(s: State, rest: seq<Event>, e: Event, m: Mark)
    requires s.fallback == FallbackDepth(rest) && |s.stack| == CellDepth(rest)
    requires forall j :: 0 <= j < |s.stack| ==> RunCount(s.stack[j].runs, m) == StuckTexts(rest, m, j + 1, |rest|)
    ensures var s' := Step(s, e);
            && |s'.stack| == CellDepth(rest + [e])
            && forall j :: 0 <= j < |s'.stack| ==>
               RunCount(s'.stack[j].runs, m) == StuckTexts(rest + [e], m, j + 1, |rest| + 1)
  {
    var s' := Step(s, e);
    StepStack(s, e, m);
    Prefixes(rest, e, |rest|);
    assert rest[..|rest|] == rest;
    hide Step; hide RunCount; hide StuckTexts;
    forall j | 0 <= j < |s'.stack|
      ensures RunCount(s'.stack[j].runs, m) == StuckTexts(rest + [e], m, j + 1, |rest| + 1)
    {
      OneMoreStuck(rest, e, m, j + 1);
      if j == |s.stack| { NothingStuckYet(rest, m, j + 1, |rest|); }
    }
  }

  lemma {:induction false} OneMoreStuck(rest: seq<Event>, e: Event, m: Mark, d: nat)
    requires 0 < d <= CellDepth(rest + [e])
    ensures StuckTexts(rest + [e], m, d, |rest| + 1) ==
            StuckTexts(rest, m, d, |rest|) + One(FallbackDepth(rest) == 0 && IsText(e, m) && d == CellDepth(rest))
  {
    StuckSnoc(rest, e, m, d, |rest|);
    NewestOpenCell(rest, e);
    Prefixes(rest, e, |rest|);
    assert rest[..|rest|] == rest;
    hide CellDepth; hide InOpenCell;
  }

  // ---------------------------------------------------------------- the count

  /** How many of the first `n` events are stuck at a depth up to `d`. */
  function StuckUpTo(events: seq<Event>, m: Mark, d: nat, n: nat): nat
    requires n <= |events|
  {
    if d == 0 then 0 else StuckUpTo(events, m, d - 1, n) + StuckTexts(events, m, d, n)
  }

  lemma {:induction false} StuckOnce(events: seq<Event>, m: Mark, d: nat, n: nat)
    requires 0 < n <= |events|
    ensures StuckUpTo(events, m, d, n) == StuckUpTo(events, m, d, n - 1)
            + One(TextAt(events, n - 1, m) && InOpenCell(events, n - 1) && CellDepth(events[..n - 1]) <= d)
  {
    hide CellDepth;
    if d > 0 { StuckOnce(events, m, d - 1, n); }
  }

  /** Every text is kept or stuck. */
  lemma {:induction false} KeptOrStuck(events: seq<Event>, m: Mark, n: nat)
    requires n <= |events|
    ensures KeptTexts(events, m, n) + StuckUpTo(events, m, CellDepth(events), n) == TextCount(events[..n], m)
  {
    if n == 0 {
      NothingStuck(events, m, CellDepth(events));
    } else {
      KeptOrStuck(events, m, n - 1);
      StuckOnce(events, m, CellDepth(events), n);
      assert events[..n][..n - 1] == events[..n - 1] && events[..|events|] == events;
      hide CellDepth;
      if InOpenCell(events, n - 1) { assert CellDepth(events[..|events|]) >= CellDepth(events[..n - 1]); }
    }
  }

  lemma {:induction false} NothingStuck(events: seq<Event>, m: Mark, d: nat)
    ensures StuckUpTo(events, m, d, 0) == 0
  {
    if d > 0 { NothingStuck(events, m, d - 1); }
  }

  lemma {:induction false} OpenCountIs(events: seq<Event>, m: Mark, stack: seq<Accumulator>)
    requires forall j :: 0 <= j < |stack| ==> RunCount(stack[j].runs, m) == StuckTexts(events, m, j + 1, |events|)
    ensures OpenCount(stack, m) == StuckUpTo(events, m, |stack|, |events|)
    decreases |stack|
  {
    hide RunCount; hide StuckTexts;
    if stack != [] { OpenCountIs(events, m, stack[..|stack| - 1]); }
  }

  lemma {:induction false} AllRegionsCount(body: FlatText, cells: seq<FlatText>, m: Mark)
    ensures CellCount([body] + cells, m) == RunCount(body.runs, m) + CellCount(cells, m)
    decreases |cells|
  {
    var all := [body] + cells;
    if cells == [] {
      assert all[..0] == [];
    } else {
      AllRegionsCount(body, cells[..|cells| - 1], m);
      assert all[..|all| - 1] == [body] + cells[..|cells| - 1];
    }
  }

  /** In the regions of a flattened document a text element occurs as often as it occurs in
    * the stream outside fallback content and outside cells that are never closed.
    */
  lemma {:induction false} EveryTextInOneRegion(events: seq<Event>, m: Mark)
    ensures CellCount(Regions(Flatten(events)), m) == KeptTexts(events, m, |events|)
  {
    var s := Fold(Initial, events);
    EveryTextCounted(events, m);
    OpenCellsHoldStuck(events, m);
    OpenCountIs(events, m, s.stack);
    KeptOrStuck(events, m, |events|);
    assert events[..|events|] == events;
    AllRegionsCount(Finish(s.body), s.cells, m);
  }

  /** A cell the stream never closes: its text is in no region. */
  lemma {:induction false} OpenCellLosesText()
    ensures var events := [Open(Tc, 0, 6), Text(6, 11, [Piece("a", 12)], 18)];
            && InOrder(events) && TextAt(events, 1, Mark(6, 11, 12)) && InOpenCell(events, 1)
            && forall r :: 0 <= r < |Regions(Flatten(events))| ==> Regions(Flatten(events))[r].runs == []
  {
    var open, text := Open(Tc, 0, 6), Text(6, 11, [Piece("a", 12)], 18);
    var events := [open, text];
    assert events[..1] == [open] && [open][..0] == [] && events[..0] == [] && events[..2] == events;
    assert FallbackDepth([open]) == 0 && CellDepth([open]) == 1 && CellDepth(events) == 1;
    var s := Step(Initial, open);
    assert Fold(Initial, [open]) == s && Fold(Initial, events) == Step(s, text);
  }
}
