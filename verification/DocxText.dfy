/** What each region of a flattened document reads, event by event: which events belong to
  * it, what each of them writes, and what is known of each run, tab and insertion point.
  * Everything is said in terms of the stream, without the reader's state.
  */
module DocxText {
  import opened Options
  import opened DocxFlatten
  import opened DocxCells
  import opened DocxRuns

  // ---------------------------------------------------------------- looking back in the stream

  /** The last index before `n` at which `p` holds. */
  function Last(p: nat -> bool, n: nat): (r: Option<nat>)
    ensures r.Some? ==> r.value < n && p(r.value) && forall k :: r.value < k < n ==> !p(k)
    ensures r.None? ==> forall k :: 0 <= k < n ==> !p(k)
  {
    if n == 0 then None else if p(n - 1) then Some(n - 1) else Last(p, n - 1)
  }

  /** The first index from `from` up to `n` at which `p` holds. */
  function First(p: nat -> bool, from: nat, n: nat): (r: Option<nat>)
    ensures r.Some? ==> from <= r.value < n && p(r.value) && forall k :: from <= k < r.value ==> !p(k)
    ensures r.None? ==> forall k :: from <= k < n ==> !p(k)
  {
    if n <= from then None
    else
      var earlier := First(p, from, n - 1);
      if earlier.Some? then earlier else if p(n - 1) then Some(n - 1) else None
  }

  /** The event numbered `k` is outside fallback content. */
  predicate Live(events: seq<Event>, k: nat) { k < |events| && FallbackDepth(events[..k]) == 0 }

  /** ... and directly in a cell at depth `d`, or in the body if that is 0. */
  predicate LiveAt(events: seq<Event>, k: nat, d: nat) { Live(events, k) && CellDepth(events[..k]) == d }

  predicate Opens(events: seq<Event>, k: nat, name: Name) {
    Live(events, k) && events[k].Open? && events[k].name == name
  }

  predicate Closes(events: seq<Event>, k: nat, name: Name) {
    Live(events, k) && events[k].Close? && events[k].name == name
  }

  predicate Empties(events: seq<Event>, k: nat, name: Name) {
    Live(events, k) && events[k].Empty? && events[k].name == name
  }

  predicate IsTextAt(events: seq<Event>, k: nat) { Live(events, k) && (events[k].Text? || events[k].EmptyText?) }

  function OpensOrCloses(events: seq<Event>, name: Name): nat -> bool {
    (k: nat) => Opens(events, k, name) || Closes(events, k, name)
  }

  /** The stream is inside an element of that name before the event numbered `n`. */
  predicate Inside(events: seq<Event>, name: Name, n: nat) {
    var o := Last(OpensOrCloses(events, name), n);
    o.Some? && events[o.value].Open?
  }

  /** An underline property, or the start of a run, which has none yet. */
  function UnderlineMark(events: seq<Event>): nat -> bool {
    (k: nat) => Opens(events, k, R) || (Empties(events, k, U) && Inside(events, RPr, k))
  }

  predicate Underlined(events: seq<Event>, n: nat) {
    var o := Last(UnderlineMark(events), n);
    o.Some? && events[o.value].Empty? && !events[o.value].isNone
  }

  function OpensOf(events: seq<Event>, name: Name): nat -> bool { (k: nat) => Opens(events, k, name) }

  /** Where the last element of that name opened. */
  function OpenedAt(events: seq<Event>, name: Name, n: nat): nat {
    var o := Last(OpensOf(events, name), n);
    if o.Some? then events[o.value].before else 0
  }

  /** The end of run properties, or the start of a run, which has none yet. */
  function PropsMark(events: seq<Event>): nat -> bool {
    (k: nat) => Opens(events, k, R) || Empties(events, k, RPr) || Closes(events, k, RPr)
  }

  /** Where the properties of the current run stand. */
  function PropsRange(events: seq<Event>, n: nat): Option<(nat, nat)> {
    var o := Last(PropsMark(events), n);
    if o.None? then None
    else
      match events[o.value]
      case Empty(_, _, before, after) => Some((before, after))
      case Close(_, _, after) => Some((OpenedAt(events, RPr, o.value), after))
      case _ => None
  }

  function TextOrRun(events: seq<Event>): nat -> bool { (k: nat) => Opens(events, k, R) || IsTextAt(events, k) }

  /** The current run has had a text element. */
  predicate HasText(events: seq<Event>, n: nat) {
    var o := Last(TextOrRun(events), n);
    o.Some? && IsTextAt(events, o.value)
  }

  /** How deep in paragraphs the stream is. */
  function ParagraphDepth(events: seq<Event>, n: nat): nat {
    if n == 0 then 0
    else
      var d := ParagraphDepth(events, n - 1);
      if Opens(events, n - 1, P) then d + 1 else if Closes(events, n - 1, P) && d > 0 then d - 1 else d
  }

  // ---------------------------------------------------------------- a region

  /** A region: the events directly at `depth` from `from` up to `to`. */
  datatype Span = Span(from: nat, to: nat, depth: nat)

  function ParagraphAt(events: seq<Event>, d: nat): nat -> bool {
    (k: nat) => LiveAt(events, k, d) && Opens(events, k, P)
  }

  function FirstParagraph(events: seq<Event>, r: Span): Option<nat> {
    First(ParagraphAt(events, r.depth), r.from, r.to)
  }

  /** A tab character, and not the definition of a tab stop. */
  predicate WritesTab(events: seq<Event>, k: nat) { Empties(events, k, Tab) && !Inside(events, Tabs, k) }

  /** What the event numbered `k` writes into the region: a newline between paragraphs and
    * after a text box, a tab outside tab stops, and the text of a text element.
    */
  function Writes(events: seq<Event>, r: Span, k: nat): string {
    if !LiveAt(events, k, r.depth) then ""
    else
      match events[k]
      case Open(name, _, _) => if name.P? && FirstParagraph(events, r.(to := k)).Some? then "\n" else ""
      case Empty(_, _, _, _) => if WritesTab(events, k) then "\t" else ""
      case Close(name, _, _) => if name.TxbxContent? then "\n" else ""
      case Text(_, _, pieces, _) => Decoded(pieces)
      case _ => ""
  }

  /** What the region's events write, one after the other. */
  function Reads(events: seq<Event>, r: Span): string
    decreases r.to
  {
    if r.to <= r.from then "" else Reads(events, r.(to := r.to - 1)) + Writes(events, r, r.to - 1)
  }

  /** The region's text elements. */
  function Texts(events: seq<Event>, r: Span): seq<nat>
    decreases r.to
  {
    if r.to <= r.from then []
    else
      var k := r.to - 1;
      Texts(events, r.(to := k)) + if LiveAt(events, k, r.depth) && IsTextAt(events, k) then [k] else []
  }

  /** Where the region's underlined tabs stand in its text. */
  function UnderlinedTabs(events: seq<Event>, r: Span): seq<nat>
    decreases r.to
  {
    if r.to <= r.from then []
    else
      var k := r.to - 1;
      UnderlinedTabs(events, r.(to := k)) +
      if LiveAt(events, k, r.depth) && WritesTab(events, k) && Underlined(events, k)
      then [|Reads(events, r.(to := k))|] else []
  }

  /** Where the content of a text element ends. */
  function ContentEndOf(e: Event): nat {
    match e
    case Text(_, start, pieces, _) => ContentEnd(start, pieces)
    case _ => e.after
  }

  function ContentStartOf(e: Event): nat { if e.Text? then e.contentStart else e.after }

  /** The end of the run element of the text element `k`, as far as it is closed before `r.to`
    * with no other text element after `k`; otherwise the end of its content.
    */
  function RunEnd(events: seq<Event>, r: Span, k: nat): nat
    requires k < |events|
    decreases r.to
  {
    if r.to <= k + 1 then ContentEndOf(events[k])
    else
      var c := r.to - 1;
      if LiveAt(events, c, r.depth) && Closes(events, c, R) && HasText(events, c)
         && Texts(events, Span(k + 1, c, r.depth)) == []
      then events[c].after else RunEnd(events, r.(to := c), k)
  }

  /** The run stands for the text element `k`, and says where and how that stands. */
  predicate RunIs(run: RunSpan, events: seq<Event>, r: Span, k: nat)
    requires k < |events|
  {
    var start := |Reads(events, r.(to := k))|;
    run == RunSpan(start, start + |ContentOf(events[k])|, ContentStartOf(events[k]), ContentEndOf(events[k]),
                   Underlined(events, k), OpenedAt(events, R, k), RunEnd(events, r, k), events[k].before,
                   PropsRange(events, k))
  }

  /** There is one run per text element, in order. */
  predicate RunsAre(runs: seq<RunSpan>, events: seq<Event>, r: Span) {
    var texts := Texts(events, r);
    |runs| == |texts| &&
    forall i :: 0 <= i < |runs| ==> texts[i] < |events| && RunIs(runs[i], events, r, texts[i])
  }

  /** A self-closing paragraph before any other of the region. */
  function LoneEmpty(events: seq<Event>, from: nat, d: nat): nat -> bool {
    (k: nat) => LiveAt(events, k, d) && Empties(events, k, P) && FirstParagraph(events, Span(from, k, d)).None?
  }

  /** The paragraph `f` closes. */
  function ClosesParagraph(events: seq<Event>, d: nat, f: nat): nat -> bool {
    (k: nat) => LiveAt(events, k, d) && Closes(events, k, P)
        && ParagraphDepth(events, k) == ParagraphDepth(events, f + 1)
  }

  /** Where the region's first paragraph closes. */
  function FirstClosed(events: seq<Event>, r: Span): Option<nat> {
    var f := FirstParagraph(events, r);
    if f.None? then None else First(ClosesParagraph(events, r.depth, f.value), f.value + 1, r.to)
  }

  /** Where text could be put into a cell: in place of a self-closing first paragraph, or at the
    * end of a first paragraph without text.
    */
  function InsertionPoint(events: seq<Event>, r: Span): Option<EmptyParagraph> {
    if r.depth == 0 then None
    else
      var lone, closed := First(LoneEmpty(events, r.from, r.depth), r.from, r.to), FirstClosed(events, r);
      if lone.Some? then Some(EmptyParagraph(events[lone.value].before, events[lone.value].after, true))
      else if closed.Some? && Texts(events, r.(to := closed.value)) == []
      then Some(EmptyParagraph(events[closed.value].before, events[closed.value].before, false)) else None
  }

  predicate RegionIs(flat: FlatText, events: seq<Event>, r: Span) {
    && flat.text == Reads(events, r)
    && RunsAre(flat.runs, events, r)
    && flat.underlinedTabs == UnderlinedTabs(events, r)
    && flat.emptyParagraph == if Texts(events, r) == [] then InsertionPoint(events, r) else None
  }

  // ---------------------------------------------------------------- the cells

  /** Where the innermost cell at depth `d` that is open before `n` starts; the body starts at 0. */
  function StartOf(events: seq<Event>, d: nat, n: nat): (from: nat)
    ensures from <= n
  {
    if n == 0 || d == 0 then 0
    else if Opens(events, n - 1, Tc) && CellDepth(events[..n - 1]) == d - 1 then n
    else StartOf(events, d, n - 1)
  }

  predicate ClosesCell(events: seq<Event>, k: nat) { Closes(events, k, Tc) && CellDepth(events[..k]) > 0 }

  /** The cells closed before `n`, in the order of their closing. */
  function ClosedCells(events: seq<Event>, n: nat): seq<Span>
    requires n <= |events|
  {
    if n == 0 then []
    else
      var d := CellDepth(events[..n - 1]);
      ClosedCells(events, n - 1) +
      if ClosesCell(events, n - 1) then [Span(StartOf(events, d, n - 1), n - 1, d)] else []
  }
}
