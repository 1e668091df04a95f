/** What merging join files does, cell by cell: nothing but blanks changes, and a
  * blank takes the first thing any file offers for it.
  */
module JoinMeaning {
  import opened Options
  import opened Csv
  import opened Joining
  import Text

  // ---------------------------------------------------------------- headers

  ghost predicate DistinctHeaders(headers: seq<string>, normalize: Naming) {
    forall i, j :: 0 <= i < j < |headers| ==> normalize(headers[i]) != normalize(headers[j])
  }

  ghost predicate Rectangular(doc: Document) { forall r :: 0 <= r < |doc.rows| ==> |doc.rows[r]| == |doc.headers| }

  ghost predicate Good(doc: Document, normalize: Naming) { Rectangular(doc) && DistinctHeaders(doc.headers, normalize) }

  lemma {:induction false} IndexOf(headers: seq<string>, h: string, c: nat, normalize: Naming)
    requires DistinctHeaders(headers, normalize) && c < |headers| && normalize(headers[c]) == normalize(h)
    ensures HeaderIndex(headers, h, normalize) == Some(c)
  {
  }

  lemma {:induction false} SameName(headers: seq<string>, g: string, h: string, normalize: Naming)
    requires normalize(g) == normalize(h)
    ensures HeaderIndex(headers, g, normalize) == HeaderIndex(headers, h, normalize)
  {
    var i, j := HeaderIndex(headers, g, normalize), HeaderIndex(headers, h, normalize);
    hide HeaderIndex;
    if i.Some? && j.Some? { assert !(i.value < j.value) && !(j.value < i.value); }
  }

  /** The cell of row `r` in the column called `h`; blank if there is none. */
  function Value(doc: Document, r: nat, h: string, normalize: Naming): string
    requires r < |doc.rows|
  {
    var c := HeaderIndex(doc.headers, h, normalize);
    if c.Some? then Cell(doc.rows[r], c.value) else ""
  }

  // ---------------------------------------------------------------- added columns

  /** `wide` is `doc` with blank columns after its own. */
  ghost predicate Widened(doc: Document, wide: Document, normalize: Naming) {
    && Good(wide, normalize) && doc.headers <= wide.headers && |wide.rows| == |doc.rows|
    && forall r, c :: 0 <= r < |doc.rows| && 0 <= c < |wide.headers| ==> wide.rows[r][c] == Cell(doc.rows[r], c)
  }

  lemma {:induction false} WidenOne(doc: Document, header: string, normalize: Naming)
    requires Good(doc, normalize)
    ensures Widened(doc, WithColumn(doc, header, normalize), normalize)
    ensures HeaderIndex(WithColumn(doc, header, normalize).headers, header, normalize).Some?
  {
    var wide := WithColumn(doc, header, normalize);
    if HeaderIndex(doc.headers, header, normalize).None? {
      IndexOf(wide.headers, header, |doc.headers|, normalize);
    }
  }

  lemma {:induction false} StillThere(headers: seq<string>, wide: seq<string>, h: string, normalize: Naming)
    requires headers <= wide && HeaderIndex(headers, h, normalize).Some?
    ensures HeaderIndex(wide, h, normalize) == HeaderIndex(headers, h, normalize)
  {
    var c := HeaderIndex(headers, h, normalize).value;
    var d := HeaderIndex(wide, h, normalize);
    hide HeaderIndex;
    assert wide[c] == headers[c];
    assert d.Some? && d.value <= c;
    assert wide[d.value] == headers[d.value];
  }

  lemma {:induction false} WidenAll(doc: Document, headers: seq<string>, extras: seq<nat>, normalize: Naming)
    requires Good(doc, normalize) && forall k :: 0 <= k < |extras| ==> extras[k] < |headers|
    ensures Widened(doc, WithColumns(doc, headers, extras, normalize), normalize)
    ensures forall k :: 0 <= k < |extras| ==>
            HeaderIndex(WithColumns(doc, headers, extras, normalize).headers, headers[extras[k]], normalize).Some?
    decreases |extras|
  {
    hide HeaderIndex; hide WithColumn; hide Good;
    if extras == [] {
      WidenedSelf(doc, normalize);
    } else {
      var n := |extras| - 1;
      var before, after :=
          WithColumns(doc, headers, extras[..n], normalize), WithColumns(doc, headers, extras, normalize);
      WidenAll(doc, headers, extras[..n], normalize);
      WidenOne(before, headers[extras[n]], normalize);
      WidenedTwice(doc, before, after, normalize);
      forall k | 0 <= k < n ensures HeaderIndex(after.headers, headers[extras[k]], normalize).Some? {
        assert extras[..n][k] == extras[k];
        StillThere(before.headers, after.headers, headers[extras[k]], normalize);
      }
    }
  }

  lemma {:induction false} WidenedSelf(doc: Document, normalize: Naming)
    requires Good(doc, normalize)
    ensures Widened(doc, doc, normalize)
  {
  }

  lemma {:induction false} NoNewColumns(doc: Document, headers: seq<string>, extras: seq<nat>, normalize: Naming)
    requires forall k :: 0 <= k < |extras| ==> extras[k] < |headers|
    requires forall k :: 0 <= k < |extras| ==> HeaderIndex(doc.headers, headers[extras[k]], normalize).Some?
    ensures WithColumns(doc, headers, extras, normalize) == doc
    decreases |extras|
  {
    hide HeaderIndex;
    if extras != [] {
      var n := |extras| - 1;
      assert forall k :: 0 <= k < n ==> extras[..n][k] == extras[k];
      NoNewColumns(doc, headers, extras[..n], normalize);
    }
  }

  lemma {:induction false} WidenedTwice(a: Document, b: Document, c: Document, normalize: Naming)
    requires Good(a, normalize) && Widened(a, b, normalize) && Widened(b, c, normalize)
    ensures Widened(a, c, normalize)
  {
    forall r, k | 0 <= r < |a.rows| && 0 <= k < |c.headers| ensures c.rows[r][k] == Cell(a.rows[r], k) {
      assert c.rows[r][k] == Cell(b.rows[r], k);
    }
  }

  // ---------------------------------------------------------------- one row

  /** What a join file offers for column `h` of the rows with `key`: the trimmed value on its first such row. */
  function Offer(join: Document, key: Key, h: string, normalize: Naming, lower: Lowering): string {
    var jUnit, jName := HeaderIndex(join.headers, UNIT, normalize), HeaderIndex(join.headers, NAME, normalize);
    var src := HeaderIndex(join.headers, h, normalize);
    if jUnit.None? || jName.None? || src.None? || src == jUnit || src == jName then ""
    else
      var source := FirstMatch(join.rows, jUnit.value, jName.value, key, lower);
      if source.None? then "" else Text.Trim(Cell(source.value, src.value))
  }

  ghost predicate Targets(wide: seq<string>, headers: seq<string>, extras: seq<nat>, c: nat, k: nat, normalize: Naming)
    requires forall k :: 0 <= k < |extras| ==> extras[k] < |headers|
    requires k < |extras|
  {
    HeaderIndex(wide, headers[extras[k]], normalize) == Some(c)
  }

  lemma {:induction false} FilledStep(row: Row, source: Row, headers: seq<string>, wide: seq<string>, extras: seq<nat>,
                                      c: nat, normalize: Naming)
    requires extras != [] && forall k :: 0 <= k < |extras| ==> extras[k] < |headers|
    requires |Filled(row, source, headers, wide, extras[..|extras| - 1], normalize)| == |wide| && c < |wide|
    ensures var n := |extras| - 1;
            var before, after :=
                Filled(row, source, headers, wide, extras[..n], normalize),
                    Filled(row, source, headers, wide, extras, normalize);
            && |after| == |wide|
            && after[c] ==
               if Targets(wide, headers, extras, c, n, normalize)
                   then Fill(before[c], Text.Trim(Cell(source, extras[n]))) else before[c]
  {
    hide HeaderIndex; hide Text.Trim;
  }

  lemma {:induction false} Untargeted(row: Row, source: Row, headers: seq<string>, wide: seq<string>, extras: seq<nat>,
                                      c: nat, normalize: Naming)
    requires |row| == |wide| && c < |wide| && forall k :: 0 <= k < |extras| ==> extras[k] < |headers|
    requires forall k :: 0 <= k < |extras| ==> !Targets(wide, headers, extras, c, k, normalize)
    ensures var filled := Filled(row, source, headers, wide, extras, normalize);
            |filled| == |row| && filled[c] == row[c]
    decreases |extras|
  {
    if extras != [] {
      var n := |extras| - 1;
      hide HeaderIndex; hide Filled;
      forall k | 0 <= k < n ensures !Targets(wide, headers, extras[..n], c, k, normalize) {
        assert !Targets(wide, headers, extras, c, k, normalize);
      }
      hide Targets;
      Untargeted(row, source, headers, wide, extras[..n], c, normalize);
      FilledStep(row, source, headers, wide, extras, c, normalize);
    }
  }

  lemma {:induction false} Targeted(row: Row, source: Row, headers: seq<string>, wide: seq<string>, extras: seq<nat>,
                                    c: nat, k: nat, normalize: Naming)
    requires |row| == |wide| && c < |wide| && k < |extras| && forall k :: 0 <= k < |extras| ==> extras[k] < |headers|
    requires Targets(wide, headers, extras, c, k, normalize)
    requires forall j :: 0 <= j < |extras| && j != k ==> !Targets(wide, headers, extras, c, j, normalize)
    ensures var filled := Filled(row, source, headers, wide, extras, normalize);
            |filled| == |row| && filled[c] == Fill(row[c], Text.Trim(Cell(source, extras[k])))
    decreases |extras|
  {
    var n := |extras| - 1;
    hide HeaderIndex; hide Filled;
    forall j | 0 <= j < n
      ensures Targets(wide, headers, extras[..n], c, j, normalize) <==> Targets(wide, headers, extras, c, j, normalize)
    {}
    hide Targets;
    if k == n {
      Untargeted(row, source, headers, wide, extras[..n], c, normalize);
    } else {
      Targeted(row, source, headers, wide, extras[..n], c, k, normalize);
    }
    FilledStep(row, source, headers, wide, extras, c, normalize);
  }

  /** A column of the join file goes into column `c` exactly if it is the one of that name. */
  lemma {:induction false} TargetIsNamesake(wide: seq<string>, headers: seq<string>, extras: seq<nat>, c: nat, k: nat,
                                            normalize: Naming)
    requires forall k :: 0 <= k < |extras| ==> extras[k] < |headers|
    requires k < |extras| && c < |wide| && DistinctHeaders(headers, normalize) && DistinctHeaders(wide, normalize)
    ensures Targets(wide, headers, extras, c, k, normalize) <==>
            HeaderIndex(headers, wide[c], normalize) == Some(extras[k])
  {
    if normalize(wide[c]) == normalize(headers[extras[k]]) {
      IndexOf(wide, headers[extras[k]], c, normalize);
      IndexOf(headers, wide[c], extras[k], normalize);
    }
    hide HeaderIndex;
  }

  /** Column `c` of a matched row takes what the join file offers for it. */
  lemma {:induction false} FilledAt(row: Row, source: Row, join: Document, jUnit: nat, jName: nat, wide: seq<string>,
                                    c: nat, normalize: Naming)
    requires DistinctHeaders(wide, normalize) && DistinctHeaders(join.headers, normalize) && |row| == |wide|
             && c < |wide|
    ensures var filled := Filled(row, source, join.headers, wide, Extras(|join.headers|, jUnit, jName), normalize);
            var src := HeaderIndex(join.headers, wide[c], normalize);
            && |filled| == |row|
            && filled[c] == if src.None? || src.value == jUnit || src.value == jName then row[c]
                            else Fill(row[c], Text.Trim(Cell(source, src.value)))
  {
    var extras := Extras(|join.headers|, jUnit, jName);
    var src := HeaderIndex(join.headers, wide[c], normalize);
    assert src.Some? ==> (src.value in extras <==> src.value != jUnit && src.value != jName);
    hide HeaderIndex; hide Extras; hide Filled; hide Targets; hide DistinctHeaders;
    forall k: nat | k < |extras|
      ensures Targets(wide, join.headers, extras, c, k, normalize) <==> src == Some(extras[k])
    {
      TargetIsNamesake(wide, join.headers, extras, c, k, normalize);
    }
    if src.Some? && src.value in extras {
      var k :| 0 <= k < |extras| && extras[k] == src.value;
      Targeted(row, source, join.headers, wide, extras, c, k, normalize);
    } else {
      Untargeted(row, source, join.headers, wide, extras, c, normalize);
    }
  }

  // ---------------------------------------------------------------- one file

  function KeyOf(doc: Document, r: nat, normalize: Naming, lower: Lowering): Key
    requires r < |doc.rows|
  {
    RowKey(Value(doc, r, UNIT, normalize), Value(doc, r, NAME, normalize), lower)
  }

  ghost predicate Matchable(doc: Document, normalize: Naming) {
    HeaderIndex(doc.headers, UNIT, normalize).Some? && HeaderIndex(doc.headers, NAME, normalize).Some?
  }

  lemma {:induction false} JoinedRowAt(row: Row, unit: nat, name: nat, join: Document, wide: seq<string>, c: nat,
                                       normalize: Naming, lower: Lowering)
    requires DistinctHeaders(wide, normalize) && DistinctHeaders(join.headers, normalize) && |row| == |wide|
             && c < |wide|
    requires unit < |wide| && name < |wide| && Matchable(join, normalize)
    ensures var jUnit, jName :=
            HeaderIndex(join.headers, UNIT, normalize).value, HeaderIndex(join.headers, NAME, normalize).value;
            var joined := JoinedRow(row, unit, name, join, jUnit, jName, wide, normalize, lower);
            && |joined| == |row|
            && joined[c] == Fill(row[c], Offer(join, RowKey(row[unit], row[name], lower), wide[c], normalize, lower))
  {
    var jUnit, jName :=
        HeaderIndex(join.headers, UNIT, normalize).value, HeaderIndex(join.headers, NAME, normalize).value;
    var source := FirstMatch(join.rows, jUnit, jName, RowKey(row[unit], row[name], lower), lower);
    hide HeaderIndex; hide FirstMatch; hide Filled; hide Extras; hide RowKey;
    if source.Some? { FilledAt(row, source.value, join, jUnit, jName, wide, c, normalize); }
  }

  /** The widened main file a join file is poured into. */
  function WideFor(doc: Document, join: Document, normalize: Naming): Document {
    var jUnit, jName := HeaderIndex(join.headers, UNIT, normalize), HeaderIndex(join.headers, NAME, normalize);
    if jUnit.None? || jName.None? then doc
    else WithColumns(doc, join.headers, Extras(|join.headers|, jUnit.value, jName.value), normalize)
  }

  ghost predicate Ready(doc: Document, join: Document, normalize: Naming) {
    Good(doc, normalize) && Matchable(doc, normalize) && DistinctHeaders(join.headers, normalize)
        && Matchable(join, normalize)
  }

  function After(doc: Document, join: Document, normalize: Naming, lower: Lowering): Option<Document>
    requires HeaderIndex(doc.headers, UNIT, normalize).Some? && HeaderIndex(doc.headers, NAME, normalize).Some?
  {
    Joined(doc, HeaderIndex(doc.headers, UNIT, normalize).value, HeaderIndex(doc.headers, NAME, normalize).value, join,
           normalize, lower)
  }

  lemma {:induction false} WideFacts(doc: Document, join: Document, normalize: Naming)
    requires Ready(doc, join, normalize)
    ensures var wide := WideFor(doc, join, normalize);
            && Widened(doc, wide, normalize)
            && HeaderIndex(wide.headers, UNIT, normalize) == HeaderIndex(doc.headers, UNIT, normalize)
            && HeaderIndex(wide.headers, NAME, normalize) == HeaderIndex(doc.headers, NAME, normalize)
    ensures forall h :: HeaderIndex(join.headers, h, normalize).Some? ==>
            HeaderIndex(WideFor(doc, join, normalize).headers, h, normalize).Some?
  {
    var wide := WideFor(doc, join, normalize);
    var jUnit, jName :=
        HeaderIndex(join.headers, UNIT, normalize).value, HeaderIndex(join.headers, NAME, normalize).value;
    var extras := Extras(|join.headers|, jUnit, jName);
    WidenAll(doc, join.headers, extras, normalize);
    StillThere(doc.headers, wide.headers, UNIT, normalize);
    StillThere(doc.headers, wide.headers, NAME, normalize);
    forall h | HeaderIndex(join.headers, h, normalize).Some? ensures HeaderIndex(wide.headers, h, normalize).Some? {
      var src := HeaderIndex(join.headers, h, normalize).value;
      if src == jUnit {
        SameName(wide.headers, UNIT, h, normalize);
      } else if src == jName {
        SameName(wide.headers, NAME, h, normalize);
      } else {
        assert src in extras;
        SameName(wide.headers, join.headers[src], h, normalize);
      }
    }
  }

  /** One join file, column by column. */
  lemma {:induction false} JoinedColumn(doc: Document, join: Document, r: nat, c: nat, normalize: Naming,
                                        lower: Lowering)
    requires Ready(doc, join, normalize) && r < |doc.rows| && c < |WideFor(doc, join, normalize).headers|
    ensures var wide, joined := WideFor(doc, join, normalize), After(doc, join, normalize, lower);
            && joined.Some? && joined.value.headers == wide.headers && |joined.value.rows| == |doc.rows|
            && |joined.value.rows[r]| == |wide.headers|
            && joined.value.rows[r][c] ==
               Fill(Cell(doc.rows[r], c),
                    Offer(join, KeyOf(doc, r, normalize, lower), wide.headers[c], normalize, lower))
  {
    hide HeaderIndex; hide WithColumns; hide RowKey; hide Offer; hide JoinedRow; hide Extras;
    var wide := WideFor(doc, join, normalize);
    WideFacts(doc, join, normalize);
    var unit, name := HeaderIndex(doc.headers, UNIT, normalize).value, HeaderIndex(doc.headers, NAME, normalize).value;
    var row := wide.rows[r];
    assert unit < |doc.headers| && name < |doc.headers|;
    assert row[unit] == Cell(doc.rows[r], unit) && row[name] == Cell(doc.rows[r], name)
           && row[c] == Cell(doc.rows[r], c);
    JoinedRowAt(row, unit, name, join, wide.headers, c, normalize, lower);
  }

  /** One join file, cell by cell. */
  lemma {:induction false} JoinedAt(doc: Document, join: Document, r: nat, h: string, normalize: Naming,
                                    lower: Lowering)
    requires Ready(doc, join, normalize) && r < |doc.rows|
    ensures var joined := After(doc, join, normalize, lower);
            && joined.Some? && |joined.value.rows| == |doc.rows|
            && Value(joined.value, r, h, normalize) ==
               Fill(Value(doc, r, h, normalize), Offer(join, KeyOf(doc, r, normalize, lower), h, normalize, lower))
  {
    hide WithColumns; hide RowKey; hide JoinedRow; hide FirstMatch; hide Joined;
    var wide := WideFor(doc, join, normalize);
    var key := KeyOf(doc, r, normalize, lower);
    WideFacts(doc, join, normalize);
    var c := HeaderIndex(wide.headers, h, normalize);
    var own := HeaderIndex(doc.headers, h, normalize);
    if own.Some? { StillThere(doc.headers, wide.headers, h, normalize); }
    hide HeaderIndex;
    if c.Some? {
      JoinedColumn(doc, join, r, c.value, normalize, lower);
      OfferByName(join, key, wide.headers[c.value], h, normalize, lower);
      if own.None? { NotOwn(doc, wide, c.value, h, normalize); }
    } else {
      var unit := HeaderIndex(doc.headers, UNIT, normalize).value;
      JoinedColumn(doc, join, r, unit, normalize, lower);
    }
  }

  lemma {:induction false} OfferByName(join: Document, key: Key, g: string, h: string, normalize: Naming,
                                       lower: Lowering)
    requires normalize(g) == normalize(h)
    ensures Offer(join, key, g, normalize, lower) == Offer(join, key, h, normalize, lower)
  {
    SameName(join.headers, g, h, normalize);
  }

  /** A column the main file did not have was blank in it. */
  lemma {:induction false} NotOwn(doc: Document, wide: Document, c: nat, h: string, normalize: Naming)
    requires Good(doc, normalize) && Widened(doc, wide, normalize) && c < |wide.headers|
             && normalize(wide.headers[c]) == normalize(h)
    requires HeaderIndex(doc.headers, h, normalize).None?
    ensures forall r :: 0 <= r < |doc.rows| ==> Cell(doc.rows[r], c) == ""
  {
    assert doc.headers == wide.headers[..|doc.headers|];
  }

  lemma {:induction false} JoinedShape(doc: Document, join: Document, normalize: Naming, lower: Lowering)
    requires Ready(doc, join, normalize)
    ensures var joined := After(doc, join, normalize, lower);
            && joined.Some? && |joined.value.rows| == |doc.rows| && doc.headers <= joined.value.headers
            && Good(joined.value, normalize) && joined.value.headers == WideFor(doc, join, normalize).headers
  {
    var wide, joined := WideFor(doc, join, normalize), After(doc, join, normalize, lower);
    WideFacts(doc, join, normalize);
    var unit := HeaderIndex(doc.headers, UNIT, normalize).value;
    hide HeaderIndex; hide WithColumns; hide JoinedRow;
    forall r | 0 <= r < |doc.rows| ensures |joined.value.rows[r]| == |wide.headers| {
      JoinedColumn(doc, join, r, unit, normalize, lower);
    }
  }

  // ---------------------------------------------------------------- all files

  /** The first thing any of the first `n` files offers. */
  function FirstOffer(files: seq<Document>, n: nat, key: Key, h: string, normalize: Naming, lower: Lowering): string
    requires n <= |files|
  {
    if n == 0 then ""
    else
      var earlier := FirstOffer(files, n - 1, key, h, normalize, lower);
      if earlier != "" then earlier else Offer(files[n - 1], key, h, normalize, lower)
  }

  lemma {:induction false} OffersAreTrimmed(files: seq<Document>, n: nat, key: Key, h: string, normalize: Naming,
                                            lower: Lowering)
    requires n <= |files|
    ensures var offer := FirstOffer(files, n, key, h, normalize, lower); Text.Trim(offer) == offer
  {
    hide HeaderIndex; hide FirstMatch; hide Text.Trim;
    NothingTrims();
    if n > 0 {
      OffersAreTrimmed(files, n - 1, key, h, normalize, lower);
      OfferIsTrimmed(files[n - 1], key, h, normalize, lower);
    }
  }

  lemma {:induction false} NothingTrims()
    ensures Text.Trim("") == ""
  {
  }

  lemma {:induction false} OfferIsTrimmed(join: Document, key: Key, h: string, normalize: Naming, lower: Lowering)
    ensures var offer := Offer(join, key, h, normalize, lower); Text.Trim(offer) == offer
  {
    hide HeaderIndex; hide FirstMatch; hide Text.Trim;
    NothingTrims();
    forall s: string ensures Text.Trim(Text.Trim(s)) == Text.Trim(s) { Text.TrimIdempotent(s); }
  }

  lemma {:induction false} NoOfferForKeys(files: seq<Document>, n: nat, key: Key, normalize: Naming, lower: Lowering)
    requires n <= |files|
    ensures FirstOffer(files, n, key, UNIT, normalize, lower) == ""
            && FirstOffer(files, n, key, NAME, normalize, lower) == ""
  {
    hide HeaderIndex; hide FirstMatch;
    if n > 0 { NoOfferForKeys(files, n - 1, key, normalize, lower); }
  }

  lemma {:induction false} FillTwice(was: string, a: string, b: string)
    requires Text.Trim(a) == a
    ensures Fill(Fill(was, a), b) == Fill(was, if a != "" then a else b)
  {
    hide Text.Trim;
  }

  ghost predicate AllDistinct(files: seq<Document>, normalize: Naming) {
    forall j :: 0 <= j < |files| ==> DistinctHeaders(files[j].headers, normalize)
  }

  ghost predicate AllMatchable(files: seq<Document>, n: nat, normalize: Naming)
    requires n <= |files|
  {
    forall j :: 0 <= j < n ==> Matchable(files[j], normalize)
  }

  function Sofar(doc: Document, files: seq<Document>, n: nat, normalize: Naming, lower: Lowering): Option<Document>
    requires n <= |files| && HeaderIndex(doc.headers, UNIT, normalize).Some?
             && HeaderIndex(doc.headers, NAME, normalize).Some?
  {
    AfterJoins(doc, HeaderIndex(doc.headers, UNIT, normalize).value, HeaderIndex(doc.headers, NAME, normalize).value,
               files, n, normalize, lower)
  }

  /** The main file's rows, columns and keys stay; nothing is refused. */
  ghost predicate Grown(doc: Document, now: Document, normalize: Naming) {
    && Good(now, normalize) && Matchable(now, normalize) && doc.headers <= now.headers && |now.rows| == |doc.rows|
    && HeaderIndex(now.headers, UNIT, normalize) == HeaderIndex(doc.headers, UNIT, normalize)
    && HeaderIndex(now.headers, NAME, normalize) == HeaderIndex(doc.headers, NAME, normalize)
  }

  lemma {:induction false} GrowsBy(doc: Document, files: seq<Document>, n: nat, normalize: Naming, lower: Lowering)
    requires Good(doc, normalize) && Matchable(doc, normalize) && AllDistinct(files, normalize) && n <= |files|
             && AllMatchable(files, n, normalize)
    ensures Sofar(doc, files, n, normalize, lower).Some?
            && Grown(doc, Sofar(doc, files, n, normalize, lower).value, normalize)
    ensures n > 0 ==> Sofar(doc, files, n - 1, normalize, lower).Some?
    ensures n > 0 ==> Ready(Sofar(doc, files, n - 1, normalize, lower).value, files[n - 1], normalize)
    ensures n > 0 ==>
            Sofar(doc, files, n, normalize, lower) ==
                After(Sofar(doc, files, n - 1, normalize, lower).value, files[n - 1], normalize, lower)
  {
    hide HeaderIndex; hide Joined; hide DistinctHeaders; hide Rectangular;
    if n > 0 {
      GrowsBy(doc, files, n - 1, normalize, lower);
      var before, join := Sofar(doc, files, n - 1, normalize, lower).value, files[n - 1];
      assert Matchable(join, normalize) && DistinctHeaders(join.headers, normalize);
      WideFacts(before, join, normalize);
      JoinedShape(before, join, normalize, lower);
    }
  }

  /** The merged file, cell by cell: a cell that was not blank stays, and a blank
    * takes the first offer, or stays as it was.
    */
  lemma {:induction false} MergedCell(doc: Document, files: seq<Document>, n: nat, r: nat, h: string, normalize: Naming,
                                      lower: Lowering)
    requires Good(doc, normalize) && Matchable(doc, normalize) && AllDistinct(files, normalize) && n <= |files|
             && AllMatchable(files, n, normalize)
    requires r < |doc.rows|
    ensures var now := Sofar(doc, files, n, normalize, lower);
            && now.Some? && |now.value.rows| == |doc.rows|
            && KeyOf(now.value, r, normalize, lower) == KeyOf(doc, r, normalize, lower)
            && Value(now.value, r, h, normalize) ==
               Fill(Value(doc, r, h, normalize),
                    FirstOffer(files, n, KeyOf(doc, r, normalize, lower), h, normalize, lower))
    decreases n, 1
  {
    GrowsBy(doc, files, n, normalize, lower);
    hide HeaderIndex; hide Joined; hide DistinctHeaders; hide Rectangular; hide RowKey; hide Offer; hide Matchable;
    hide AfterJoins;
    MergedCellOnly(doc, files, n, r, h, normalize, lower);
    MergedCellOnly(doc, files, n, r, UNIT, normalize, lower);
    MergedCellOnly(doc, files, n, r, NAME, normalize, lower);
    NoOfferForKeys(files, n, KeyOf(doc, r, normalize, lower), normalize, lower);
  }

  lemma {:induction false} MergedCellOnly(doc: Document, files: seq<Document>, n: nat, r: nat, h: string,
                                          normalize: Naming, lower: Lowering)
    requires Good(doc, normalize) && Matchable(doc, normalize) && AllDistinct(files, normalize) && n <= |files|
             && AllMatchable(files, n, normalize)
    requires r < |doc.rows|
    ensures var now := Sofar(doc, files, n, normalize, lower);
            && now.Some? && |now.value.rows| == |doc.rows|
            && Value(now.value, r, h, normalize) ==
               Fill(Value(doc, r, h, normalize),
                    FirstOffer(files, n, KeyOf(doc, r, normalize, lower), h, normalize, lower))
    decreases n, 0
  {
    if n == 0 {
      assert Sofar(doc, files, 0, normalize, lower) == Some(doc);
    } else {
      MergedStep(doc, files, n, r, h, normalize, lower);
    }
    hide HeaderIndex; hide AfterJoins; hide Offer; hide RowKey;
  }

  lemma {:induction false} MergedStep(doc: Document, files: seq<Document>, n: nat, r: nat, h: string, normalize: Naming,
                                      lower: Lowering)
    requires Good(doc, normalize) && Matchable(doc, normalize) && AllDistinct(files, normalize) && 0 < n <= |files|
             && AllMatchable(files, n, normalize)
    requires r < |doc.rows|
    ensures var now := Sofar(doc, files, n, normalize, lower);
            && now.Some? && |now.value.rows| == |doc.rows|
            && Value(now.value, r, h, normalize) ==
               Fill(Value(doc, r, h, normalize),
                    FirstOffer(files, n, KeyOf(doc, r, normalize, lower), h, normalize, lower))
    decreases n - 1, 2
  {
    hide HeaderIndex; hide Joined; hide DistinctHeaders; hide Rectangular; hide RowKey; hide Offer; hide AfterJoins;
    hide Value; hide KeyOf;
    GrowsBy(doc, files, n, normalize, lower);
    GrowsBy(doc, files, n - 1, normalize, lower);
    var key, before := KeyOf(doc, r, normalize, lower), Sofar(doc, files, n - 1, normalize, lower);
    MergedCell(doc, files, n - 1, r, h, normalize, lower);
    JoinedAt(before.value, files[n - 1], r, h, normalize, lower);
    OffersAreTrimmed(files, n - 1, key, h, normalize, lower);
    FillTwice(Value(doc, r, h, normalize), FirstOffer(files, n - 1, key, h, normalize, lower),
              Offer(files[n - 1], key, h, normalize, lower));
  }

  // ---------------------------------------------------------------- the theorems

  ghost predicate Ordinary(files: seq<Document>, normalize: Naming) {
    AllDistinct(files, normalize) && forall j :: 0 <= j < |files| ==> !IsUnitLink(files[j], normalize)
  }

  lemma {:induction false} NoLinks(primary: Document, files: seq<Document>, n: nat, normalize: Naming)
    requires n <= |files| && Ordinary(files, normalize)
    ensures AfterLinks(primary, files, n, normalize) == Some(primary)
  {
    hide IsUnitLink;
    if n > 0 { NoLinks(primary, files, n - 1, normalize); }
  }

  /** The files that are joined can all be matched; link files are not joined. */
  ghost predicate JoinsMatchable(files: seq<Document>, n: nat, normalize: Naming)
    requires n <= |files|
  {
    forall j :: 0 <= j < n && !IsUnitLink(files[j], normalize) ==> Matchable(files[j], normalize)
  }

  lemma {:induction false} JoinsSucceedIff(doc: Document, unit: nat, name: nat, files: seq<Document>, n: nat,
                                           normalize: Naming, lower: Lowering)
    requires n <= |files|
    ensures AfterJoins(doc, unit, name, files, n, normalize, lower).Some? <==> JoinsMatchable(files, n, normalize)
  {
    hide IsUnitLink; hide HeaderIndex; hide WithColumns; hide JoinedRow; hide Extras;
    if n > 0 { JoinsSucceedIff(doc, unit, name, files, n - 1, normalize, lower); }
  }

  /** Merging succeeds exactly when the link files attach, the main file then has the two
    * columns to match on, and so has every file that is joined.
    */
  lemma {:induction false} MergeSucceedsIff(primary: Document, files: seq<Document>, normalize: Naming, lower: Lowering)
    ensures var linked := AfterLinks(primary, files, |files|, normalize);
            Merged(primary, files, normalize, lower).Some?
            <==> linked.Some? && Matchable(linked.value, normalize) && JoinsMatchable(files, |files|, normalize)
  {
    var linked := AfterLinks(primary, files, |files|, normalize);
    hide AfterLinks; hide AfterJoins; hide HeaderIndex; hide JoinsMatchable;
    if linked.Some? && Matchable(linked.value, normalize) {
      var headers := linked.value.headers;
      var unit, name := HeaderIndex(headers, UNIT, normalize).value, HeaderIndex(headers, NAME, normalize).value;
      JoinsSucceedIff(linked.value, unit, name, files, |files|, normalize, lower);
    }
  }

  /** Without link files, the main file itself is what the others are joined to. */
  lemma {:induction false} MergedWithoutLinks(primary: Document, files: seq<Document>, normalize: Naming,
                                              lower: Lowering)
    requires Ordinary(files, normalize)
    ensures Merged(primary, files, normalize, lower).Some? <==>
            Matchable(primary, normalize) && AllMatchable(files, |files|, normalize)
    ensures Matchable(primary, normalize) ==>
              Merged(primary, files, normalize, lower) == Sofar(primary, files, |files|, normalize, lower)
  {
    NoLinks(primary, files, |files|, normalize);
    MergeSucceedsIff(primary, files, normalize, lower);
    hide HeaderIndex; hide IsUnitLink; hide AfterJoins; hide AfterLinks; hide DistinctHeaders;
  }

  /** ... and then keeps the rows and their order, the columns the main file had, and
    * every cell that is not blank; a blank takes the first offer, or stays.
    */
  lemma {:induction false} MergeFillsBlanks(primary: Document, files: seq<Document>, r: nat, h: string,
                                            normalize: Naming, lower: Lowering)
    requires Good(primary, normalize) && Ordinary(files, normalize) && Merged(primary, files, normalize, lower).Some?
             && r < |primary.rows|
    ensures var m := Merged(primary, files, normalize, lower).value;
            && |m.rows| == |primary.rows| && primary.headers <= m.headers
            && Value(m, r, h, normalize) ==
               Fill(Value(primary, r, h, normalize),
                    FirstOffer(files, |files|, KeyOf(primary, r, normalize, lower), h, normalize, lower))
  {
    MergedWithoutLinks(primary, files, normalize, lower);
    hide HeaderIndex; hide AfterJoins; hide AfterLinks; hide Merged; hide Offer; hide Good;
    GrowsBy(primary, files, |files|, normalize, lower);
    MergedCell(primary, files, |files|, r, h, normalize, lower);
  }

  lemma {:induction false} HeadersPresent(doc: Document, files: seq<Document>, n: nat, j: nat, h: string,
                                          normalize: Naming, lower: Lowering)
    requires Good(doc, normalize) && Matchable(doc, normalize) && AllDistinct(files, normalize) && j < n <= |files|
             && AllMatchable(files, n, normalize)
    requires HeaderIndex(files[j].headers, h, normalize).Some?
    ensures Sofar(doc, files, n, normalize, lower).Some?
            && HeaderIndex(Sofar(doc, files, n, normalize, lower).value.headers, h, normalize).Some?
    decreases n
  {
    hide HeaderIndex; hide Joined; hide AfterJoins; hide Good; hide DistinctHeaders; hide Rectangular; hide Matchable;
    hide Widened; hide WideFor;
    MatchableIs(doc, normalize);
    GrowsBy(doc, files, n, normalize, lower);
    var before := Sofar(doc, files, n - 1, normalize, lower).value;
    JoinedShape(before, files[n - 1], normalize, lower);
    if j == n - 1 {
      WideFacts(before, files[j], normalize);
    } else {
      HeadersPresent(doc, files, n - 1, j, h, normalize, lower);
      StillThere(before.headers, Sofar(doc, files, n, normalize, lower).value.headers, h, normalize);
    }
  }

  lemma {:induction false} NoOfferAtAll(files: seq<Document>, n: nat, j: nat, key: Key, h: string, normalize: Naming,
                                        lower: Lowering)
    requires j < n <= |files| && FirstOffer(files, n, key, h, normalize, lower) == ""
    ensures Offer(files[j], key, h, normalize, lower) == ""
  {
    hide Offer;
    if j < n - 1 { NoOfferAtAll(files, n - 1, j, key, h, normalize, lower); }
  }

  /** A file all of whose offers have been taken or declined changes nothing. */
  lemma {:induction false} NothingLeftToFill(m: Document, join: Document, normalize: Naming, lower: Lowering)
    requires Ready(m, join, normalize)
    requires forall i :: 0 <= i < |join.headers| ==> HeaderIndex(m.headers, join.headers[i], normalize).Some?
    requires forall r, c :: 0 <= r < |m.rows| && 0 <= c < |m.headers| ==>
               Blank(m.rows[r][c]) ==> Offer(join, KeyOf(m, r, normalize, lower), m.headers[c], normalize, lower) == ""
    ensures After(m, join, normalize, lower) == Some(m)
  {
    var jUnit, jName :=
        HeaderIndex(join.headers, UNIT, normalize).value, HeaderIndex(join.headers, NAME, normalize).value;
    NoNewColumns(m, join.headers, Extras(|join.headers|, jUnit, jName), normalize);
    JoinedShape(m, join, normalize, lower);
    var now := After(m, join, normalize, lower).value;
    assert WideFor(m, join, normalize) == m;
    hide HeaderIndex; hide Joined; hide Offer; hide WithColumns; hide WideFor; hide DistinctHeaders; hide Matchable;
    forall r | 0 <= r < |m.rows| ensures now.rows[r] == m.rows[r] {
      forall c | 0 <= c < |m.headers|
        ensures now.rows[r][c] == m.rows[r][c]
      {
        JoinedColumn(m, join, r, c, normalize, lower);
      }
    }
    assert now.rows == m.rows;
  }

  /** Merging the same files again changes nothing. */
  lemma {:induction false} MergeIsIdempotent(primary: Document, files: seq<Document>, normalize: Naming,
                                             lower: Lowering)
    requires Good(primary, normalize) && Ordinary(files, normalize)
    ensures var once := Merged(primary, files, normalize, lower);
            once.Some? ==> Merged(once.value, files, normalize, lower) == once
  {
    MergedWithoutLinks(primary, files, normalize, lower);
    var once := Merged(primary, files, normalize, lower);
    hide HeaderIndex; hide AfterJoins; hide AfterLinks; hide Merged; hide Good;
    if once.Some? {
      GrowsBy(primary, files, |files|, normalize, lower);
      MergedWithoutLinks(once.value, files, normalize, lower);
      AgainUpTo(primary, files, |files|, normalize, lower);
    }
  }

  lemma {:induction false} AgainUpTo(doc: Document, files: seq<Document>, n: nat, normalize: Naming, lower: Lowering)
    requires Good(doc, normalize) && Matchable(doc, normalize) && AllDistinct(files, normalize)
             && AllMatchable(files, |files|, normalize) && n <= |files|
    ensures var m := Sofar(doc, files, |files|, normalize, lower);
            m.Some? && Grown(doc, m.value, normalize) && Sofar(m.value, files, n, normalize, lower) == m
  {
    hide HeaderIndex; hide Joined; hide AfterJoins; hide DistinctHeaders; hide Rectangular; hide Matchable;
    MatchableIs(doc, normalize);
    GrowsBy(doc, files, |files|, normalize, lower);
    var m := Sofar(doc, files, |files|, normalize, lower).value;
    MatchableIs(m, normalize);
    if n == 0 {
      NoneYet(m, files, normalize, lower);
    } else {
      AgainUpTo(doc, files, n - 1, normalize, lower);
      DeclinedBy(doc, files, n - 1, normalize, lower);
      GrowsBy(m, files, n, normalize, lower);
    }
  }

  lemma {:induction false} MatchableIs(doc: Document, normalize: Naming)
    ensures Matchable(doc, normalize) <==>
            HeaderIndex(doc.headers, UNIT, normalize).Some? && HeaderIndex(doc.headers, NAME, normalize).Some?
  {
  }

  lemma {:induction false} NoneYet(doc: Document, files: seq<Document>, normalize: Naming, lower: Lowering)
    requires HeaderIndex(doc.headers, UNIT, normalize).Some? && HeaderIndex(doc.headers, NAME, normalize).Some?
    ensures Sofar(doc, files, 0, normalize, lower) == Some(doc)
  {
  }

  lemma {:induction false} DeclinedBy(doc: Document, files: seq<Document>, j: nat, normalize: Naming, lower: Lowering)
    requires Good(doc, normalize) && Matchable(doc, normalize) && AllDistinct(files, normalize)
             && AllMatchable(files, |files|, normalize) && j < |files|
    ensures var m := Sofar(doc, files, |files|, normalize, lower);
            m.Some? && Grown(doc, m.value, normalize) && After(m.value, files[j], normalize, lower) == m
  {
    GrowsBy(doc, files, |files|, normalize, lower);
    var m := Sofar(doc, files, |files|, normalize, lower).value;
    assert Matchable(files[j], normalize) && DistinctHeaders(files[j].headers, normalize);
    forall i | 0 <= i < |files[j].headers| ensures HeaderIndex(m.headers, files[j].headers[i], normalize).Some? {
      HeadersPresent(doc, files, |files|, j, files[j].headers[i], normalize, lower);
    }
    hide HeaderIndex; hide Joined; hide AfterJoins; hide Offer;
    forall r, c | 0 <= r < |m.rows| && 0 <= c < |m.headers| && Blank(m.rows[r][c])
      ensures Offer(files[j], KeyOf(m, r, normalize, lower), m.headers[c], normalize, lower) == ""
    {
      BlankMeansNoOffer(doc, files, j, r, c, normalize, lower);
    }
    NothingLeftToFill(m, files[j], normalize, lower);
  }

  lemma {:induction false} BlankMeansNoOffer(doc: Document, files: seq<Document>, j: nat, r: nat, c: nat,
                                             normalize: Naming, lower: Lowering)
    requires Good(doc, normalize) && Matchable(doc, normalize) && AllDistinct(files, normalize)
             && AllMatchable(files, |files|, normalize) && j < |files|
    requires Sofar(doc, files, |files|, normalize, lower).Some?
    requires var m := Sofar(doc, files, |files|, normalize, lower).value;
             Grown(doc, m, normalize) && r < |m.rows| && c < |m.headers| && Blank(m.rows[r][c])
    ensures var m := Sofar(doc, files, |files|, normalize, lower).value;
            Offer(files[j], KeyOf(m, r, normalize, lower), m.headers[c], normalize, lower) == ""
  {
    var m := Sofar(doc, files, |files|, normalize, lower).value;
    var h, key := m.headers[c], KeyOf(doc, r, normalize, lower);
    IndexOf(m.headers, h, c, normalize);
    assert Value(m, r, h, normalize) == m.rows[r][c];
    hide HeaderIndex; hide Joined; hide AfterJoins; hide Offer; hide DistinctHeaders; hide KeyOf; hide Value;
    MergedCell(doc, files, |files|, r, h, normalize, lower);
    OffersAreTrimmed(files, |files|, key, h, normalize, lower);
    NoOfferAtAll(files, |files|, j, key, h, normalize, lower);
  }

  // ---------------------------------------------------------------- link files among the others

  /** The files among the first `n` that are joined, in order. */
  function JoinFiles(files: seq<Document>, n: nat, normalize: Naming): (r: seq<Document>)
    requires n <= |files|
    ensures forall f :: f in r ==> f in files && !IsUnitLink(f, normalize)
  {
    if n == 0 then []
    else JoinFiles(files, n - 1, normalize) + if IsUnitLink(files[n - 1], normalize) then [] else [files[n - 1]]
  }

  lemma {:induction false} JoinsOfPrefix(doc: Document, unit: nat, name: nat, a: seq<Document>, b: seq<Document>,
                                         n: nat, normalize: Naming, lower: Lowering)
    requires n <= |a| && a <= b
    ensures AfterJoins(doc, unit, name, a, n, normalize, lower) == AfterJoins(doc, unit, name, b, n, normalize, lower)
  {
    hide IsUnitLink; hide Joined;
    if n > 0 { JoinsOfPrefix(doc, unit, name, a, b, n - 1, normalize, lower); }
  }

  lemma {:induction false} JoinsSkipLinks(doc: Document, unit: nat, name: nat, files: seq<Document>, n: nat,
                                          normalize: Naming, lower: Lowering)
    requires n <= |files|
    ensures var joins := JoinFiles(files, n, normalize);
            AfterJoins(doc, unit, name, files, n, normalize, lower) ==
            AfterJoins(doc, unit, name, joins, |joins|, normalize, lower)
  {
    hide IsUnitLink; hide Joined;
    if n > 0 {
      JoinsSkipLinks(doc, unit, name, files, n - 1, normalize, lower);
      var before, joins := JoinFiles(files, n - 1, normalize), JoinFiles(files, n, normalize);
      if IsUnitLink(files[n - 1], normalize) {
        assert joins == before;
      } else {
        assert joins == before + [files[n - 1]];
        JoinsOfPrefix(doc, unit, name, before, joins, |before|, normalize, lower);
      }
    }
  }

  lemma {:induction false} NoLinksLeft(doc: Document, joins: seq<Document>, n: nat, normalize: Naming)
    requires n <= |joins| && forall f :: f in joins ==> !IsUnitLink(f, normalize)
    ensures AfterLinks(doc, joins, n, normalize) == Some(doc)
  {
    hide IsUnitLink;
    if n > 0 {
      NoLinksLeft(doc, joins, n - 1, normalize);
      assert joins[n - 1] in joins;
    }
  }

  /** Wherever link files stand among the others, merging is attaching them all and then
    * merging the rest.
    */
  lemma {:induction false} LinksComeFirst(primary: Document, files: seq<Document>, normalize: Naming, lower: Lowering)
    ensures var linked := AfterLinks(primary, files, |files|, normalize);
            Merged(primary, files, normalize, lower) ==
            if linked.None? then None
            else Merged(linked.value, JoinFiles(files, |files|, normalize), normalize, lower)
  {
    var linked, joins := AfterLinks(primary, files, |files|, normalize), JoinFiles(files, |files|, normalize);
    hide AfterLinks; hide AfterJoins; hide HeaderIndex; hide JoinFiles;
    if linked.Some? {
      var doc := linked.value;
      NoLinksLeft(doc, joins, |joins|, normalize);
      var unit, name := HeaderIndex(doc.headers, UNIT, normalize), HeaderIndex(doc.headers, NAME, normalize);
      if unit.Some? && name.Some? {
        JoinsSkipLinks(doc, unit.value, name.value, files, |files|, normalize, lower);
      }
    }
  }
}
