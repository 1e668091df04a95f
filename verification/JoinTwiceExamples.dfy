/** Files whose second merge differs from the first: two link files that disagree about a
  * tenant, and a row whose tenant comes from a joined file.
  */
module JoinTwiceExamples {
  import opened Options
  import opened Csv
  import opened Lists
  import opened Joining
  import opened JoinMeaning
  import opened JoinTwice
  import opened UnitSettled
  import Text
  import UnitLink

  const TENANT := UnitLink.TENANT_ID

  ghost predicate AllDiffer(normalize: Naming) {
    normalize(TENANT) != normalize(UNIT) && normalize(TENANT) != normalize(NAME) && normalize(UNIT) != normalize(NAME)
  }

  /** Neither blank nor surrounded by whitespace. */
  predicate IsValue(s: string) { s != "" && Text.Trim(s) == s }

  function MainFile(rows: seq<Row>): Document { Document([TENANT, UNIT, NAME], rows) }
  function LinkFile(rows: seq<Row>): Document { Document([TENANT, UNIT], rows) }

  lemma {:induction false} Columns(normalize: Naming)
    requires AllDiffer(normalize)
    ensures var main := [TENANT, UNIT, NAME];
            && DistinctHeaders(main, normalize)
            && HeaderIndex(main, TENANT, normalize) == Some(0) && HeaderIndex(main, UNIT, normalize) == Some(1)
            && HeaderIndex(main, NAME, normalize) == Some(2)
    ensures var link := [TENANT, UNIT];
            && HeaderIndex(link, TENANT, normalize) == Some(0) && HeaderIndex(link, UNIT, normalize) == Some(1)
            && HeaderIndex(link, NAME, normalize).None?
  {
    var main, link := [TENANT, UNIT, NAME], [TENANT, UNIT];
    IndexOf(main, TENANT, 0, normalize);
    IndexOf(main, UNIT, 1, normalize);
    IndexOf(main, NAME, 2, normalize);
    IndexOf(link, TENANT, 0, normalize);
    IndexOf(link, UNIT, 1, normalize);
  }

  /** The units on link rows that are all `t`'s. */
  lemma {:induction false} UnitsListed(rows: seq<Row>, t: string)
    requires IsValue(t)
    requires forall i :: 0 <= i < |rows| ==> |rows[i]| == 2 && rows[i][0] == t && IsValue(rows[i][1])
    ensures UnitLink.HeldBy(rows, 0, 1)(t) == Distinct(Map(rows, UnitLink.CellAt(1)))
  {
    hide Text.Trim;
    KeepAll(rows, UnitLink.OfHolder(0, 1, t));
  }

  lemma {:induction false} HeldUnits(t: string, a: string, b: string)
    requires IsValue(t) && IsValue(a) && IsValue(b) && a != b
    ensures UnitLink.HeldBy([[t, a]], 0, 1)(t) == [a] && UnitLink.HeldBy([[t, a], [t, b]], 0, 1)(t) == [a, b]
  {
    UnitsListed([[t, a]], t);
    UnitsListed([[t, a], [t, b]], t);
    hide Text.Trim;
    assert Map([[t, a]], UnitLink.CellAt(1)) == [a] && Map([[t, a], [t, b]], UnitLink.CellAt(1)) == [a, b];
    AlreadyDistinct([a]);
    AlreadyDistinct([a, b]);
  }

  lemma {:induction false} PartsOfOne(rows: seq<Row>, held: UnitLink.Holding, t: string)
    requires rows != [] && NoRepeats(rows) && UnitLink.Linked(held, t) && IsValue(t)
    requires forall i :: 0 <= i < |rows| ==> |rows[i]| == 3 && rows[i][0] == t
    ensures UnitLink.Unlinked(rows, 0, held) == [] && UnitLink.Tenants(rows, 0, held) == [t]
    ensures UnitLink.RowsOf(rows, 0, t) == rows
  {
    hide Text.Trim;
    AppendTenant([], rows, 0, held, t);
    AlreadyDistinct(rows);
    assert [] + rows == rows;
    assert UnitLink.Unlinked([], 0, held) == [] && UnitLink.Tenants([], 0, held) == [];
  }

  lemma {:induction false} OneBlock(t: string, block: string -> seq<Row>)
    ensures UnitLink.Blocks([t], block) == block(t)
  {
    assert [t][..0] == [];
    assert UnitLink.Blocks([], block) == [];
  }

  /** Attaching units to rows that are all one linked tenant's. */
  lemma {:induction false} OneTenant(rows: seq<Row>, held: UnitLink.Holding, t: string)
    requires rows != [] && NoRepeats(rows) && UnitLink.Linked(held, t) && IsValue(t)
    requires forall i :: 0 <= i < |rows| ==> |rows[i]| == 3 && rows[i][0] == t
    ensures UnitLink.AllAssignable(rows, 0, held) <==> UnitLink.Assignable(rows, held(t))
    ensures UnitLink.Attached(rows, 0, 1, held) == UnitLink.Spread(rows, held(t), 1)
  {
    hide UnitLink.Spread; hide UnitLink.Tenants; hide UnitLink.RowsOf; hide UnitLink.Unlinked; hide UnitLink.Blocks;
    hide NoRepeats; hide UnitLink.Assignable;
    PartsOfOne(rows, held, t);
    OneBlock(t, UnitLink.Blocking(rows, 0, 1, held));
    assert t in [t];
  }

  lemma {:induction false} AttachOneTenant(rows: seq<Row>, link: seq<Row>, t: string, normalize: Naming)
    requires AllDiffer(normalize) && rows != [] && NoRepeats(rows) && IsValue(t)
    requires forall i :: 0 <= i < |rows| ==> |rows[i]| == 3 && rows[i][0] == t
    requires UnitLink.HeldBy(link, 0, 1)(t) != []
    ensures var units := UnitLink.HeldBy(link, 0, 1)(t);
            UnitLink.Attach(MainFile(rows), LinkFile(link), normalize) ==
            if UnitLink.Assignable(rows, units) then UnitLink.Ok(MainFile(UnitLink.Spread(rows, units, 1)))
            else UnitLink.Err
  {
    Columns(normalize);
    OneTenant(rows, UnitLink.HeldBy(link, 0, 1), t);
    hide HeaderIndex; hide UnitLink.Attached; hide UnitLink.AllAssignable; hide UnitLink.HeldBy; hide UnitLink.Spread;
  }

  lemma {:induction false} BothAttached(doc: Document, files: seq<Document>, normalize: Naming)
    requires |files| == 2 && IsUnitLink(files[0], normalize) && IsUnitLink(files[1], normalize)
    ensures var one := UnitLink.Attach(doc, files[0], normalize);
            var two := if one.Ok? then UnitLink.Attach(one.document, files[1], normalize) else one;
            AfterLinks(doc, files, 2, normalize) == if two.Ok? then Some(two.document) else None
  {
    hide UnitLink.Attach; hide IsUnitLink;
    var one := UnitLink.Attach(doc, files[0], normalize);
    assert AfterLinks(doc, files, 0, normalize) == Some(doc);
    assert AfterLinks(doc, files, 1, normalize) == if one.Ok? then Some(one.document) else None;
  }

  lemma {:induction false} LinkFileIsLink(rows: seq<Row>, normalize: Naming)
    requires AllDiffer(normalize)
    ensures IsUnitLink(LinkFile(rows), normalize)
  {
    Columns(normalize);
    hide HeaderIndex;
  }

  /** Two link files and nothing else: merging is attaching both. */
  lemma {:induction false} LinksOnly(doc: Document, files: seq<Document>, normalize: Naming, lower: Lowering)
    requires |files| == 2 && IsUnitLink(files[0], normalize) && IsUnitLink(files[1], normalize)
    ensures var one := UnitLink.Attach(doc, files[0], normalize);
            var two := if one.Ok? then UnitLink.Attach(one.document, files[1], normalize) else one;
            && (two.Err? ==> Merged(doc, files, normalize, lower).None?)
            && (two.Ok? && Matchable(two.document, normalize) ==>
                  Merged(doc, files, normalize, lower) == Some(two.document))
  {
    hide UnitLink.Attach; hide HeaderIndex; hide IsUnitLink; hide AfterLinks; hide AfterJoins;
    BothAttached(doc, files, normalize);
    var two := AfterLinks(doc, files, 2, normalize);
    if two.Some? && Matchable(two.value, normalize) {
      var unit, name :=
          HeaderIndex(two.value.headers, UNIT, normalize).value, HeaderIndex(two.value.headers, NAME, normalize).value;
      NothingJoined(two.value, unit, name, files, 2, normalize, lower);
    }
  }

  lemma {:induction false} NothingJoined(doc: Document, unit: nat, name: nat, files: seq<Document>, n: nat,
                                         normalize: Naming, lower: Lowering)
    requires n <= |files| && forall j :: 0 <= j < n ==> IsUnitLink(files[j], normalize)
    ensures AfterJoins(doc, unit, name, files, n, normalize, lower) == Some(doc)
  {
    hide IsUnitLink;
    if n > 0 { NothingJoined(doc, unit, name, files, n - 1, normalize, lower); }
  }

  /** The rows of the example: one row, spread over one unit, and then over two. */
  lemma {:induction false} Spreads(t: string, a: string, c: string, d: string)
    requires c != d
    ensures UnitLink.Spread([[t, "", ""]], [a], 1) == [[t, a, ""]]
    ensures UnitLink.Spread([[t, a, ""]], [c, d], 1) == [[t, c, ""], [t, d, ""]]
    ensures NoRepeats([[t, c, ""], [t, d, ""]]) && !UnitLink.Assignable([[t, c, ""], [t, d, ""]], [a])
  {
    assert [t, c, ""][1] != [t, d, ""][1];
    assert SetCell([t, "", ""], 1, a) == [t, a, ""];
    assert SetCell([t, a, ""], 1, c) == [t, c, ""] && SetCell([t, a, ""], 1, d) == [t, d, ""];
  }

  /** A tenant that one link file gives one unit and the next gives two: the first merge
    * spreads its row over the two, and the second is refused.
    */
  lemma {:induction false} TwoLinksRefusedAgain(t: string, a: string, c: string, d: string, normalize: Naming,
                                                lower: Lowering)
    requires AllDiffer(normalize) && IsValue(t) && IsValue(a) && IsValue(c) && IsValue(d) && c != d && a != c
    ensures var files := [LinkFile([[t, a]]), LinkFile([[t, c], [t, d]])];
            var once := Merged(MainFile([[t, "", ""]]), files, normalize, lower);
            once.Some? && Merged(once.value, files, normalize, lower).None?
  {
    hide UnitLink.Attach; hide UnitLink.HeldBy; hide UnitLink.Spread; hide HeaderIndex; hide Merged; hide IsValue;
    hide AllDiffer; hide IsUnitLink;
    HeldUnits(t, a, c);
    HeldUnits(t, c, d);
    Columns(normalize);
    Spreads(t, a, c, d);
    var row, one, two := [t, "", ""], [[t, a, ""]], [[t, c, ""], [t, d, ""]];
    AttachOneTenant([row], [[t, a]], t, normalize);
    AttachOneTenant(one, [[t, c], [t, d]], t, normalize);
    AttachOneTenant(two, [[t, a]], t, normalize);
    LinkFileIsLink([[t, a]], normalize);
    LinkFileIsLink([[t, c], [t, d]], normalize);
    var files := [LinkFile([[t, a]]), LinkFile([[t, c], [t, d]])];
    LinksOnly(MainFile([row]), files, normalize, lower);
    LinksOnly(MainFile(two), files, normalize, lower);
  }

  // ---------------------------------------------------------------- a tenant from a joined file

  function JoinFile(rows: seq<Row>): Document { Document([UNIT, NAME, TENANT], rows) }

  lemma {:induction false} JoinColumnsAt(normalize: Naming)
    requires AllDiffer(normalize)
    ensures var join := [UNIT, NAME, TENANT];
            && DistinctHeaders(join, normalize)
            && HeaderIndex(join, UNIT, normalize) == Some(0) && HeaderIndex(join, NAME, normalize) == Some(1)
            && HeaderIndex(join, TENANT, normalize) == Some(2)
  {
    var join := [UNIT, NAME, TENANT];
    IndexOf(join, UNIT, 0, normalize);
    IndexOf(join, NAME, 1, normalize);
    IndexOf(join, TENANT, 2, normalize);
  }

  lemma {:induction false} NobodyLinked(u: string, n: string, held: UnitLink.Holding)
    requires held("") == []
    ensures UnitLink.AllAssignable([["", u, n]], 0, held) && UnitLink.Attached([["", u, n]], 0, 1, held) == [["", u, n]]
  {
    assert Text.Trim("") == "";
    UnlinkedStay([["", u, n]], 0, 1, held);
  }

  lemma {:induction false} TenantGiven(t: string, u: string, n: string, normalize: Naming, lower: Lowering)
    requires AllDiffer(normalize) && IsValue(t)
    ensures var main, join := MainFile([["", u, n]]), JoinFile([[u, n, t]]);
            FirstOffer([join], 1, KeyOf(main, 0, normalize, lower), TENANT, normalize, lower) == t
  {
    Columns(normalize);
    JoinColumnsAt(normalize);
    var main, join := MainFile([["", u, n]]), JoinFile([[u, n, t]]);
    var key := KeyOf(main, 0, normalize, lower);
    hide HeaderIndex; hide Text.Trim; hide RowKey;
    assert key == RowKey(u, n, lower) && HasKey(join.rows[0], 0, 1, key, lower);
    assert join.rows[..0] == [];
    assert FirstMatch(join.rows[..0], 0, 1, key, lower).None?;
    assert FirstMatch(join.rows, 0, 1, key, lower) == Some([u, n, t]);
    assert FirstOffer([join], 0, key, TENANT, normalize, lower) == "";
  }

  /** The files of the example: the link file gives `t` the unit `a`, the joined one gives
    * the row at unit `u` the tenant `t`.
    */
  function Files(t: string, a: string, u: string, n: string): seq<Document> {
    [LinkFile([[t, a]]), JoinFile([[u, n, t]])]
  }

  lemma {:induction false} FilesAre(t: string, a: string, u: string, n: string, normalize: Naming)
    requires AllDiffer(normalize)
    ensures OneLink(MainFile([["", u, n]]), Files(t, a, u, n), 0, normalize)
    ensures JoinFiles(Files(t, a, u, n), 2, normalize) == [JoinFile([[u, n, t]])]
    ensures Ordinary([JoinFile([[u, n, t]])], normalize)
  {
    Columns(normalize);
    JoinColumnsAt(normalize);
    hide HeaderIndex; hide DistinctHeaders;
    var files := Files(t, a, u, n);
    assert IsUnitLink(files[0], normalize) && !IsUnitLink(files[1], normalize);
    assert JoinFiles(files, 0, normalize) == [];
    assert JoinFiles(files, 1, normalize) == [];
  }

  lemma {:induction false} FirstMerge(t: string, a: string, u: string, n: string, normalize: Naming, lower: Lowering)
    requires AllDiffer(normalize) && IsValue(t)
    ensures var once := Merged(MainFile([["", u, n]]), Files(t, a, u, n), normalize, lower);
            && once.Some? && |once.value.rows| == 1 && [TENANT, UNIT, NAME] <= once.value.headers
            && Value(once.value, 0, TENANT, normalize) == t && Value(once.value, 0, UNIT, normalize) == u
  {
    var main, files, joins := MainFile([["", u, n]]), Files(t, a, u, n), [JoinFile([[u, n, t]])];
    FilesAre(t, a, u, n, normalize);
    Columns(normalize);
    JoinColumnsAt(normalize);
    NobodyLinked(u, n, UnitLink.HeldBy([[t, a]], 0, 1));
    assert UnitLink.Attach(main, files[0], normalize) == UnitLink.Ok(main);
    assert Blank("");
    hide HeaderIndex; hide UnitLink.Attach; hide Merged; hide FirstOffer; hide Text.Trim; hide KeyOf; hide IsUnitLink;
    hide DistinctHeaders; hide JoinFiles; hide AllDiffer;
    MergedThroughLink(main, files, 0, normalize, lower);
    MergedWithoutLinks(main, joins, normalize, lower);
    MergeFillsBlanks(main, joins, 0, TENANT, normalize, lower);
    TenantGiven(t, u, n, normalize, lower);
    MergedColumnsKept(main, joins, 0, normalize, lower);
  }

  /** A row without a tenant is given one by a joined file, and the link file knows that tenant at
    * another unit: merging again moves the row there.
    */
  lemma {:induction false} OfferedTenantMoves(t: string, a: string, u: string, n: string, normalize: Naming,
                                              lower: Lowering)
    requires AllDiffer(normalize) && IsValue(t) && IsValue(a) && u != a
    ensures var once := Merged(MainFile([["", u, n]]), Files(t, a, u, n), normalize, lower);
            once.Some? && Merged(once.value, Files(t, a, u, n), normalize, lower) != once
  {
    var main, files := MainFile([["", u, n]]), Files(t, a, u, n);
    FirstMerge(t, a, u, n, normalize, lower);
    FilesAre(t, a, u, n, normalize);
    MergeAgainIff(main, files, 0, normalize, lower);
    var m := Merged(main, files, normalize, lower).value;
    if IsSettled(m, files[0], normalize) { SettledUnit(m, t, a, normalize); }
  }

  lemma {:induction false} SettledUnit(m: Document, t: string, a: string, normalize: Naming)
    requires AllDiffer(normalize) && IsValue(t) && IsValue(a) && |m.rows| == 1
    requires IsSettled(m, LinkFile([[t, a]]), normalize) && Value(m, 0, TENANT, normalize) == t
    ensures Value(m, 0, UNIT, normalize) == a
  {
    Columns(normalize);
    UnitsListed([[t, a]], t);
    assert Map([[t, a]], UnitLink.CellAt(1)) == [a];
    AlreadyDistinct([a]);
    hide HeaderIndex; hide UnitLink.HeldBy; hide Text.Trim;
    var tenant, unit := HeaderIndex(m.headers, TENANT, normalize).value, HeaderIndex(m.headers, UNIT, normalize).value;
    var held := HeldIn(LinkFile([[t, a]]), normalize);
    assert UnitLink.Trimmed(m.rows[0], tenant) == t;
    assert Stands(m.rows, tenant, unit, held, t);
    var from: nat :| StandsAt(m.rows, tenant, unit, held, t, from);
  }
}
