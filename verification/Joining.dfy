/** Filling a tenant file's blanks from other reports of the same tenants. */
module Joining {
  import opened Options
  import opened Csv
  import opened Lists
  import Text
  import UnitLink

  /** How rows are matched: `lower` drops case. */
  type Lowering = string -> string

  type Key = (string, string)

  const UNIT := UnitLink.UNIT
  const NAME := UnitLink.NAME

  function RowKey(unit: string, name: string, lower: Lowering): Key {
    (lower(Text.Trim(unit)), Text.Join(Text.Words(lower(Text.Trim(name))), " "))
  }

  /** Rows meet exactly when their units agree up to outer whitespace and case, and their
    * names word by word up to case.
    */
  lemma {:induction false} KeysMeet(unit: string, name: string, unit': string, name': string, lower: Lowering)
    ensures RowKey(unit, name, lower) == RowKey(unit', name', lower) <==>
            lower(Text.Trim(unit)) == lower(Text.Trim(unit'))
                && Text.Words(lower(Text.Trim(name))) == Text.Words(lower(Text.Trim(name')))
  {
    var ws, ws' := Text.Words(lower(Text.Trim(name))), Text.Words(lower(Text.Trim(name')));
    forall i | 0 <= i < |ws| ensures Text.IsWord(ws[i]) { assert ws[i] in ws; }
    forall i | 0 <= i < |ws'| ensures Text.IsWord(ws'[i]) { assert ws'[i] in ws'; }
    Text.WordsOfJoin(ws);
    Text.WordsOfJoin(ws');
    hide Text.Words; hide Text.Trim; hide Text.Join;
  }

  // ---------------------------------------------------------------- one join file

  predicate HasKey(row: Row, unit: nat, name: nat, key: Key, lower: Lowering) {
    unit < |row| && name < |row| && RowKey(row[unit], row[name], lower) == key
  }

  /** The first row with the key. */
  function FirstMatch(rows: seq<Row>, unit: nat, name: nat, key: Key, lower: Lowering): Option<Row> {
    if rows == [] then None
    else
      var n := |rows| - 1;
      var earlier := FirstMatch(rows[..n], unit, name, key, lower);
      if earlier.Some? then earlier else if HasKey(rows[n], unit, name, key, lower) then Some(rows[n]) else None
  }

  ghost predicate IsFirst(rows: seq<Row>, i: nat, unit: nat, name: nat, key: Key, lower: Lowering) {
    && i < |rows| && HasKey(rows[i], unit, name, key, lower)
    && forall j :: 0 <= j < i ==> !HasKey(rows[j], unit, name, key, lower)
  }

  lemma {:induction false} FirstMatchIsFirst(rows: seq<Row>, unit: nat, name: nat, key: Key, lower: Lowering)
    ensures var r := FirstMatch(rows, unit, name, key, lower);
            && (r.Some? ==> exists i: nat :: IsFirst(rows, i, unit, name, key, lower) && r.value == rows[i])
            && (r.None? ==> forall i :: 0 <= i < |rows| ==> !HasKey(rows[i], unit, name, key, lower))
  {
    hide HasKey;
    if rows != [] {
      var n := |rows| - 1;
      FirstMatchIsFirst(rows[..n], unit, name, key, lower);
      var earlier := FirstMatch(rows[..n], unit, name, key, lower);
      if earlier.Some? {
        var i: nat :| IsFirst(rows[..n], i, unit, name, key, lower) && earlier.value == rows[..n][i];
        assert IsFirst(rows, i, unit, name, key, lower);
      } else if HasKey(rows[n], unit, name, key, lower) {
        assert IsFirst(rows, n, unit, name, key, lower);
      }
    }
  }

  method ReadMatches(rows: seq<Row>, unit: nat, name: nat, lower: Lowering) returns (byKey: map<Key, Row>)
    ensures forall key :: FirstMatch(rows, unit, name, key, lower) == if key in byKey then Some(byKey[key]) else None
  {
    byKey := map[];
    for i := 0 to |rows|
      invariant forall key :: FirstMatch(rows[..i], unit, name, key, lower) == if key in byKey then Some(byKey[key])
                else None
    {
      assert rows[..i + 1][..i] == rows[..i];
      if unit < |rows[i]| && name < |rows[i]| {
        var key := RowKey(rows[i][unit], rows[i][name], lower);
        if key !in byKey { byKey := byKey[key := rows[i]]; }
      }
    }
    assert rows[..|rows|] == rows;
  }

  /** The columns of a join file other than the two it is matched on. */
  function Extras(n: nat, unit: nat, name: nat): (r: seq<nat>)
    ensures forall k :: 0 <= k < |r| ==> r[k] < n && r[k] != unit && r[k] != name
    ensures forall j, k :: 0 <= j < k < |r| ==> r[j] < r[k]
    ensures forall i :: 0 <= i < n && i != unit && i != name ==> i in r
  {
    if n == 0 then [] else Extras(n - 1, unit, name) + if n - 1 != unit && n - 1 != name then [n - 1] else []
  }

  /** A column for `header`, unless there is one. */
  function WithColumn(doc: Document, header: string, normalize: Naming): Document {
    if HeaderIndex(doc.headers, header, normalize).Some? then doc
    else Document(doc.headers + [header], Map(doc.rows, Padded))
  }

  function Padded(row: Row): Row { row + [""] }

  function WithColumns(doc: Document, headers: seq<string>, extras: seq<nat>, normalize: Naming): Document
    requires forall k :: 0 <= k < |extras| ==> extras[k] < |headers|
  {
    if extras == [] then doc
    else
      var n := |extras| - 1;
      WithColumn(WithColumns(doc, headers, extras[..n], normalize), headers[extras[n]], normalize)
  }

  method AddColumns(doc: Document, headers: seq<string>, extras: seq<nat>, normalize: Naming) returns (wide: Document)
    requires forall k :: 0 <= k < |extras| ==> extras[k] < |headers|
    ensures wide == WithColumns(doc, headers, extras, normalize)
  {
    wide := doc;
    for k := 0 to |extras|
      invariant wide == WithColumns(doc, headers, extras[..k], normalize)
    {
      assert extras[..k + 1][..k] == extras[..k];
      var header := headers[extras[k]];
      if HeaderIndex(wide.headers, header, normalize).None? {
        var rows := wide.rows;
        for i := 0 to |rows|
          invariant |rows| == |wide.rows|
          invariant forall j :: 0 <= j < |rows| ==> rows[j] == if j < i then Padded(wide.rows[j]) else wide.rows[j]
        {
          rows := rows[i := rows[i] + [""]];
        }
        assert rows == Map(wide.rows, Padded);
        wide := Document(wide.headers + [header], rows);
      }
    }
    assert extras[..|extras|] == extras;
  }

  predicate Blank(value: string) { Text.Trim(value) == "" }

  /** A blank takes what is offered; anything else stays. */
  function Fill(was: string, offer: string): string { if Blank(was) && offer != "" then offer else was }

  /** The row after filling the columns of `extras` from `source`. */
  function Filled(row: Row, source: Row, headers: seq<string>, wide: seq<string>, extras: seq<nat>,
                  normalize: Naming): Row
    requires forall k :: 0 <= k < |extras| ==> extras[k] < |headers|
  {
    if extras == [] then row
    else
      var n := |extras| - 1;
      var before := Filled(row, source, headers, wide, extras[..n], normalize);
      var dst := HeaderIndex(wide, headers[extras[n]], normalize);
      if dst.None? then before else FilledCell(before, dst.value, Text.Trim(Cell(source, extras[n])))
  }

  function FilledCell(row: Row, dst: nat, offer: string): Row {
    if offer != "" && Blank(Cell(row, dst)) then SetCell(row, dst, offer) else row
  }

  method FillRow(row: Row, source: Row, headers: seq<string>, wide: seq<string>, extras: seq<nat>, normalize: Naming)
    returns (filled: Row)
    requires forall k :: 0 <= k < |extras| ==> extras[k] < |headers|
    ensures filled == Filled(row, source, headers, wide, extras, normalize)
  {
    filled := row;
    for k := 0 to |extras|
      invariant filled == Filled(row, source, headers, wide, extras[..k], normalize)
    {
      assert extras[..k + 1][..k] == extras[..k];
      var dst := HeaderIndex(wide, headers[extras[k]], normalize);
      if dst.Some? {
        var value := Text.Trim(Cell(source, extras[k]));
        assert Text.Trim("") == "";
        if value != "" && (dst.value >= |filled| || Text.Trim(filled[dst.value]) == "") {
          filled := SetCell(filled, dst.value, value);
        }
      }
    }
    assert extras[..|extras|] == extras;
  }

  /** A row of the main file after one join file. */
  function JoinedRow(row: Row, unit: nat, name: nat, join: Document, jUnit: nat, jName: nat, wide: seq<string>,
                     normalize: Naming, lower: Lowering): Row
  {
    if unit >= |row| || name >= |row| then row
    else
      var source := FirstMatch(join.rows, jUnit, jName, RowKey(row[unit], row[name], lower), lower);
      if source.None? then row
      else
        Filled(row, source.value, join.headers, wide, Extras(|join.headers|, jUnit, jName), normalize)
  }

  function RowJoin(unit: nat, name: nat, join: Document, jUnit: nat, jName: nat, wide: seq<string>,
                   normalize: Naming, lower: Lowering): Row -> Row
  {
    row => JoinedRow(row, unit, name, join, jUnit, jName, wide, normalize, lower)
  }

  /** The main file after one join file, or nothing if that cannot be matched. */
  function Joined(doc: Document, unit: nat, name: nat, join: Document, normalize: Naming,
                  lower: Lowering): Option<Document>
  {
    var jUnit, jName := HeaderIndex(join.headers, UNIT, normalize), HeaderIndex(join.headers, NAME, normalize);
    if jUnit.None? || jName.None? then None
    else
      var wide := WithColumns(doc, join.headers, Extras(|join.headers|, jUnit.value, jName.value), normalize);
      Some(wide.(rows := Map(wide.rows,
                             RowJoin(unit, name, join, jUnit.value, jName.value, wide.headers, normalize, lower))))
  }

  method JoinOne(doc: Document, unit: nat, name: nat, join: Document, normalize: Naming, lower: Lowering)
    returns (result: Option<Document>)
    ensures result == Joined(doc, unit, name, join, normalize, lower)
  {
    hide HeaderIndex; hide FirstMatch; hide WithColumns; hide Filled; hide Extras; hide RowKey;
    var jUnit, jName := HeaderIndex(join.headers, UNIT, normalize), HeaderIndex(join.headers, NAME, normalize);
    if jUnit.None? || jName.None? { return None; }
    var byKey := ReadMatches(join.rows, jUnit.value, jName.value, lower);
    var extras := Extras(|join.headers|, jUnit.value, jName.value);
    var wide := AddColumns(doc, join.headers, extras, normalize);
    var rows := wide.rows;
    for i := 0 to |rows|
      invariant |rows| == |wide.rows|
      invariant forall j :: 0 <= j < i ==>
                  rows[j] == JoinedRow(wide.rows[j], unit, name, join, jUnit.value, jName.value, wide.headers,
                                       normalize, lower)
      invariant forall j :: i <= j < |rows| ==> rows[j] == wide.rows[j]
    {
      var row := rows[i];
      if unit < |row| && name < |row| {
        var key := RowKey(row[unit], row[name], lower);
        if key in byKey {
          var filled := FillRow(row, byKey[key], join.headers, wide.headers, extras, normalize);
          rows := rows[i := filled];
        }
      }
    }
    assert rows == Map(wide.rows, RowJoin(unit, name, join, jUnit.value, jName.value, wide.headers, normalize, lower));
    result := Some(wide.(rows := rows));
  }

  // ---------------------------------------------------------------- all files

  predicate IsUnitLink(doc: Document, normalize: Naming) {
    && HeaderIndex(doc.headers, UnitLink.TENANT_ID, normalize).Some?
    && HeaderIndex(doc.headers, UNIT, normalize).Some?
    && HeaderIndex(doc.headers, NAME, normalize).None?
  }

  /** The main file after the link files among the first `n`. */
  ghost function AfterLinks(primary: Document, files: seq<Document>, n: nat, normalize: Naming): Option<Document>
    requires n <= |files|
  {
    if n == 0 then Some(primary)
    else
      var before := AfterLinks(primary, files, n - 1, normalize);
      if before.None? || !IsUnitLink(files[n - 1], normalize) then before
      else
        var attached := UnitLink.Attach(before.value, files[n - 1], normalize);
        if attached.Ok? then Some(attached.document) else None
  }

  /** The main file after the other files among the first `n`. */
  function AfterJoins(doc: Document, unit: nat, name: nat, files: seq<Document>, n: nat, normalize: Naming,
                      lower: Lowering): Option<Document>
    requires n <= |files|
  {
    if n == 0 then Some(doc)
    else
      var before := AfterJoins(doc, unit, name, files, n - 1, normalize, lower);
      if before.None? || IsUnitLink(files[n - 1], normalize) then before
      else Joined(before.value, unit, name, files[n - 1], normalize, lower)
  }

  /** Links first, so that every other file sees the real units. */
  ghost function Merged(primary: Document, files: seq<Document>, normalize: Naming, lower: Lowering): Option<Document> {
    var linked := AfterLinks(primary, files, |files|, normalize);
    if linked.None? then None
    else
      var unit, name :=
          HeaderIndex(linked.value.headers, UNIT, normalize), HeaderIndex(linked.value.headers, NAME, normalize);
      if unit.None? || name.None? then None
      else AfterJoins(linked.value, unit.value, name.value, files, |files|, normalize, lower)
  }

  lemma {:induction false} LinksStayRefused(primary: Document, files: seq<Document>, n: nat, m: nat, normalize: Naming)
    requires n <= m <= |files| && AfterLinks(primary, files, n, normalize).None?
    ensures AfterLinks(primary, files, m, normalize).None?
    decreases m
  {
    hide UnitLink.Attach; hide IsUnitLink;
    if n < m { LinksStayRefused(primary, files, n, m - 1, normalize); }
  }

  lemma {:induction false} JoinsStayRefused(doc: Document, unit: nat, name: nat, files: seq<Document>, n: nat, m: nat,
                                            normalize: Naming, lower: Lowering)
    requires n <= m <= |files| && AfterJoins(doc, unit, name, files, n, normalize, lower).None?
    ensures AfterJoins(doc, unit, name, files, m, normalize, lower).None?
    decreases m
  {
    hide Joined; hide IsUnitLink;
    if n < m { JoinsStayRefused(doc, unit, name, files, n, m - 1, normalize, lower); }
  }

  method MergeJoined(primary: Document, files: seq<Document>, normalize: Naming, lower: Lowering)
      returns (result: Option<Document>)
    ensures result == Merged(primary, files, normalize, lower)
  {
    hide Joined; hide UnitLink.Attach; hide IsUnitLink; hide HeaderIndex;
    var doc := primary;
    for k := 0 to |files|
      invariant AfterLinks(primary, files, k, normalize) == Some(doc)
    {
      if IsUnitLink(files[k], normalize) {
        var attached := UnitLink.AttachUnits(doc, files[k], normalize);
        if attached.Err? {
          LinksStayRefused(primary, files, k + 1, |files|, normalize);
          return None;
        }
        doc := attached.document;
      }
    }
    ghost var linked := doc;
    var unit, name := HeaderIndex(doc.headers, UNIT, normalize), HeaderIndex(doc.headers, NAME, normalize);
    if unit.None? || name.None? { return None; }
    for k := 0 to |files|
      invariant AfterJoins(linked, unit.value, name.value, files, k, normalize, lower) == Some(doc)
    {
      if !IsUnitLink(files[k], normalize) {
        var joined := JoinOne(doc, unit.value, name.value, files[k], normalize, lower);
        if joined.None? {
          JoinsStayRefused(linked, unit.value, name.value, files, k + 1, |files|, normalize, lower);
          return None;
        }
        doc := joined.value;
      }
    }
    result := Some(doc);
  }
}
