/** Parsed tables and their header lookup. */
module Csv {
  import opened Options

  type Row = seq<string>

  datatype Document = Document(headers: seq<string>, rows: seq<Row>)

  /** How header names are compared: `normalize` drops case, spaces and underscores. */
  type Naming = string -> string

  /** The first column whose name compares equal. */
  function HeaderIndex(headers: seq<string>, name: string, normalize: Naming): (r: Option<nat>)
    ensures r.Some? ==> r.value < |headers| && normalize(headers[r.value]) == normalize(name)
    ensures r.Some? ==> forall i :: 0 <= i < r.value ==> normalize(headers[i]) != normalize(name)
    ensures r.None? ==> forall i :: 0 <= i < |headers| ==> normalize(headers[i]) != normalize(name)
  {
    if headers == [] then None
    else
      var n := |headers| - 1;
      var earlier := HeaderIndex(headers[..n], name, normalize);
      if earlier.Some? then earlier else if normalize(headers[n]) == normalize(name) then Some(n) else None
  }

  /** The cell, or blank where the row is too short. */
  function Cell(row: Row, i: nat): string { if i < |row| then row[i] else "" }

  /** The row with one cell set, padded as far as needed. */
  function SetCell(row: Row, i: nat, value: string): (r: Row)
    ensures |r| == if i < |row| then |row| else i + 1
    ensures Cell(r, i) == value
    ensures forall j :: 0 <= j < |r| && j != i ==> r[j] == Cell(row, j)
  {
    if i < |row| then row[i := value] else row + seq(i - |row|, _ => "") + [value]
  }
}
