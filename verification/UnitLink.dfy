/** Spreading tenants over the units a link file says they hold. */
module UnitLink {
  import opened Options
  import opened Csv
  import opened Lists
  import Text

  datatype Result = Ok(document: Document) | Err

  const TENANT_ID := "TenantId"
  const UNIT := "UnitNumber"
  const NAME := "FirtLast"

  // ---------------------------------------------------------------- specification

  function Trimmed(row: Row, i: nat): string { Text.Trim(Cell(row, i)) }

  /** The units on the link rows of tenant `t`, blanks left out. */
  function UnitColumn(rows: seq<Row>, lTenant: nat, lUnit: nat, t: string): seq<string> {
    Map(Keep(rows, OfHolder(lTenant, lUnit, t)), CellAt(lUnit))
  }

  function OfHolder(lTenant: nat, lUnit: nat, t: string): Row -> bool {
    r => Trimmed(r, lTenant) == t && Trimmed(r, lUnit) != ""
  }

  /** The distinct units tenant `t` holds, in file order; a blank tenant holds none. */
  function UnitsOf(rows: seq<Row>, lTenant: nat, lUnit: nat, t: string): seq<string> {
    if t == "" then [] else Distinct(UnitColumn(rows, lTenant, lUnit, t))
  }

  /** Who holds what. */
  type Holding = string -> seq<string>

  predicate Linked(held: Holding, t: string) { held(t) != [] }

  function OfTenant(tenant: nat, t: string): Row -> bool { r => Trimmed(r, tenant) == t }
  function OfLinked(tenant: nat, held: Holding): Row -> bool { r => Linked(held, Trimmed(r, tenant)) }
  function OfUnlinked(tenant: nat, held: Holding): Row -> bool { r => !Linked(held, Trimmed(r, tenant)) }
  function CellAt(i: nat): Row -> string { r => Trimmed(r, i) }

  function RowsOf(rows: seq<Row>, tenant: nat, t: string): seq<Row> {
    Distinct(Keep(rows, OfTenant(tenant, t)))
  }

  /** Linked tenants, in order of first appearance. */
  function Tenants(rows: seq<Row>, tenant: nat, held: Holding): seq<string> {
    Distinct(Map(Keep(rows, OfLinked(tenant, held)), CellAt(tenant)))
  }

  function Unlinked(rows: seq<Row>, tenant: nat, held: Holding): seq<Row> {
    Keep(rows, OfUnlinked(tenant, held))
  }

  predicate Assignable(rows: seq<Row>, units: seq<string>) { |rows| == 1 || |rows| == |units| }

  /** One row per unit: the tenant's only row repeated, or its rows in order. */
  function Spread(rows: seq<Row>, units: seq<string>, unit: nat): (r: seq<Row>)
    ensures |r| == if Assignable(rows, units) then |units| else 0
  {
    if !Assignable(rows, units) then []
    else seq(|units|, i requires 0 <= i < |units| => SetCell(rows[if |rows| == 1 then 0 else i], unit, units[i]))
  }

  function Blocks(order: seq<string>, block: string -> seq<Row>): seq<Row> {
    if order == [] then [] else Blocks(order[..|order| - 1], block) + block(order[|order| - 1])
  }

  /** What block each tenant gets. */
  function Blocking(rows: seq<Row>, tenant: nat, unit: nat, held: Holding): string -> seq<Row> {
    t => BlockOf(rows, tenant, unit, held, t)
  }

  function BlockOf(rows: seq<Row>, tenant: nat, unit: nat, held: Holding, t: string): seq<Row> {
    Spread(RowsOf(rows, tenant, t), held(t), unit)
  }

  /** Every linked tenant's rows can be given its units without guessing. */
  ghost predicate AllAssignable(rows: seq<Row>, tenant: nat, held: Holding) {
    forall t :: t in Tenants(rows, tenant, held) ==> Assignable(RowsOf(rows, tenant, t), held(t))
  }

  /** The rows with units attached: untouched rows first, then each linked tenant's block. */
  function Attached(rows: seq<Row>, tenant: nat, unit: nat, held: Holding): seq<Row> {
    Unlinked(rows, tenant, held) + Blocks(Tenants(rows, tenant, held), Blocking(rows, tenant, unit, held))
  }

  // ---------------------------------------------------------------- what is read of the files

  /** A tenant's units are the non-blank ones on its link rows, each once, by first occurrence. */
  lemma {:induction false} UnitsAre(rows: seq<Row>, lTenant: nat, lUnit: nat, t: string) returns (ix: seq<nat>)
    requires t != ""
    ensures var units := UnitsOf(rows, lTenant, lUnit, t);
            && |ix| == |units| && Ascending(ix) && NoRepeats(units)
            && (forall i :: 0 <= i < |ix| ==>
                  ix[i] < |rows| && Trimmed(rows[ix[i]], lTenant) == t && Trimmed(rows[ix[i]], lUnit) == units[i] != "")
            && (forall i, j :: 0 <= i < |ix| && 0 <= j < ix[i] && Trimmed(rows[j], lTenant) == t ==>
                  Trimmed(rows[j], lUnit) != units[i])
            && (forall k :: 0 <= k < |rows| && Trimmed(rows[k], lTenant) == t && Trimmed(rows[k], lUnit) != "" ==>
                  Trimmed(rows[k], lUnit) in units)
  {
    hide Trimmed; hide Keep; hide Distinct;
    ix := FirstSeen(rows, OfHolder(lTenant, lUnit, t), CellAt(lUnit));
  }

  /** The linked tenants are those on the rows of the main file, each once, by first occurrence. */
  lemma {:induction false} TenantsAre(rows: seq<Row>, tenant: nat, held: Holding) returns (ix: seq<nat>)
    ensures var order := Tenants(rows, tenant, held);
            && |ix| == |order| && Ascending(ix) && NoRepeats(order)
            && (forall i :: 0 <= i < |ix| ==>
                  ix[i] < |rows| && Trimmed(rows[ix[i]], tenant) == order[i] && held(order[i]) != [])
            && (forall i, j :: 0 <= i < |ix| && 0 <= j < ix[i] ==> Trimmed(rows[j], tenant) != order[i])
            && (forall k :: 0 <= k < |rows| && held(Trimmed(rows[k], tenant)) != [] ==>
                  Trimmed(rows[k], tenant) in order)
  {
    hide Trimmed; hide Keep; hide Distinct;
    ix := FirstSeen(rows, OfLinked(tenant, held), CellAt(tenant));
  }

  /** A tenant's rows are those with its id, exact repeats left out, by first occurrence. */
  lemma {:induction false} RowsAre(rows: seq<Row>, tenant: nat, t: string) returns (ix: seq<nat>)
    ensures var mine := RowsOf(rows, tenant, t);
            && |ix| == |mine| && Ascending(ix) && NoRepeats(mine)
            && (forall i :: 0 <= i < |ix| ==>
                ix[i] < |rows| && Trimmed(rows[ix[i]], tenant) == t && mine[i] == rows[ix[i]])
            && (forall i, j :: 0 <= i < |ix| && 0 <= j < ix[i] ==> rows[j] != mine[i])
            && (forall k :: 0 <= k < |rows| && Trimmed(rows[k], tenant) == t ==> rows[k] in mine)
  {
    hide Trimmed; hide Distinct;
    assert Map(Keep(rows, OfTenant(tenant, t)), (r: Row) => r) == Keep(rows, OfTenant(tenant, t));
    hide Keep;
    ix := FirstSeen(rows, OfTenant(tenant, t), (r: Row) => r);
  }

  /** The rows left alone are all those of tenants that hold nothing, in order. */
  lemma {:induction false} UnlinkedAre(rows: seq<Row>, tenant: nat, held: Holding) returns (ix: seq<nat>)
    ensures var kept := Unlinked(rows, tenant, held);
            && |ix| == |kept| && Ascending(ix)
            && (forall i :: 0 <= i < |ix| ==>
                  ix[i] < |rows| && held(Trimmed(rows[ix[i]], tenant)) == [] && kept[i] == rows[ix[i]])
            && (forall k :: 0 <= k < |rows| && held(Trimmed(rows[k], tenant)) == [] ==> k in ix)
  {
    hide Trimmed; hide Keep;
    ix := KeepIndices(rows, OfUnlinked(tenant, held));
  }

  // ---------------------------------------------------------------- the blocks

  /** Each row of `t`'s block is one of `t`'s rows, its only one or the one at the unit's
    * place, with the unit cell set; the units are `t`'s, each once, in order.
    */
  lemma {:induction false} BlockRows(rows: seq<Row>, tenant: nat, unit: nat, held: Holding, t: string)
    requires tenant != unit && Assignable(RowsOf(rows, tenant, t), held(t)) && t != ""
    ensures var block := BlockOf(rows, tenant, unit, held, t);
            && |block| == |held(t)|
            && forall i :: 0 <= i < |block| ==>
                 && Cell(block[i], unit) == held(t)[i] && Trimmed(block[i], tenant) == t
                 && exists r :: r in rows && Trimmed(r, tenant) == t && block[i] == SetCell(r, unit, held(t)[i])
                                && (|RowsOf(rows, tenant, t)| > 1 ==> r == RowsOf(rows, tenant, t)[i])
  {
    var mine := RowsOf(rows, tenant, t);
    var block := BlockOf(rows, tenant, unit, held, t);
    DistinctFacts(Keep(rows, OfTenant(tenant, t)));
    KeepMembers(rows, OfTenant(tenant, t));
    forall i | 0 <= i < |block|
      ensures Cell(block[i], unit) == held(t)[i] && Trimmed(block[i], tenant) == t
      ensures exists r :: r in rows && Trimmed(r, tenant) == t && block[i] == SetCell(r, unit, held(t)[i])
                          && (|RowsOf(rows, tenant, t)| > 1 ==> r == RowsOf(rows, tenant, t)[i])
    {
      var r := mine[if |mine| == 1 then 0 else i];
      assert r in mine;
      assert block[i] == SetCell(r, unit, held(t)[i]);
      assert Text.Trim("") == "";
      assert Cell(block[i], tenant) == Cell(r, tenant);
    }
  }

  // ---------------------------------------------------------------- attaching twice

  /** Every tenant in `order` has a block, of its own rows. */
  ghost predicate OwnBlocks(order: seq<string>, block: string -> seq<Row>, tenant: nat) {
    && NoRepeats(order)
    && (forall t :: t in order ==> block(t) != [])
    && (forall t, i :: t in order && 0 <= i < |block(t)| ==> Trimmed(block(t)[i], tenant) == t)
  }

  lemma {:induction false} FewerBlocks(order: seq<string>, block: string -> seq<Row>, tenant: nat)
    requires OwnBlocks(order, block, tenant) && order != []
    ensures OwnBlocks(order[..|order| - 1], block, tenant) && order[|order| - 1] !in order[..|order| - 1]
    ensures order[|order| - 1] in order && order == order[..|order| - 1] + [order[|order| - 1]]
  {
  }

  lemma {:induction false} KeepBlocks(order: seq<string>, block: string -> seq<Row>, tenant: nat, t: string)
    requires OwnBlocks(order, block, tenant)
    ensures Keep(Blocks(order, block), OfTenant(tenant, t)) == if t in order then block(t) else []
    decreases |order|
  {
    if order != [] {
      var front, last := order[..|order| - 1], order[|order| - 1];
      FewerBlocks(order, block, tenant);
      KeepBlocks(front, block, tenant, t);
      KeepAppend(Blocks(front, block), block(last), OfTenant(tenant, t));
      if t == last { KeepAll(block(last), OfTenant(tenant, t)); } else { KeepNone(block(last), OfTenant(tenant, t)); }
    }
  }

  lemma {:induction false} TenantsOfBlocks(order: seq<string>, block: string -> seq<Row>, tenant: nat)
    requires OwnBlocks(order, block, tenant)
    ensures Distinct(Map(Blocks(order, block), CellAt(tenant))) == order
    ensures forall r :: r in Blocks(order, block) ==> Trimmed(r, tenant) in order
    decreases |order|
  {
    if order != [] {
      var front, last := order[..|order| - 1], order[|order| - 1];
      FewerBlocks(order, block, tenant);
      TenantsOfBlocks(front, block, tenant);
      var seen, more := Map(Blocks(front, block), CellAt(tenant)), Map(block(last), CellAt(tenant));
      MapAppend(Blocks(front, block), block(last), CellAt(tenant));
      DistinctFacts(seen);
      OneMore(seen, more, last);
    }
  }

  lemma {:induction false} OneMore(seen: seq<string>, more: seq<string>, t: string)
    requires more != [] && t !in seen && forall i :: 0 <= i < |more| ==> more[i] == t
    ensures Distinct(seen + more) == Distinct(seen) + [t]
  {
    DistinctSnoc(seen, t);
    assert seen + more == seen + [t] + more[1..];
    DistinctRepeats(seen + [t], more[1..]);
  }

  ghost predicate GoodHolding(held: Holding) { held("") == [] && forall t :: NoRepeats(held(t)) }

  lemma {:induction false} TenantsLinked(rows: seq<Row>, tenant: nat, held: Holding)
    ensures NoRepeats(Tenants(rows, tenant, held))
    ensures forall t :: t in Tenants(rows, tenant, held) ==> Linked(held, t)
  {
    var kept := Keep(rows, OfLinked(tenant, held));
    DistinctFacts(Map(kept, CellAt(tenant)));
    KeepMembers(rows, OfLinked(tenant, held));
    forall t | t in Map(kept, CellAt(tenant)) ensures Linked(held, t) {
      var i :| 0 <= i < |kept| && t == Trimmed(kept[i], tenant);
      assert kept[i] in kept;
    }
  }

  lemma {:induction false} BlocksAreOwn(rows: seq<Row>, tenant: nat, unit: nat, held: Holding)
    requires tenant != unit && GoodHolding(held) && AllAssignable(rows, tenant, held)
    ensures OwnBlocks(Tenants(rows, tenant, held), Blocking(rows, tenant, unit, held), tenant)
  {
    TenantsLinked(rows, tenant, held);
    forall t | t in Tenants(rows, tenant, held)
      ensures BlockOf(rows, tenant, unit, held, t) != []
      ensures forall i :: 0 <= i < |BlockOf(rows, tenant, unit, held, t)| ==>
              Trimmed(BlockOf(rows, tenant, unit, held, t)[i], tenant) == t
    {
      BlockRows(rows, tenant, unit, held, t);
    }
  }

  /** Among the attached rows, `t`'s are its block, and a linked tenant not in the file has none. */
  lemma {:induction false} AttachedRowsOf(rows: seq<Row>, tenant: nat, unit: nat, held: Holding, t: string)
    requires tenant != unit && GoodHolding(held) && AllAssignable(rows, tenant, held) && Linked(held, t)
    ensures Keep(Attached(rows, tenant, unit, held), OfTenant(tenant, t)) ==
            if t in Tenants(rows, tenant, held) then BlockOf(rows, tenant, unit, held, t) else []
  {
    var kept, order, block :=
        Unlinked(rows, tenant, held), Tenants(rows, tenant, held), Blocking(rows, tenant, unit, held);
    BlocksAreOwn(rows, tenant, unit, held);
    KeepAppend(kept, Blocks(order, block), OfTenant(tenant, t));
    KeepMembers(rows, OfUnlinked(tenant, held));
    KeepNone(kept, OfTenant(tenant, t));
    KeepBlocks(order, block, tenant, t);
  }

  lemma {:induction false} AttachedParts(rows: seq<Row>, tenant: nat, unit: nat, held: Holding)
    requires tenant != unit && GoodHolding(held) && AllAssignable(rows, tenant, held)
    ensures var blocks := Blocks(Tenants(rows, tenant, held), Blocking(rows, tenant, unit, held));
            && (forall r :: r in Unlinked(rows, tenant, held) ==> !Linked(held, Trimmed(r, tenant)))
            && (forall r :: r in blocks ==> Linked(held, Trimmed(r, tenant)))
            && Distinct(Map(blocks, CellAt(tenant))) == Tenants(rows, tenant, held)
  {
    BlocksAreOwn(rows, tenant, unit, held);
    TenantsLinked(rows, tenant, held);
    TenantsOfBlocks(Tenants(rows, tenant, held), Blocking(rows, tenant, unit, held), tenant);
    KeepMembers(rows, OfUnlinked(tenant, held));
  }

  lemma {:induction false} AttachedTenants(rows: seq<Row>, tenant: nat, unit: nat, held: Holding)
    requires tenant != unit && GoodHolding(held) && AllAssignable(rows, tenant, held)
    ensures Tenants(Attached(rows, tenant, unit, held), tenant, held) == Tenants(rows, tenant, held)
    ensures Unlinked(Attached(rows, tenant, unit, held), tenant, held) == Unlinked(rows, tenant, held)
  {
    var kept, blocks :=
        Unlinked(rows, tenant, held), Blocks(Tenants(rows, tenant, held), Blocking(rows, tenant, unit, held));
    AttachedParts(rows, tenant, unit, held);
    hide Blocks; hide Keep; hide Trimmed; hide Distinct; hide Blocking;
    KeepAppend(kept, blocks, OfLinked(tenant, held));
    KeepNone(kept, OfLinked(tenant, held));
    KeepAll(blocks, OfLinked(tenant, held));
    KeepAppend(kept, blocks, OfUnlinked(tenant, held));
    KeepAll(kept, OfUnlinked(tenant, held));
    KeepNone(blocks, OfUnlinked(tenant, held));
    assert [] + blocks == blocks && kept + [] == kept;
  }

  lemma {:induction false} SpreadAgain(rows: seq<Row>, units: seq<string>, unit: nat)
    requires Assignable(rows, units) && NoRepeats(units) && units != []
    ensures var block := Spread(rows, units, unit);
            NoRepeats(block) && Assignable(block, units) && Spread(block, units, unit) == block
  {
    var block := Spread(rows, units, unit);
    forall i, j | 0 <= i < j < |block| ensures block[i] != block[j] {
      assert Cell(block[i], unit) == units[i] && Cell(block[j], unit) == units[j];
    }
    forall i | 0 <= i < |block| ensures SetCell(block[i], unit, units[i]) == block[i] {
      assert Cell(block[i], unit) == units[i];
    }
  }

  /** Attaching the same units again succeeds and changes nothing. */
  lemma {:induction false} AttachTwice(rows: seq<Row>, tenant: nat, unit: nat, held: Holding)
    requires tenant != unit && GoodHolding(held) && AllAssignable(rows, tenant, held)
    ensures AllAssignable(Attached(rows, tenant, unit, held), tenant, held)
    ensures Attached(Attached(rows, tenant, unit, held), tenant, unit, held) == Attached(rows, tenant, unit, held)
  {
    var out, order := Attached(rows, tenant, unit, held), Tenants(rows, tenant, held);
    AttachedTenants(rows, tenant, unit, held);
    TenantsLinked(rows, tenant, held);
    forall t | t in order
      ensures Assignable(RowsOf(out, tenant, t), held(t))
      ensures Blocking(out, tenant, unit, held)(t) == Blocking(rows, tenant, unit, held)(t)
    {
      AttachedRowsOf(rows, tenant, unit, held, t);
      SpreadAgain(RowsOf(rows, tenant, t), held(t), unit);
      AlreadyDistinct(BlockOf(rows, tenant, unit, held, t));
    }
    SameBlocks(order, Blocking(out, tenant, unit, held), Blocking(rows, tenant, unit, held));
  }

  lemma {:induction false} SameBlocks(order: seq<string>, f: string -> seq<Row>, g: string -> seq<Row>)
    requires forall t :: t in order ==> f(t) == g(t)
    ensures Blocks(order, f) == Blocks(order, g)
    decreases |order|
  {
    if order != [] {
      SameBlocks(order[..|order| - 1], f, g);
      assert order[|order| - 1] in order;
    }
  }

  // ---------------------------------------------------------------- the loops

  /** `t`'s units after a link row for `tenant` and `unit`. */
  function NextUnits(before: seq<string>, t: string, tenant: string, unit: string): seq<string> {
    if t != "" && t == tenant && unit != "" && unit !in before then before + [unit] else before
  }

  lemma {:induction false} UnitsSnoc(rows: seq<Row>, i: nat, lTenant: nat, lUnit: nat, t: string)
    requires i < |rows|
    ensures UnitsOf(rows[..i + 1], lTenant, lUnit, t) ==
            NextUnits(UnitsOf(rows[..i], lTenant, lUnit, t), t, Trimmed(rows[i], lTenant), Trimmed(rows[i], lUnit))
  {
    var r, column := rows[i], UnitColumn(rows[..i], lTenant, lUnit, t);
    assert rows[..i + 1] == rows[..i] + [r];
    KeepSnoc(rows[..i], r, OfHolder(lTenant, lUnit, t));
    hide Keep; hide Distinct; hide Trimmed;
    if OfHolder(lTenant, lUnit, t)(r) {
      MapSnoc(Keep(rows[..i], OfHolder(lTenant, lUnit, t)), r, CellAt(lUnit));
      DistinctSnoc(column, Trimmed(r, lUnit));
      DistinctFacts(column);
    }
  }

  lemma {:induction false} NoUnitsYet(rows: seq<Row>, lTenant: nat, lUnit: nat, t: string)
    ensures UnitsOf(rows[..0], lTenant, lUnit, t) == []
  {
  }

  method ReadUnits(rows: seq<Row>, lTenant: nat, lUnit: nat) returns (units: map<string, seq<string>>)
    ensures forall t :: UnitsOf(rows, lTenant, lUnit, t) == if t in units then units[t] else []
    ensures forall t :: t in units ==> units[t] != []
  {
    hide UnitsOf; hide Trimmed;
    units := map[];
    forall t ensures UnitsOf(rows[..0], lTenant, lUnit, t) == [] { NoUnitsYet(rows, lTenant, lUnit, t); }
    for i := 0 to |rows|
      invariant forall t :: UnitsOf(rows[..i], lTenant, lUnit, t) == if t in units then units[t] else []
      invariant forall t :: t in units ==> units[t] != []
    {
      var tenant, unit := Trimmed(rows[i], lTenant), Trimmed(rows[i], lUnit);
      forall t
        ensures UnitsOf(rows[..i + 1], lTenant, lUnit, t) ==
                NextUnits(UnitsOf(rows[..i], lTenant, lUnit, t), t, tenant, unit)
      {
        UnitsSnoc(rows, i, lTenant, lUnit, t);
      }
      if tenant == "" || unit == "" { continue; }
      var held := if tenant in units then units[tenant] else [];
      if unit !in held { units := units[tenant := held + [unit]]; }
    }
    assert rows[..|rows|] == rows;
  }

  ghost predicate Represents(units: map<string, seq<string>>, held: Holding) {
    forall t :: (t in units <==> Linked(held, t)) && (t in units ==> units[t] == held(t))
  }

  /** What has been read of the rows, up to `i`. */
  ghost predicate ReadSoFar(rows: seq<Row>, i: nat, tenant: nat, held: Holding, kept: seq<Row>, order: seq<string>,
                            rowsOf: map<string, seq<Row>>)
    requires i <= |rows|
  {
    && kept == Unlinked(rows[..i], tenant, held) && order == Tenants(rows[..i], tenant, held)
    && (forall t :: t in rowsOf <==> t in order)
    && (forall t :: Linked(held, t) ==> RowsOf(rows[..i], tenant, t) == if t in rowsOf then rowsOf[t] else [])
  }

  lemma {:induction false} UnlinkedSnoc(rows: seq<Row>, i: nat, tenant: nat, held: Holding)
    requires i < |rows|
    ensures Unlinked(rows[..i + 1], tenant, held) ==
            if Linked(held, Trimmed(rows[i], tenant)) then Unlinked(rows[..i], tenant, held)
                else Unlinked(rows[..i], tenant, held) + [rows[i]]
  {
    assert rows[..i + 1] == rows[..i] + [rows[i]];
    KeepSnoc(rows[..i], rows[i], OfUnlinked(tenant, held));
  }

  lemma {:induction false} TenantsSnoc(rows: seq<Row>, i: nat, tenant: nat, held: Holding)
    requires i < |rows|
    ensures var t, order := Trimmed(rows[i], tenant), Tenants(rows[..i], tenant, held);
            Tenants(rows[..i + 1], tenant, held) == if Linked(held, t) && t !in order then order + [t] else order
  {
    var t := Trimmed(rows[i], tenant);
    var linked := Keep(rows[..i], OfLinked(tenant, held));
    assert rows[..i + 1] == rows[..i] + [rows[i]];
    KeepSnoc(rows[..i], rows[i], OfLinked(tenant, held));
    hide Keep; hide Distinct; hide Trimmed;
    if Linked(held, t) {
      MapSnoc(linked, rows[i], CellAt(tenant));
      DistinctSnoc(Map(linked, CellAt(tenant)), t);
      DistinctFacts(Map(linked, CellAt(tenant)));
    }
  }

  lemma {:induction false} RowsOfSnoc(rows: seq<Row>, i: nat, tenant: nat, t: string)
    requires i < |rows|
    ensures var mine := RowsOf(rows[..i], tenant, t);
            RowsOf(rows[..i + 1], tenant, t) ==
                if t == Trimmed(rows[i], tenant) && rows[i] !in mine then mine + [rows[i]] else mine
  {
    assert rows[..i + 1] == rows[..i] + [rows[i]];
    KeepSnoc(rows[..i], rows[i], OfTenant(tenant, t));
    DistinctSnoc(Keep(rows[..i], OfTenant(tenant, t)), rows[i]);
    DistinctFacts(Keep(rows[..i], OfTenant(tenant, t)));
  }

  lemma {:induction false} ReadUnlinked(rows: seq<Row>, i: nat, tenant: nat, held: Holding, kept: seq<Row>,
                                        order: seq<string>, rowsOf: map<string, seq<Row>>)
    requires i < |rows| && ReadSoFar(rows, i, tenant, held, kept, order, rowsOf)
             && !Linked(held, Trimmed(rows[i], tenant))
    ensures ReadSoFar(rows, i + 1, tenant, held, kept + [rows[i]], order, rowsOf)
  {
    hide Unlinked; hide Tenants; hide RowsOf; hide Trimmed;
    UnlinkedSnoc(rows, i, tenant, held);
    TenantsSnoc(rows, i, tenant, held);
    forall t | Linked(held, t)
      ensures RowsOf(rows[..i + 1], tenant, t) == RowsOf(rows[..i], tenant, t)
    {
      RowsOfSnoc(rows, i, tenant, t);
    }
  }

  lemma {:induction false} ReadLinked(rows: seq<Row>, i: nat, tenant: nat, held: Holding, kept: seq<Row>,
                                      order: seq<string>, rowsOf: map<string, seq<Row>>)
    requires i < |rows| && ReadSoFar(rows, i, tenant, held, kept, order, rowsOf)
             && Linked(held, Trimmed(rows[i], tenant))
    ensures var t := Trimmed(rows[i], tenant);
            var mine := if t in rowsOf then rowsOf[t] else [];
            ReadSoFar(rows, i + 1, tenant, held, kept, if t in rowsOf then order else order + [t],
                   rowsOf[t := if rows[i] in mine then mine else mine + [rows[i]]])
  {
    hide Unlinked; hide Tenants; hide RowsOf; hide Trimmed;
    UnlinkedSnoc(rows, i, tenant, held);
    TenantsSnoc(rows, i, tenant, held);
    forall t | Linked(held, t)
      ensures var mine := RowsOf(rows[..i], tenant, t);
              RowsOf(rows[..i + 1], tenant, t) ==
                  if t == Trimmed(rows[i], tenant) && rows[i] !in mine then mine + [rows[i]] else mine
    {
      RowsOfSnoc(rows, i, tenant, t);
    }
  }

  method ReadTenants(rows: seq<Row>, tenant: nat, units: map<string, seq<string>>, ghost held: Holding)
    returns (kept: seq<Row>, order: seq<string>, rowsOf: map<string, seq<Row>>)
    requires Represents(units, held) && GoodHolding(held)
    ensures ReadSoFar(rows, |rows|, tenant, held, kept, order, rowsOf)
  {
    kept, order, rowsOf := [], [], map[];
    for i := 0 to |rows|
      invariant ReadSoFar(rows, i, tenant, held, kept, order, rowsOf)
    {
      var t := Trimmed(rows[i], tenant);
      if t == "" || t !in units {
        ReadUnlinked(rows, i, tenant, held, kept, order, rowsOf);
        kept := kept + [rows[i]];
      } else {
        ReadLinked(rows, i, tenant, held, kept, order, rowsOf);
        var mine := if t in rowsOf then rowsOf[t] else [];
        if t !in rowsOf { order := order + [t]; }
        rowsOf := rowsOf[t := if rows[i] in mine then mine else mine + [rows[i]]];
      }
    }
  }

  /** The holding a link file describes. */
  function HeldBy(rows: seq<Row>, lTenant: nat, lUnit: nat): Holding { t => UnitsOf(rows, lTenant, lUnit, t) }

  lemma {:induction false} HeldByIsGood(rows: seq<Row>, lTenant: nat, lUnit: nat)
    ensures GoodHolding(HeldBy(rows, lTenant, lUnit))
  {
    forall t ensures NoRepeats(UnitsOf(rows, lTenant, lUnit, t)) { DistinctFacts(UnitColumn(rows, lTenant, lUnit, t)); }
  }

  /** The result: refused without the needed columns, or when a tenant's rows and units cannot be matched. */
  ghost function Attach(primary: Document, link: Document, normalize: Naming): Result {
    var tenant, unit :=
        HeaderIndex(primary.headers, TENANT_ID, normalize), HeaderIndex(primary.headers, UNIT, normalize);
    var lTenant, lUnit := HeaderIndex(link.headers, TENANT_ID, normalize), HeaderIndex(link.headers, UNIT, normalize);
    if tenant.None? || unit.None? || lTenant.None? || lUnit.None? then Err
    else
      var held := HeldBy(link.rows, lTenant.value, lUnit.value);
      if !AllAssignable(primary.rows, tenant.value, held) then Err
      else Ok(primary.(rows := Attached(primary.rows, tenant.value, unit.value, held)))
  }

  method AttachUnits(primary: Document, link: Document, normalize: Naming) returns (result: Result)
    ensures result == Attach(primary, link, normalize)
  {
    hide HeaderIndex; hide Attached; hide AllAssignable; hide UnitsOf; hide ReadSoFar; hide GoodHolding;
    var tenantIndex, unitIndex :=
        HeaderIndex(primary.headers, TENANT_ID, normalize), HeaderIndex(primary.headers, UNIT, normalize);
    if tenantIndex.None? || unitIndex.None? { return Err; }
    var lTenant, lUnit := HeaderIndex(link.headers, TENANT_ID, normalize), HeaderIndex(link.headers, UNIT, normalize);
    if lTenant.None? || lUnit.None? { return Err; }
    var tenant, unit := tenantIndex.value, unitIndex.value;
    ghost var held := HeldBy(link.rows, lTenant.value, lUnit.value);
    HeldByIsGood(link.rows, lTenant.value, lUnit.value);
    var units := ReadUnits(link.rows, lTenant.value, lUnit.value);
    assert Represents(units, held);
    var kept, order, rowsOf := ReadTenants(primary.rows, tenant, units, held);
    var ok, out := SpreadAll(primary.rows, tenant, unit, kept, order, rowsOf, units, held);
    result := if ok then Ok(primary.(rows := out)) else Err;
  }

  lemma {:induction false} NextBlock(order: seq<string>, k: nat, block: string -> seq<Row>)
    requires k < |order|
    ensures Blocks(order[..k + 1], block) == Blocks(order[..k], block) + block(order[k])
    ensures order[..k + 1] == order[..k] + [order[k]]
  {
    assert order[..k + 1][..k] == order[..k];
  }

  method SpreadRows(rows: seq<Row>, units: seq<string>, unit: nat) returns (block: seq<Row>)
    requires Assignable(rows, units)
    ensures block == Spread(rows, units, unit)
  {
    block := [];
    if |rows| == 1 {
      for i := 0 to |units|
        invariant block == Spread(rows, units, unit)[..i]
      {
        block := block + [SetCell(rows[0], unit, units[i])];
      }
    } else {
      for i := 0 to |rows|
        invariant block == Spread(rows, units, unit)[..i]
      {
        block := block + [SetCell(rows[i], unit, units[i])];
      }
    }
  }

  method SpreadAll(rows: seq<Row>, tenant: nat, unit: nat, kept: seq<Row>, order: seq<string>,
                   rowsOf: map<string, seq<Row>>,
                   units: map<string, seq<string>>, ghost held: Holding)
    returns (ok: bool, out: seq<Row>)
    requires Represents(units, held) && GoodHolding(held) && ReadSoFar(rows, |rows|, tenant, held, kept, order, rowsOf)
    ensures ok <==> AllAssignable(rows, tenant, held)
    ensures ok ==> out == Attached(rows, tenant, unit, held)
  {
    hide *;
    AllRead(rows, tenant, kept, order, rowsOf, units, held);
    out := kept;
    NoBlocks(kept, Blocking(rows, tenant, unit, held));
    assert order[..0] == [];
    for k := 0 to |order|
      invariant out == kept + Blocks(order[..k], Blocking(rows, tenant, unit, held))
      invariant forall j :: 0 <= j < k ==> Assignable(RowsOf(rows, tenant, order[j]), held(order[j]))
    {
      var t := order[k];
      assert t in order;
      IsAssignable(rowsOf[t], units[t]);
      if |rowsOf[t]| != 1 && |rowsOf[t]| != |units[t]| {
        NotAllAssignable(rows, tenant, held, t);
        return false, out;
      }
      NextBlock(order, k, Blocking(rows, tenant, unit, held));
      BlockIs(rows, tenant, unit, held, t);
      var block := SpreadRows(rowsOf[t], units[t], unit);
      out := out + block;
    }
    assert order[..|order|] == order;
    NowAllAssignable(rows, tenant, held);
    AttachedIs(rows, tenant, unit, held);
    ok := true;
  }

  lemma {:induction false} AllRead(rows: seq<Row>, tenant: nat, kept: seq<Row>, order: seq<string>,
                                   rowsOf: map<string, seq<Row>>,
                                      units: map<string, seq<string>>, held: Holding)
    requires Represents(units, held) && ReadSoFar(rows, |rows|, tenant, held, kept, order, rowsOf)
    ensures kept == Unlinked(rows, tenant, held) && order == Tenants(rows, tenant, held)
    ensures forall t :: t in order ==>
            t in rowsOf && rowsOf[t] == RowsOf(rows, tenant, t) && t in units && units[t] == held(t)
  {
    assert rows[..|rows|] == rows;
    TenantsLinked(rows, tenant, held);
    hide RowsOf; hide Unlinked; hide Tenants;
  }

  lemma {:induction false} NoBlocks(kept: seq<Row>, block: string -> seq<Row>)
    ensures kept + Blocks([], block) == kept
  {
  }

  lemma {:induction false} IsAssignable(rows: seq<Row>, units: seq<string>)
    ensures Assignable(rows, units) <==> |rows| == 1 || |rows| == |units|
  {
  }

  lemma {:induction false} NotAllAssignable(rows: seq<Row>, tenant: nat, held: Holding, t: string)
    requires t in Tenants(rows, tenant, held) && !Assignable(RowsOf(rows, tenant, t), held(t))
    ensures !AllAssignable(rows, tenant, held)
  {
  }

  lemma {:induction false} NowAllAssignable(rows: seq<Row>, tenant: nat, held: Holding)
    requires var order := Tenants(rows, tenant, held);
             forall j :: 0 <= j < |order| ==> Assignable(RowsOf(rows, tenant, order[j]), held(order[j]))
    ensures AllAssignable(rows, tenant, held)
  {
  }

  lemma {:induction false} BlockIs(rows: seq<Row>, tenant: nat, unit: nat, held: Holding, t: string)
    ensures Blocking(rows, tenant, unit, held)(t) == Spread(RowsOf(rows, tenant, t), held(t), unit)
  {
  }

  lemma {:induction false} AttachedIs(rows: seq<Row>, tenant: nat, unit: nat, held: Holding)
    ensures Attached(rows, tenant, unit, held) ==
            Unlinked(rows, tenant, held) + Blocks(Tenants(rows, tenant, held), Blocking(rows, tenant, unit, held))
  {
  }

  /** Applying the same link file twice is applying it once. */
  lemma {:induction false} AttachIsIdempotent(primary: Document, link: Document, normalize: Naming)
    requires normalize(TENANT_ID) != normalize(UNIT)
    ensures var once := Attach(primary, link, normalize); once.Ok? ==> Attach(once.document, link, normalize) == once
  {
    if Attach(primary, link, normalize).Ok? {
      var tenant, unit :=
          HeaderIndex(primary.headers, TENANT_ID, normalize).value, HeaderIndex(primary.headers, UNIT, normalize).value;
      var lTenant, lUnit :=
          HeaderIndex(link.headers, TENANT_ID, normalize).value, HeaderIndex(link.headers, UNIT, normalize).value;
      HeldByIsGood(link.rows, lTenant, lUnit);
      AttachTwice(primary.rows, tenant, unit, HeldBy(link.rows, lTenant, lUnit));
    }
  }
}
