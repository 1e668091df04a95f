/** When attaching units changes nothing: exactly when every linked tenant's rows already
  * stand together, after the unlinked ones, one for each of its units in order.
  */
module UnitSettled {
  import opened Csv
  import opened Lists
  import opened UnitLink

  /** The rows of `t` are the `|held(t)|` rows from `from` on, and carry its units in order. */
  ghost predicate StandsAt(rows: seq<Row>, tenant: nat, unit: nat, held: Holding, t: string, from: nat) {
    && from + |held(t)| <= |rows|
    && (forall k :: from <= k < from + |held(t)| ==>
          Trimmed(rows[k], tenant) == t && Cell(rows[k], unit) == held(t)[k - from])
    && (forall k :: 0 <= k < |rows| && Trimmed(rows[k], tenant) == t ==> from <= k < from + |held(t)|)
  }

  ghost predicate Stands(rows: seq<Row>, tenant: nat, unit: nat, held: Holding, t: string) {
    exists from: nat :: StandsAt(rows, tenant, unit, held, t, from)
  }

  ghost predicate UnlinkedFirst(rows: seq<Row>, tenant: nat, held: Holding) {
    forall i, j :: 0 <= i < j < |rows| && Linked(held, Trimmed(rows[i], tenant)) ==>
      Linked(held, Trimmed(rows[j], tenant))
  }

  ghost predicate Settled(rows: seq<Row>, tenant: nat, unit: nat, held: Holding) {
    && UnlinkedFirst(rows, tenant, held)
    && forall i :: 0 <= i < |rows| && Linked(held, Trimmed(rows[i], tenant)) ==>
         Stands(rows, tenant, unit, held, Trimmed(rows[i], tenant))
  }

  // ---------------------------------------------------------------- attached rows are settled

  lemma {:induction false} BlockPlace(order: seq<string>, block: string -> seq<Row>, tenant: nat, t: string)
    returns (from: nat)
    requires OwnBlocks(order, block, tenant) && t in order
    ensures from + |block(t)| <= |Blocks(order, block)|
    ensures forall k :: from <= k < from + |block(t)| ==> Blocks(order, block)[k] == block(t)[k - from]
    ensures forall k :: 0 <= k < |Blocks(order, block)| && Trimmed(Blocks(order, block)[k], tenant) == t ==>
              from <= k < from + |block(t)|
    decreases |order|
  {
    hide Trimmed;
    var front, last := order[..|order| - 1], order[|order| - 1];
    FewerBlocks(order, block, tenant);
    var before := Blocks(front, block);
    if t == last {
      from := |before|;
      TenantsOfBlocks(front, block, tenant);
      forall k | 0 <= k < |before| ensures Trimmed(before[k], tenant) != t { assert before[k] in before; }
    } else {
      assert t in front;
      from := BlockPlace(front, block, tenant, t);
    }
  }

  /** A block that stands somewhere stands that much later behind rows of other tenants. */
  lemma {:induction false} StandsBehind(kept: seq<Row>, blocks: seq<Row>, block: seq<Row>, from: nat, tenant: nat,
                                        unit: nat, held: Holding, t: string)
    requires forall k :: 0 <= k < |kept| ==> Trimmed(kept[k], tenant) != t
    requires from + |block| <= |blocks| && |block| == |held(t)|
    requires forall k :: from <= k < from + |block| ==> blocks[k] == block[k - from]
    requires forall k :: 0 <= k < |blocks| && Trimmed(blocks[k], tenant) == t ==> from <= k < from + |block|
    requires forall i :: 0 <= i < |block| ==> Cell(block[i], unit) == held(t)[i] && Trimmed(block[i], tenant) == t
    ensures Stands(kept + blocks, tenant, unit, held, t)
  {
    hide Trimmed; hide Cell;
    var out, at := kept + blocks, |kept| + from;
    forall k | at <= k < at + |held(t)| ensures out[k] == block[k - at] { assert out[k] == blocks[k - |kept|]; }
    assert StandsAt(out, tenant, unit, held, t, at);
  }

  lemma {:induction false} AttachedStands(rows: seq<Row>, tenant: nat, unit: nat, held: Holding, t: string)
    requires tenant != unit && GoodHolding(held) && AllAssignable(rows, tenant, held)
             && t in Tenants(rows, tenant, held)
    ensures Stands(Attached(rows, tenant, unit, held), tenant, unit, held, t)
  {
    var kept, order, block :=
        Unlinked(rows, tenant, held), Tenants(rows, tenant, held), Blocking(rows, tenant, unit, held);
    hide Trimmed; hide Unlinked; hide Tenants; hide Blocks; hide BlockOf; hide OwnBlocks; hide Stands;
    AttachedParts(rows, tenant, unit, held);
    BlocksAreOwn(rows, tenant, unit, held);
    TenantsLinked(rows, tenant, held);
    BlockRows(rows, tenant, unit, held, t);
    var from := BlockPlace(order, block, tenant, t);
    forall k | 0 <= k < |kept| ensures Trimmed(kept[k], tenant) != t { assert kept[k] in kept; }
    StandsBehind(kept, Blocks(order, block), block(t), from, tenant, unit, held, t);
  }

  /** Unlinked rows followed by linked ones. */
  lemma {:induction false} TwoParts(kept: seq<Row>, blocks: seq<Row>, tenant: nat, held: Holding)
    requires forall r :: r in kept ==> !Linked(held, Trimmed(r, tenant))
    requires forall r :: r in blocks ==> Linked(held, Trimmed(r, tenant))
    ensures UnlinkedFirst(kept + blocks, tenant, held)
    ensures forall i :: 0 <= i < |kept + blocks| && Linked(held, Trimmed((kept + blocks)[i], tenant)) ==>
              (kept + blocks)[i] in blocks
  {
    hide Trimmed;
    var out := kept + blocks;
    forall i | 0 <= i < |out| ensures Linked(held, Trimmed(out[i], tenant)) <==> i >= |kept| {
      if i < |kept| { assert out[i] in kept; } else { assert blocks[i - |kept|] in blocks; }
    }
  }

  lemma {:induction false} AttachedIsSettled(rows: seq<Row>, tenant: nat, unit: nat, held: Holding)
    requires tenant != unit && GoodHolding(held) && AllAssignable(rows, tenant, held)
    ensures Settled(Attached(rows, tenant, unit, held), tenant, unit, held)
  {
    hide Trimmed; hide Unlinked; hide Tenants; hide Blocks; hide AllAssignable; hide Stands; hide Blocking;
    hide OwnBlocks; hide UnlinkedFirst; hide GoodHolding;
    var kept, order, block :=
        Unlinked(rows, tenant, held), Tenants(rows, tenant, held), Blocking(rows, tenant, unit, held);
    var out, blocks := Attached(rows, tenant, unit, held), Blocks(order, block);
    AttachedParts(rows, tenant, unit, held);
    BlocksAreOwn(rows, tenant, unit, held);
    TenantsOfBlocks(order, block, tenant);
    TwoParts(kept, blocks, tenant, held);
    forall i | 0 <= i < |out| && Linked(held, Trimmed(out[i], tenant))
      ensures Stands(out, tenant, unit, held, Trimmed(out[i], tenant))
    {
      AttachedStands(rows, tenant, unit, held, Trimmed(out[i], tenant));
    }
  }

  // ---------------------------------------------------------------- settled rows stay

  ghost predicate NoBlankUnits(held: Holding) { forall t, i :: 0 <= i < |held(t)| ==> held(t)[i] != "" }

  lemma {:induction false} HeldByNoBlanks(rows: seq<Row>, lTenant: nat, lUnit: nat)
    ensures NoBlankUnits(HeldBy(rows, lTenant, lUnit))
  {
    forall t, i | 0 <= i < |UnitsOf(rows, lTenant, lUnit, t)| ensures UnitsOf(rows, lTenant, lUnit, t)[i] != "" {
      var holders := Keep(rows, OfHolder(lTenant, lUnit, t));
      var column := UnitColumn(rows, lTenant, lUnit, t);
      KeepMembers(rows, OfHolder(lTenant, lUnit, t));
      DistinctFacts(column);
      var u := Distinct(column)[i];
      assert u in Distinct(column);
      var k :| 0 <= k < |column| && column[k] == u;
      assert holders[k] in holders;
    }
  }

  /** The last tenant's rows, taken off, leave settled rows in which it does not occur. */
  lemma {:induction false} TakeOffLast(rows: seq<Row>, tenant: nat, unit: nat, held: Holding) returns (f: nat)
    requires Settled(rows, tenant, unit, held) && rows != []
    requires Linked(held, Trimmed(rows[|rows| - 1], tenant))
    ensures var t := Trimmed(rows[|rows| - 1], tenant);
            && f + |held(t)| == |rows| && Settled(rows[..f], tenant, unit, held)
            && (forall k :: 0 <= k < f ==> Trimmed(rows[k], tenant) != t)
            && (forall k :: f <= k < |rows| ==> Trimmed(rows[k], tenant) == t && Cell(rows[k], unit) == held(t)[k - f])
  {
    hide Trimmed;
    var t := Trimmed(rows[|rows| - 1], tenant);
    assert Stands(rows, tenant, unit, held, t);
    f :| StandsAt(rows, tenant, unit, held, t, f);
    var front := rows[..f];
    forall i | 0 <= i < f && Linked(held, Trimmed(front[i], tenant))
      ensures Stands(front, tenant, unit, held, Trimmed(front[i], tenant))
    {
      var u := Trimmed(rows[i], tenant);
      assert Stands(rows, tenant, unit, held, u);
      var g: nat :| StandsAt(rows, tenant, unit, held, u, g);
      assert g <= i < g + |held(u)|;
      assert Trimmed(rows[f], tenant) == t;
      assert StandsAt(front, tenant, unit, held, u, g);
    }
  }

  lemma {:induction false} SpreadSettled(block: seq<Row>, units: seq<string>, unit: nat)
    requires |block| == |units| && NoRepeats(units)
    requires forall k :: 0 <= k < |block| ==> units[k] != "" && Cell(block[k], unit) == units[k]
    ensures Distinct(block) == block && Assignable(block, units) && Spread(block, units, unit) == block
  {
    forall i, j | 0 <= i < j < |block| ensures block[i] != block[j] {
      assert Cell(block[i], unit) == units[i] && Cell(block[j], unit) == units[j];
    }
    AlreadyDistinct(block);
    forall k | 0 <= k < |block| ensures SetCell(block[k], unit, units[k]) == block[k] {}
  }

  lemma {:induction false} UnlinkedStay(rows: seq<Row>, tenant: nat, unit: nat, held: Holding)
    requires forall i :: 0 <= i < |rows| ==> !Linked(held, Trimmed(rows[i], tenant))
    ensures AllAssignable(rows, tenant, held) && Attached(rows, tenant, unit, held) == rows
  {
    KeepAll(rows, OfUnlinked(tenant, held));
    KeepNone(rows, OfLinked(tenant, held));
    assert rows + [] == rows;
  }

  /** Appending the whole block of a tenant that has not occurred. */
  lemma {:induction false} AppendTenant(front: seq<Row>, block: seq<Row>, tenant: nat, held: Holding, t: string)
    requires Linked(held, t) && block != [] && forall k :: 0 <= k < |block| ==> Trimmed(block[k], tenant) == t
    requires forall k :: 0 <= k < |front| ==> Trimmed(front[k], tenant) != t
    ensures Unlinked(front + block, tenant, held) == Unlinked(front, tenant, held)
    ensures Tenants(front + block, tenant, held) == Tenants(front, tenant, held) + [t]
    ensures RowsOf(front + block, tenant, t) == Distinct(block)
    ensures forall u :: u != t ==> RowsOf(front + block, tenant, u) == RowsOf(front, tenant, u)
    ensures t !in Tenants(front, tenant, held)
  {
    hide Trimmed; hide Keep; hide Distinct;
    var linked := Keep(front, OfLinked(tenant, held));
    KeepAppend(front, block, OfUnlinked(tenant, held));
    KeepNone(block, OfUnlinked(tenant, held));
    KeepAppend(front, block, OfLinked(tenant, held));
    KeepAll(block, OfLinked(tenant, held));
    KeepMembers(front, OfLinked(tenant, held));
    MapAppend(linked, block, CellAt(tenant));
    var seen := Map(linked, CellAt(tenant));
    forall i | 0 <= i < |seen| ensures seen[i] != t { assert linked[i] in linked; }
    OneMore(seen, Map(block, CellAt(tenant)), t);
    DistinctFacts(seen);
    KeepAppend(front, block, OfTenant(tenant, t));
    KeepNone(front, OfTenant(tenant, t));
    KeepAll(block, OfTenant(tenant, t));
    forall u | u != t ensures RowsOf(front + block, tenant, u) == RowsOf(front, tenant, u) {
      KeepAppend(front, block, OfTenant(tenant, u));
      KeepNone(block, OfTenant(tenant, u));
      assert Keep(front, OfTenant(tenant, u)) + [] == Keep(front, OfTenant(tenant, u));
    }
    assert [] + block == block;
  }

  /** The parts of attaching units to rows that end in a whole block of a new tenant. */
  lemma {:induction false} AppendBlock(front: seq<Row>, block: seq<Row>, tenant: nat, unit: nat, held: Holding,
                                       t: string)
    requires Linked(held, t) && |block| == |held(t)| && NoRepeats(held(t)) && NoBlankUnits(held)
    requires forall k :: 0 <= k < |block| ==> Trimmed(block[k], tenant) == t && Cell(block[k], unit) == held(t)[k]
    requires forall k :: 0 <= k < |front| ==> Trimmed(front[k], tenant) != t
    ensures Unlinked(front + block, tenant, held) == Unlinked(front, tenant, held)
    ensures Tenants(front + block, tenant, held) == Tenants(front, tenant, held) + [t]
    ensures RowsOf(front + block, tenant, t) == block && Assignable(block, held(t))
    ensures BlockOf(front + block, tenant, unit, held, t) == block
    ensures forall u :: u in Tenants(front, tenant, held) ==>
            RowsOf(front + block, tenant, u) == RowsOf(front, tenant, u)
  {
    hide Trimmed; hide Unlinked; hide Tenants; hide RowsOf; hide Spread; hide Cell;
    AppendTenant(front, block, tenant, held, t);
    SpreadSettled(block, held(t), unit);
  }

  lemma {:induction false} BlocksSnoc(order: seq<string>, t: string, f: string -> seq<Row>, g: string -> seq<Row>)
    requires forall u :: u in order ==> f(u) == g(u)
    ensures Blocks(order + [t], g) == Blocks(order, f) + g(t)
  {
    SameBlocks(order, f, g);
    assert (order + [t])[..|order|] == order;
  }

  lemma {:induction false} AppendSettled(front: seq<Row>, block: seq<Row>, tenant: nat, unit: nat, held: Holding,
                                         t: string)
    requires Linked(held, t) && |block| == |held(t)| && NoRepeats(held(t)) && NoBlankUnits(held)
    requires forall k :: 0 <= k < |block| ==> Trimmed(block[k], tenant) == t && Cell(block[k], unit) == held(t)[k]
    requires forall k :: 0 <= k < |front| ==> Trimmed(front[k], tenant) != t
    requires AllAssignable(front, tenant, held) && Attached(front, tenant, unit, held) == front
    ensures AllAssignable(front + block, tenant, held)
    ensures Attached(front + block, tenant, unit, held) == front + block
  {
    hide Trimmed; hide Unlinked; hide Tenants; hide RowsOf; hide Spread; hide Cell; hide Blocks; hide NoBlankUnits;
    hide Assignable;
    AppendBlock(front, block, tenant, unit, held, t);
    var order, before, now :=
        Tenants(front, tenant, held), Blocking(front, tenant, unit, held), Blocking(front + block, tenant, unit, held);
    BlocksSnoc(order, t, before, now);
    assert now(t) == block;
    var kept := Unlinked(front, tenant, held);
    assert kept + (Blocks(order, before) + block) == (kept + Blocks(order, before)) + block;
  }

  lemma {:induction false} SettledStays(rows: seq<Row>, tenant: nat, unit: nat, held: Holding)
    requires GoodHolding(held) && NoBlankUnits(held) && Settled(rows, tenant, unit, held)
    ensures AllAssignable(rows, tenant, held) && Attached(rows, tenant, unit, held) == rows
    decreases |rows|
  {
    hide Trimmed; hide Attached; hide AllAssignable; hide Stands; hide NoBlankUnits;
    if rows == [] || !Linked(held, Trimmed(rows[|rows| - 1], tenant)) {
      UnlinkedStay(rows, tenant, unit, held);
    } else {
      var f := TakeOffLast(rows, tenant, unit, held);
      hide Settled;
      SettledStays(rows[..f], tenant, unit, held);
      AppendSettled(rows[..f], rows[f..], tenant, unit, held, Trimmed(rows[|rows| - 1], tenant));
      assert rows == rows[..f] + rows[f..];
    }
  }

  /** Attaching units succeeds and changes nothing exactly when the rows are settled. */
  lemma {:induction false} AttachChangesNothingIff(rows: seq<Row>, tenant: nat, unit: nat, held: Holding)
    requires tenant != unit && GoodHolding(held) && NoBlankUnits(held)
    ensures AllAssignable(rows, tenant, held) && Attached(rows, tenant, unit, held) == rows <==>
            Settled(rows, tenant, unit, held)
  {
    hide *;
    if AllAssignable(rows, tenant, held) { AttachedIsSettled(rows, tenant, unit, held); }
    if Settled(rows, tenant, unit, held) { SettledStays(rows, tenant, unit, held); }
  }

  // ---------------------------------------------------------------- other columns do not matter

  /** Rows in which the linked tenants and the units are those of settled rows are settled. */
  lemma {:induction false} SettledByColumns(a: seq<Row>, b: seq<Row>, tenant: nat, unit: nat, held: Holding)
    requires Settled(a, tenant, unit, held) && |a| == |b|
    requires forall i :: 0 <= i < |a| ==> Cell(a[i], unit) == Cell(b[i], unit)
    requires forall i :: 0 <= i < |a| && Linked(held, Trimmed(a[i], tenant)) ==>
               Trimmed(b[i], tenant) == Trimmed(a[i], tenant)
    requires forall i :: 0 <= i < |a| && !Linked(held, Trimmed(a[i], tenant)) ==> !Linked(held, Trimmed(b[i], tenant))
    ensures Settled(b, tenant, unit, held)
  {
    hide Trimmed;
    forall i | 0 <= i < |b| && Linked(held, Trimmed(b[i], tenant))
      ensures Stands(b, tenant, unit, held, Trimmed(b[i], tenant))
    {
      var t := Trimmed(a[i], tenant);
      assert Stands(a, tenant, unit, held, t);
      var from: nat :| StandsAt(a, tenant, unit, held, t, from);
      assert StandsAt(b, tenant, unit, held, t, from);
    }
  }
}
