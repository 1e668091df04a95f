/** Merging the same files again when a link file is among them: it changes nothing exactly
  * when the merged file is settled for the link, which it is unless a row without a linked
  * tenant is given one by a joined file.
  */
module JoinTwice {
  import opened Options
  import opened Csv
  import opened Lists
  import opened Joining
  import opened JoinMeaning
  import opened UnitSettled
  import Text
  import UnitLink

  // ---------------------------------------------------------------- one link file

  /** The file at `k` is the only link file. */
  ghost predicate OnlyLink(files: seq<Document>, k: nat, normalize: Naming) {
    k < |files| && forall j :: 0 <= j < |files| ==> (IsUnitLink(files[j], normalize) <==> j == k)
  }

  lemma {:induction false} LinkedOnce(doc: Document, files: seq<Document>, k: nat, n: nat, normalize: Naming)
    requires OnlyLink(files, k, normalize) && n <= |files|
    ensures AfterLinks(doc, files, n, normalize) ==
            if n <= k then Some(doc)
            else if UnitLink.Attach(doc, files[k], normalize).Ok?
            then Some(UnitLink.Attach(doc, files[k], normalize).document) else None
  {
    hide IsUnitLink; hide UnitLink.Attach;
    if n > 0 { LinkedOnce(doc, files, k, n - 1, normalize); }
  }

  /** The tenant column of a file, and what a link file says its tenants hold. */
  ghost predicate HasColumns(doc: Document, link: Document, normalize: Naming) {
    && HeaderIndex(doc.headers, UnitLink.TENANT_ID, normalize).Some? && HeaderIndex(doc.headers, UNIT, normalize).Some?
    && HeaderIndex(link.headers, UnitLink.TENANT_ID, normalize).Some?
    && HeaderIndex(link.headers, UNIT, normalize).Some?
  }

  function HeldIn(link: Document, normalize: Naming): UnitLink.Holding
    requires HeaderIndex(link.headers, UnitLink.TENANT_ID, normalize).Some?
    requires HeaderIndex(link.headers, UNIT, normalize).Some?
  {
    UnitLink.HeldBy(link.rows, HeaderIndex(link.headers, UnitLink.TENANT_ID, normalize).value,
                    HeaderIndex(link.headers, UNIT, normalize).value)
  }

  ghost predicate IsSettled(doc: Document, link: Document, normalize: Naming) {
    && HasColumns(doc, link, normalize)
    && Settled(doc.rows, HeaderIndex(doc.headers, UnitLink.TENANT_ID, normalize).value,
               HeaderIndex(doc.headers, UNIT, normalize).value, HeldIn(link, normalize))
  }

  ghost predicate NamesDiffer(normalize: Naming) { normalize(UnitLink.TENANT_ID) != normalize(UNIT) }

  lemma {:induction false} AttachStaysIff(doc: Document, link: Document, normalize: Naming)
    requires NamesDiffer(normalize)
    ensures UnitLink.Attach(doc, link, normalize) == UnitLink.Ok(doc) <==> IsSettled(doc, link, normalize)
  {
    hide UnitLink.Attached; hide UnitLink.AllAssignable; hide Settled; hide UnitLink.HeldBy; hide NoBlankUnits;
    hide UnitLink.GoodHolding;
    if HasColumns(doc, link, normalize) {
      var h := UnitLink.TENANT_ID;
      var tenant, unit := HeaderIndex(doc.headers, h, normalize).value, HeaderIndex(doc.headers, UNIT, normalize).value;
      var lTenant, lUnit :=
          HeaderIndex(link.headers, h, normalize).value, HeaderIndex(link.headers, UNIT, normalize).value;
      UnitLink.HeldByIsGood(link.rows, lTenant, lUnit);
      HeldByNoBlanks(link.rows, lTenant, lUnit);
      AttachChangesNothingIff(doc.rows, tenant, unit, HeldIn(link, normalize));
    }
  }

  lemma {:induction false} AttachedSettles(doc: Document, link: Document, normalize: Naming)
    requires NamesDiffer(normalize) && UnitLink.Attach(doc, link, normalize).Ok?
    ensures IsSettled(UnitLink.Attach(doc, link, normalize).document, link, normalize)
  {
    UnitLink.AttachIsIdempotent(doc, link, normalize);
    AttachStaysIff(UnitLink.Attach(doc, link, normalize).document, link, normalize);
    hide UnitLink.Attach; hide IsSettled;
  }

  // ---------------------------------------------------------------- attached files are good

  lemma {:induction false} InSomeBlock(order: seq<string>, block: string -> seq<Row>, r: Row) returns (t: string)
    requires r in UnitLink.Blocks(order, block)
    ensures r in block(t)
    decreases |order|
  {
    var front, last := order[..|order| - 1], order[|order| - 1];
    if r in block(last) { t := last; } else { t := InSomeBlock(front, block, r); }
  }

  lemma {:induction false} BlockLength(rows: seq<Row>, tenant: nat, unit: nat, held: UnitLink.Holding, t: string,
                                       n: nat, r: Row)
    requires (forall q :: q in rows ==> |q| == n) && unit < n && r in UnitLink.BlockOf(rows, tenant, unit, held, t)
    ensures |r| == n
  {
    var mine, block := UnitLink.RowsOf(rows, tenant, t), UnitLink.BlockOf(rows, tenant, unit, held, t);
    KeepMembers(rows, UnitLink.OfTenant(tenant, t));
    DistinctFacts(Keep(rows, UnitLink.OfTenant(tenant, t)));
    hide Keep; hide Distinct; hide UnitLink.Trimmed;
    var i :| 0 <= i < |block| && block[i] == r;
    assert mine[if |mine| == 1 then 0 else i] in mine;
  }

  lemma {:induction false} AttachedLength(rows: seq<Row>, tenant: nat, unit: nat, held: UnitLink.Holding, n: nat,
                                          r: Row)
    requires (forall q :: q in rows ==> |q| == n) && unit < n && r in UnitLink.Attached(rows, tenant, unit, held)
    ensures |r| == n
  {
    KeepMembers(rows, UnitLink.OfUnlinked(tenant, held));
    hide Keep; hide UnitLink.Tenants; hide UnitLink.Blocks; hide UnitLink.BlockOf; hide UnitLink.Trimmed;
    if r !in UnitLink.Unlinked(rows, tenant, held) {
      var t := InSomeBlock(UnitLink.Tenants(rows, tenant, held), UnitLink.Blocking(rows, tenant, unit, held), r);
      BlockLength(rows, tenant, unit, held, t, n, r);
    }
  }

  lemma {:induction false} AttachedIsGood(doc: Document, link: Document, normalize: Naming)
    requires Good(doc, normalize) && UnitLink.Attach(doc, link, normalize).Ok?
    ensures var out := UnitLink.Attach(doc, link, normalize).document;
            Good(out, normalize) && out.headers == doc.headers
  {
    var out := UnitLink.Attach(doc, link, normalize).document;
    var tenant, unit :=
        HeaderIndex(doc.headers, UnitLink.TENANT_ID, normalize).value, HeaderIndex(doc.headers, UNIT, normalize).value;
    hide UnitLink.Attached; hide UnitLink.AllAssignable; hide DistinctHeaders;
    forall r | 0 <= r < |out.rows| ensures |out.rows[r]| == |out.headers| {
      assert out.rows[r] in out.rows;
      AttachedLength(doc.rows, tenant, unit, HeldIn(link, normalize), |doc.headers|, out.rows[r]);
    }
  }

  // ---------------------------------------------------------------- merging again

  /** Good tables, one of them a link file. */
  ghost predicate OneLink(primary: Document, files: seq<Document>, k: nat, normalize: Naming) {
    && Good(primary, normalize) && NamesDiffer(normalize) && OnlyLink(files, k, normalize)
    && AllDistinct(JoinFiles(files, |files|, normalize), normalize)
  }

  lemma {:induction false} JoinsAreOrdinary(files: seq<Document>, normalize: Naming)
    requires AllDistinct(JoinFiles(files, |files|, normalize), normalize)
    ensures Ordinary(JoinFiles(files, |files|, normalize), normalize)
  {
    hide IsUnitLink; hide DistinctHeaders;
    var joins := JoinFiles(files, |files|, normalize);
    forall j | 0 <= j < |joins| ensures !IsUnitLink(joins[j], normalize) { assert joins[j] in joins; }
  }

  /** Merging is attaching the link file, then merging the others. */
  lemma {:induction false} MergedThroughLink(doc: Document, files: seq<Document>, k: nat, normalize: Naming,
                                             lower: Lowering)
    requires OnlyLink(files, k, normalize)
    ensures var attached := UnitLink.Attach(doc, files[k], normalize);
            Merged(doc, files, normalize, lower) ==
            if attached.Err? then None
            else Merged(attached.document, JoinFiles(files, |files|, normalize), normalize, lower)
  {
    LinksComeFirst(doc, files, normalize, lower);
    LinkedOnce(doc, files, k, |files|, normalize);
    hide Merged; hide AfterLinks; hide UnitLink.Attach; hide JoinFiles; hide OnlyLink;
  }

  /** A merged file with nothing left to take: where it is blank, nothing is offered. */
  lemma {:induction false} NothingOffered(m: Document, joins: seq<Document>, r: nat, h: string, normalize: Naming,
                                          lower: Lowering)
    requires Good(m, normalize) && Ordinary(joins, normalize) && Merged(m, joins, normalize, lower) == Some(m)
    requires r < |m.rows| && Blank(Value(m, r, h, normalize))
    ensures FirstOffer(joins, |joins|, KeyOf(m, r, normalize, lower), h, normalize, lower) == ""
  {
    MergeFillsBlanks(m, joins, r, h, normalize, lower);
    OffersAreTrimmed(joins, |joins|, KeyOf(m, r, normalize, lower), h, normalize, lower);
    hide Merged; hide KeyOf; hide FirstOffer; hide Value; hide Good; hide Ordinary;
  }

  /** The tenant and unit columns of a merged file, against those of the file merged into. */
  lemma {:induction false} MergedColumnsKept(a: Document, joins: seq<Document>, r: nat, normalize: Naming,
                                             lower: Lowering)
    requires Good(a, normalize) && Ordinary(joins, normalize) && Merged(a, joins, normalize, lower).Some?
    requires r < |a.rows|
    ensures var m := Merged(a, joins, normalize, lower).value;
            && Good(m, normalize) && |m.rows| == |a.rows| && a.headers <= m.headers
            && Value(m, r, UNIT, normalize) == Value(a, r, UNIT, normalize)
            && (!Blank(Value(a, r, UnitLink.TENANT_ID, normalize)) ==>
                  Value(m, r, UnitLink.TENANT_ID, normalize) == Value(a, r, UnitLink.TENANT_ID, normalize))
  {
    MergeFillsBlanks(a, joins, r, UNIT, normalize, lower);
    MergeFillsBlanks(a, joins, r, UnitLink.TENANT_ID, normalize, lower);
    NoOfferForKeys(joins, |joins|, KeyOf(a, r, normalize, lower), normalize, lower);
    MergedIsGood(a, joins, normalize, lower);
    hide Merged; hide KeyOf; hide FirstOffer; hide Value; hide Good; hide Ordinary; hide Text.Trim;
  }

  lemma {:induction false} MergedIsGood(a: Document, joins: seq<Document>, normalize: Naming, lower: Lowering)
    requires Good(a, normalize) && Ordinary(joins, normalize) && Merged(a, joins, normalize, lower).Some?
    ensures var m := Merged(a, joins, normalize, lower).value;
            && Good(m, normalize) && |m.rows| == |a.rows| && a.headers <= m.headers
            && Merged(m, joins, normalize, lower) == Some(m)
  {
    MergedWithoutLinks(a, joins, normalize, lower);
    hide Merged; hide IsUnitLink; hide Good; hide AfterJoins; hide HeaderIndex;
    GrowsBy(a, joins, |joins|, normalize, lower);
    MergeIsIdempotent(a, joins, normalize, lower);
  }

  /** A row of the attached file whose tenant is not linked is one of the file attached to. */
  lemma {:induction false} UnlinkedRowKept(rows: seq<Row>, tenant: nat, unit: nat, held: UnitLink.Holding, r: nat)
    returns (q: nat)
    requires tenant != unit && UnitLink.GoodHolding(held) && UnitLink.AllAssignable(rows, tenant, held)
    requires r < |UnitLink.Attached(rows, tenant, unit, held)|
    requires !UnitLink.Linked(held, UnitLink.Trimmed(UnitLink.Attached(rows, tenant, unit, held)[r], tenant))
    ensures q < |rows| && rows[q] == UnitLink.Attached(rows, tenant, unit, held)[r]
  {
    var row := UnitLink.Attached(rows, tenant, unit, held)[r];
    UnitLink.AttachedParts(rows, tenant, unit, held);
    KeepMembers(rows, UnitLink.OfUnlinked(tenant, held));
    hide Keep; hide UnitLink.Tenants; hide UnitLink.Blocks; hide UnitLink.Trimmed; hide UnitLink.AllAssignable;
    assert row in UnitLink.Unlinked(rows, tenant, held);
    q :| 0 <= q < |rows| && rows[q] == row;
  }

  /** The tenant of row `r`. */
  function TenantAt(doc: Document, r: nat, normalize: Naming): string
    requires r < |doc.rows|
  {
    Text.Trim(Value(doc, r, UnitLink.TENANT_ID, normalize))
  }

  /** `b` is settled if it has the units of `a`, which is, and the same linked tenants. */
  lemma {:induction false} SettledLike(a: Document, b: Document, link: Document, normalize: Naming)
    requires IsSettled(a, link, normalize) && a.headers <= b.headers && |a.rows| == |b.rows|
    requires forall r :: 0 <= r < |a.rows| ==> Value(b, r, UNIT, normalize) == Value(a, r, UNIT, normalize)
    requires forall r :: 0 <= r < |a.rows| ==>
               if UnitLink.Linked(HeldIn(link, normalize), TenantAt(a, r, normalize))
               then TenantAt(b, r, normalize) == TenantAt(a, r, normalize)
               else !UnitLink.Linked(HeldIn(link, normalize), TenantAt(b, r, normalize))
    ensures IsSettled(b, link, normalize)
  {
    StillThere(a.headers, b.headers, UnitLink.TENANT_ID, normalize);
    StillThere(a.headers, b.headers, UNIT, normalize);
    hide Settled; hide HeaderIndex; hide UnitLink.HeldBy; hide Text.Trim;
    var tenant, unit :=
        HeaderIndex(a.headers, UnitLink.TENANT_ID, normalize).value, HeaderIndex(a.headers, UNIT, normalize).value;
    forall r | 0 <= r < |a.rows|
      ensures Cell(a.rows[r], unit) == Cell(b.rows[r], unit)
      ensures UnitLink.Trimmed(a.rows[r], tenant) == TenantAt(a, r, normalize)
      ensures UnitLink.Trimmed(b.rows[r], tenant) == TenantAt(b, r, normalize)
    {
      assert Value(b, r, UNIT, normalize) == Value(a, r, UNIT, normalize);
    }
    SettledByColumns(a.rows, b.rows, tenant, unit, HeldIn(link, normalize));
  }

  /** A row without a tenant is left as it was by attaching units. */
  lemma {:induction false} RowWithoutTenant(m: Document, link: Document, r: nat, normalize: Naming) returns (q: nat)
    requires NamesDiffer(normalize) && UnitLink.Attach(m, link, normalize).Ok?
    requires var l := UnitLink.Attach(m, link, normalize).document;
             r < |l.rows| && Blank(Value(l, r, UnitLink.TENANT_ID, normalize))
    ensures q < |m.rows| && m.rows[q] == UnitLink.Attach(m, link, normalize).document.rows[r]
  {
    var tenant, unit :=
        HeaderIndex(m.headers, UnitLink.TENANT_ID, normalize).value, HeaderIndex(m.headers, UNIT, normalize).value;
    UnitLink.HeldByIsGood(link.rows, HeaderIndex(link.headers, UnitLink.TENANT_ID, normalize).value,
                          HeaderIndex(link.headers, UNIT, normalize).value);
    hide HeaderIndex; hide UnitLink.AllAssignable; hide UnitLink.Attached; hide UnitLink.HeldBy; hide Text.Trim;
    q := UnlinkedRowKept(m.rows, tenant, unit, HeldIn(link, normalize), r);
  }

  lemma {:induction false} SameKey(m: Document, l: Document, q: nat, r: nat, h: string, normalize: Naming,
                                   lower: Lowering)
    requires l.headers == m.headers && q < |m.rows| && r < |l.rows| && m.rows[q] == l.rows[r]
    ensures KeyOf(m, q, normalize, lower) == KeyOf(l, r, normalize, lower)
    ensures Value(m, q, h, normalize) == Value(l, r, h, normalize)
  {
    hide HeaderIndex; hide RowKey;
  }

  /** The tenants of a merged file that attaching and merging again gives back. */
  lemma {:induction false} TenantKeptAgain(m: Document, link: Document, l: Document, joins: seq<Document>, r: nat,
                                           normalize: Naming, lower: Lowering)
    requires NamesDiffer(normalize) && Good(m, normalize) && Ordinary(joins, normalize)
    requires Merged(m, joins, normalize, lower) == Some(m)
    requires UnitLink.Attach(m, link, normalize) == UnitLink.Ok(l) && Good(l, normalize) && l.headers == m.headers
    requires Merged(l, joins, normalize, lower) == Some(m) && r < |l.rows| == |m.rows|
    ensures TenantAt(m, r, normalize) == TenantAt(l, r, normalize)
  {
    hide Merged; hide Good; hide Ordinary; hide UnitLink.Attach; hide Text.Trim; hide FirstOffer; hide Value;
    hide KeyOf; hide Blank;
    var h := UnitLink.TENANT_ID;
    MergedColumnsKept(l, joins, r, normalize, lower);
    if Blank(Value(l, r, h, normalize)) {
      var q := RowWithoutTenant(m, link, r, normalize);
      SameKey(m, l, q, r, h, normalize, lower);
      NothingOffered(m, joins, q, h, normalize, lower);
      MergeFillsBlanks(l, joins, r, h, normalize, lower);
    }
  }

  lemma {:induction false} FixedIsSettled(m: Document, link: Document, joins: seq<Document>, normalize: Naming,
                                          lower: Lowering)
    requires NamesDiffer(normalize) && Good(m, normalize) && Ordinary(joins, normalize)
    requires Merged(m, joins, normalize, lower) == Some(m) && UnitLink.Attach(m, link, normalize).Ok?
    requires Merged(UnitLink.Attach(m, link, normalize).document, joins, normalize, lower) == Some(m)
    ensures IsSettled(m, link, normalize)
  {
    hide Merged; hide Good; hide Ordinary; hide UnitLink.Attach; hide Value; hide IsSettled; hide TenantAt;
    var l := UnitLink.Attach(m, link, normalize).document;
    AttachedIsGood(m, link, normalize);
    AttachedSettles(m, link, normalize);
    SettledHasColumns(l, link, normalize);
    MergedIsGood(l, joins, normalize, lower);
    forall r | 0 <= r < |l.rows|
      ensures Value(m, r, UNIT, normalize) == Value(l, r, UNIT, normalize)
      ensures TenantAt(m, r, normalize) == TenantAt(l, r, normalize)
    {
      MergedColumnsKept(l, joins, r, normalize, lower);
      TenantKeptAgain(m, link, l, joins, r, normalize, lower);
    }
    SettledLike(l, m, link, normalize);
  }

  lemma {:induction false} SettledHasColumns(doc: Document, link: Document, normalize: Naming)
    requires IsSettled(doc, link, normalize)
    ensures HasColumns(doc, link, normalize)
  {
  }

  /** Merging again, with one link file among the files, changes nothing exactly when the
    * merged file is settled: unlinked tenants first, then each linked one's rows together,
    * one for each of its units in order.
    */
  lemma {:induction false} MergeAgainIff(primary: Document, files: seq<Document>, k: nat, normalize: Naming,
                                         lower: Lowering)
    requires OneLink(primary, files, k, normalize) && Merged(primary, files, normalize, lower).Some?
    ensures var once := Merged(primary, files, normalize, lower);
            Merged(once.value, files, normalize, lower) == once <==> IsSettled(once.value, files[k], normalize)
  {
    var link, joins := files[k], JoinFiles(files, |files|, normalize);
    var m := Merged(primary, files, normalize, lower).value;
    JoinsAreOrdinary(files, normalize);
    assert Good(primary, normalize) && NamesDiffer(normalize) && OnlyLink(files, k, normalize);
    hide *;
    MergedThroughLink(primary, files, k, normalize, lower);
    MergedThroughLink(m, files, k, normalize, lower);
    AttachedIsGood(primary, link, normalize);
    MergedIsGood(UnitLink.Attach(primary, link, normalize).document, joins, normalize, lower);
    AttachStaysIff(m, link, normalize);
    if Merged(m, files, normalize, lower) == Some(m) { FixedIsSettled(m, link, joins, normalize, lower); }
  }

  /** No row without a linked tenant is offered one. */
  ghost predicate GainsNoTenant(a: Document, joins: seq<Document>, link: Document, normalize: Naming, lower: Lowering)
    requires HasColumns(a, link, normalize)
  {
    forall r :: 0 <= r < |a.rows| && !UnitLink.Linked(HeldIn(link, normalize), TenantAt(a, r, normalize)) ==>
      !UnitLink.Linked(HeldIn(link, normalize), TenantOffered(a, joins, r, normalize, lower))
  }

  /** The tenant row `r` has once the files are joined. */
  function TenantOffered(a: Document, joins: seq<Document>, r: nat, normalize: Naming, lower: Lowering): string
    requires r < |a.rows|
  {
    var offer := FirstOffer(joins, |joins|, KeyOf(a, r, normalize, lower), UnitLink.TENANT_ID, normalize, lower);
    Text.Trim(Fill(Value(a, r, UnitLink.TENANT_ID, normalize), offer))
  }

  lemma {:induction false} LinkedNotBlank(link: Document, t: string, normalize: Naming)
    requires HeaderIndex(link.headers, UnitLink.TENANT_ID, normalize).Some?
    requires HeaderIndex(link.headers, UNIT, normalize).Some?
    requires UnitLink.Linked(HeldIn(link, normalize), t)
    ensures t != ""
  {
  }

  lemma {:induction false} JoinedStaysSettled(a: Document, link: Document, joins: seq<Document>, normalize: Naming,
                                              lower: Lowering)
    requires Good(a, normalize) && Ordinary(joins, normalize) && Merged(a, joins, normalize, lower).Some?
    requires IsSettled(a, link, normalize) && GainsNoTenant(a, joins, link, normalize, lower)
    ensures IsSettled(Merged(a, joins, normalize, lower).value, link, normalize)
  {
    hide Merged; hide Good; hide Ordinary; hide Value; hide IsSettled; hide FirstOffer; hide KeyOf; hide Text.Trim;
    hide UnitLink.Linked; hide HeldIn; hide HeaderIndex;
    SettledHasColumns(a, link, normalize);
    MergedIsGood(a, joins, normalize, lower);
    var m := Merged(a, joins, normalize, lower).value;
    forall r | 0 <= r < |a.rows|
      ensures Value(m, r, UNIT, normalize) == Value(a, r, UNIT, normalize)
      ensures if UnitLink.Linked(HeldIn(link, normalize), TenantAt(a, r, normalize))
              then TenantAt(m, r, normalize) == TenantAt(a, r, normalize)
              else !UnitLink.Linked(HeldIn(link, normalize), TenantAt(m, r, normalize))
    {
      MergedColumnsKept(a, joins, r, normalize, lower);
      MergeFillsBlanks(a, joins, r, UnitLink.TENANT_ID, normalize, lower);
      if UnitLink.Linked(HeldIn(link, normalize), TenantAt(a, r, normalize)) {
        LinkedNotBlank(link, TenantAt(a, r, normalize), normalize);
      }
    }
    SettledLike(a, m, link, normalize);
  }

  /** So merging again changes nothing, unless a row without a linked tenant is offered one. */
  lemma {:induction false} MergeWithLinkIsIdempotent(primary: Document, files: seq<Document>, k: nat,
                                                     normalize: Naming, lower: Lowering)
    requires OneLink(primary, files, k, normalize) && Merged(primary, files, normalize, lower).Some?
    requires var a := UnitLink.Attach(primary, files[k], normalize);
             a.Ok? && HasColumns(a.document, files[k], normalize) ==>
               GainsNoTenant(a.document, JoinFiles(files, |files|, normalize), files[k], normalize, lower)
    ensures var once := Merged(primary, files, normalize, lower); Merged(once.value, files, normalize, lower) == once
  {
    var link, joins := files[k], JoinFiles(files, |files|, normalize);
    JoinsAreOrdinary(files, normalize);
    assert Good(primary, normalize) && NamesDiffer(normalize) && OnlyLink(files, k, normalize);
    hide *;
    MergedThroughLink(primary, files, k, normalize, lower);
    var a := UnitLink.Attach(primary, link, normalize).document;
    AttachedIsGood(primary, link, normalize);
    AttachedSettles(primary, link, normalize);
    SettledHasColumns(a, link, normalize);
    JoinedStaysSettled(a, link, joins, normalize, lower);
    MergeAgainIff(primary, files, k, normalize, lower);
  }
}
