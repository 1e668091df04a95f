/** What a merged cell holds, told from the rows of the files. */
module JoinOffers {
  import opened Options
  import opened Csv
  import opened Joining
  import opened JoinMeaning
  import Text

  /** Only whitespace counts as blank, and all of it does. */
  lemma {:induction false} BlankIff(value: string)
    ensures Blank(value) <==> Text.AllWhitespace(value)
  {
    var before, after := Text.TrimCuts(value);
    var core := Text.Trim(value);
    hide Text.Trim;
    if core != "" {
      assert value[|before|] == core[0];
    } else {
      assert value == before + after;
    }
  }

  /** Row `i` is the first of the file that meets the key, and its cell in column `h`, trimmed, is `offer`. */
  ghost predicate Holds(join: Document, i: nat, key: Key, h: string, offer: string, normalize: Naming,
                        lower: Lowering)
  {
    var unit, name := HeaderIndex(join.headers, UNIT, normalize), HeaderIndex(join.headers, NAME, normalize);
    var column := HeaderIndex(join.headers, h, normalize);
    && unit.Some? && name.Some? && column.Some? && column != unit && column != name
    && IsFirst(join.rows, i, unit.value, name.value, key, lower)
    && offer == Text.Trim(Cell(join.rows[i], column.value))
  }

  /** The file has something for the key in column `h`. */
  ghost predicate Offers(join: Document, key: Key, h: string, normalize: Naming, lower: Lowering) {
    exists i: nat, offer :: Holds(join, i, key, h, offer, normalize, lower) && offer != ""
  }

  /** File `f` is the first with something for the key in column `h`, and that is `offer`. */
  ghost predicate IsFirstOffer(files: seq<Document>, f: nat, key: Key, h: string, offer: string, normalize: Naming,
                               lower: Lowering)
  {
    && f < |files| && offer != "" && (exists i: nat :: Holds(files[f], i, key, h, offer, normalize, lower))
    && forall j :: 0 <= j < f ==> !Offers(files[j], key, h, normalize, lower)
  }

  lemma {:induction false} FirstUnique(rows: seq<Row>, i: nat, j: nat, unit: nat, name: nat, key: Key, lower: Lowering)
    requires IsFirst(rows, i, unit, name, key, lower) && IsFirst(rows, j, unit, name, key, lower)
    ensures i == j
  {
    hide HasKey;
  }

  lemma {:induction false} OfferIs(join: Document, key: Key, h: string, normalize: Naming, lower: Lowering)
    ensures var offer := Offer(join, key, h, normalize, lower);
            && (offer != "" ==> exists i: nat :: Holds(join, i, key, h, offer, normalize, lower))
            && (offer != "" <==> Offers(join, key, h, normalize, lower))
  {
    hide HeaderIndex; hide FirstMatch; hide Text.Trim; hide HasKey; hide RowKey;
    var unit, name := HeaderIndex(join.headers, UNIT, normalize), HeaderIndex(join.headers, NAME, normalize);
    var offer := Offer(join, key, h, normalize, lower);
    if unit.Some? && name.Some? {
      FirstMatchIsFirst(join.rows, unit.value, name.value, key, lower);
    }
    if offer != "" {
      var i: nat :| IsFirst(join.rows, i, unit.value, name.value, key, lower)
        && FirstMatch(join.rows, unit.value, name.value, key, lower).value == join.rows[i];
      assert Holds(join, i, key, h, offer, normalize, lower);
    }
    if Offers(join, key, h, normalize, lower) {
      var i: nat, held :| Holds(join, i, key, h, held, normalize, lower) && held != "";
      var k: nat :| IsFirst(join.rows, k, unit.value, name.value, key, lower)
        && FirstMatch(join.rows, unit.value, name.value, key, lower).value == join.rows[k];
      FirstUnique(join.rows, i, k, unit.value, name.value, key, lower);
    }
  }

  lemma {:induction false} FirstOfferIs(files: seq<Document>, n: nat, key: Key, h: string, normalize: Naming,
                                        lower: Lowering)
    requires n <= |files|
    ensures var offer := FirstOffer(files, n, key, h, normalize, lower);
            if offer == "" then forall j :: 0 <= j < n ==> !Offers(files[j], key, h, normalize, lower)
            else exists f: nat :: f < n && IsFirstOffer(files, f, key, h, offer, normalize, lower)
    decreases n
  {
    hide Offer; hide Offers; hide Holds;
    if n > 0 {
      FirstOfferIs(files, n - 1, key, h, normalize, lower);
      OfferIs(files[n - 1], key, h, normalize, lower);
      if FirstOffer(files, n - 1, key, h, normalize, lower) == "" {
        var offer := Offer(files[n - 1], key, h, normalize, lower);
        assert offer != "" ==> IsFirstOffer(files, n - 1, key, h, offer, normalize, lower);
      }
    }
  }

  /** A cell of the merged file is the main file's unless that is all whitespace; then it is the
    * trimmed cell of the first row that meets the key, in the first file where that is
    * not blank; and it stays as it was if there is no such file.
    */
  lemma {:induction false} MergedCellIs(primary: Document, files: seq<Document>, r: nat, h: string,
                                        normalize: Naming, lower: Lowering)
    requires Good(primary, normalize) && Ordinary(files, normalize) && Merged(primary, files, normalize, lower).Some?
             && r < |primary.rows|
    ensures var m := Merged(primary, files, normalize, lower).value;
            var key := KeyOf(primary, r, normalize, lower);
            && |m.rows| == |primary.rows|
            && var was, now := Value(primary, r, h, normalize), Value(m, r, h, normalize);
            if Text.AllWhitespace(was) && exists j :: 0 <= j < |files| && Offers(files[j], key, h, normalize, lower)
            then exists f: nat :: IsFirstOffer(files, f, key, h, now, normalize, lower)
            else now == was
  {
    var key := KeyOf(primary, r, normalize, lower);
    MergeFillsBlanks(primary, files, r, h, normalize, lower);
    FirstOfferIs(files, |files|, key, h, normalize, lower);
    BlankIff(Value(primary, r, h, normalize));
    hide Good; hide Ordinary; hide Merged; hide Value; hide KeyOf; hide Offers; hide FirstOffer; hide Blank;
    hide Text.AllWhitespace;
    forall f: nat, offer | IsFirstOffer(files, f, key, h, offer, normalize, lower)
      ensures Offers(files[f], key, h, normalize, lower)
    {
      var i: nat :| Holds(files[f], i, key, h, offer, normalize, lower);
      assert Offers(files[f], key, h, normalize, lower);
    }
  }
}
