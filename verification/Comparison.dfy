/** Two listings of a field's values across a group of records: the distinct values
  * the mismatch report shows, and the values with their units that the note's
  * sentence is made of.
  */
module Comparison {
  import opened Lists
  import Images
  import Sorting
  import Text

  // ---------------------------------------------------------------- normalization

  datatype FieldKind = Plain | Address | Phone

  /** The character tables: lower-casing, alphanumeric characters, and street suffixes. */
  datatype Tables = Tables(lower: string -> string, isAlphanumeric: char -> bool, suffix: string -> string)

  const PLACEHOLDERS := ["n/a", "na", "none", "tbd", "unknown", "n.a.", "not applicable", "null", "nil", "xxx"]

  const BLANK := "(blank)"

  predicate IsEmpty(value: string) { Text.Trim(value) == "" }

  predicate IsPlaceholder(raw: string, tables: Tables) { tables.lower(Text.Trim(raw)) in PLACEHOLDERS }

  function CollapseWhitespace(v: string): string { Text.Join(Text.Words(v), " ") }

  function NormalizePhone(v: string): string { Keep(v, (c: char) => '0' <= c <= '9') }

  /** What an address is split into words as. */
  function Spaced(v: string, tables: Tables): string {
    Map(Keep(v, (c: char) => c != '.'),
        (c: char) => if tables.isAlphanumeric(c) || c == '_' || Text.IsWhitespace(c) then c else ' ')
  }

  /** The words an address is compared by: each is a suffix spelled out, or itself. */
  function AddressWords(v: string, tables: Tables): seq<string> { Map(Text.Words(Spaced(v, tables)), tables.suffix) }

  function NormalizeAddress(v: string, tables: Tables): string { Text.Join(AddressWords(v, tables), " ") }

  function NormalizeValue(kind: FieldKind, value: string, tables: Tables): string {
    if IsEmpty(value) then ""
    else
      var v := tables.lower(Text.Trim(value));
      match kind
      case Address => NormalizeAddress(v, tables)
      case Phone => NormalizePhone(v)
      case Plain => CollapseWhitespace(v)
  }

  // ---------------------------------------------------------------- keys

  datatype Key = Key(blank: bool, text: string)

  predicate IsBlank(kind: FieldKind, raw: string, tables: Tables) {
    IsEmpty(raw) || (kind == Plain && IsPlaceholder(raw, tables))
  }

  function ComparisonKey(kind: FieldKind, raw: string, tables: Tables): Key {
    if IsBlank(kind, raw, tables) then Key(true, "") else Key(false, NormalizeValue(kind, raw, tables))
  }

  /** How a value is shown. */
  function Display(kind: FieldKind, raw: string, tables: Tables): string {
    if IsBlank(kind, raw, tables) then BLANK else raw
  }

  /** Outer whitespace never matters to a key, whatever the field's kind. */
  lemma {:induction false} KeysIgnoreTrimming(kind: FieldKind, raw: string, tables: Tables)
    ensures ComparisonKey(kind, Text.Trim(raw), tables) == ComparisonKey(kind, raw, tables)
  {
    Text.TrimIdempotent(raw);
    hide Text.Trim; hide NormalizeAddress; hide NormalizePhone; hide CollapseWhitespace;
  }

  // ---------------------------------------------------------------- when two values compare equal

  predicate IsDigit(c: char) { '0' <= c <= '9' }

  /** A phone number is read character by character: a digit is kept, anything else is not. */
  lemma {:induction false} PhoneCharacter(v: string, c: char)
    ensures NormalizePhone("") == ""
    ensures NormalizePhone(v + [c]) == if IsDigit(c) then NormalizePhone(v) + [c] else NormalizePhone(v)
  {
    KeepSnoc(v, c, (c: char) => '0' <= c <= '9');
  }

  /** The key is blank exactly for an empty value, and for a placeholder in a plain field. */
  lemma {:induction false} BlankKeyIff(kind: FieldKind, raw: string, tables: Tables)
    ensures ComparisonKey(kind, raw, tables).blank <==>
            Text.Trim(raw) == "" || (kind == Plain && tables.lower(Text.Trim(raw)) in PLACEHOLDERS)
  {
  }

  /** Two phone numbers compare equal exactly when both are empty, or neither is and their
    * digits are the same in order.
    */
  lemma {:induction false} SamePhoneIff(a: string, b: string, tables: Tables)
    ensures ComparisonKey(Phone, a, tables) == ComparisonKey(Phone, b, tables) <==>
            (Text.Trim(a) == "" && Text.Trim(b) == "")
            || (Text.Trim(a) != "" && Text.Trim(b) != ""
                && NormalizePhone(tables.lower(Text.Trim(a))) == NormalizePhone(tables.lower(Text.Trim(b))))
  {
    hide Text.Trim; hide NormalizePhone;
  }

  /** Two values of a plain field compare equal exactly when both are empty or placeholders,
    * or neither is and they have the same words up to case.
    */
  lemma {:induction false} SamePlainIff(a: string, b: string, tables: Tables)
    ensures ComparisonKey(Plain, a, tables) == ComparisonKey(Plain, b, tables) <==>
            var x, y := tables.lower(Text.Trim(a)), tables.lower(Text.Trim(b));
            var noA, noB := Text.Trim(a) == "" || x in PLACEHOLDERS, Text.Trim(b) == "" || y in PLACEHOLDERS;
            noA == noB && (!noA ==> Text.Words(x) == Text.Words(y))
  {
    var x, y := tables.lower(Text.Trim(a)), tables.lower(Text.Trim(b));
    WordsReadBack(x);
    WordsReadBack(y);
    hide Text.Trim; hide Text.Words; hide Text.Join;
  }

  lemma {:induction false} WordsReadBack(v: string)
    ensures Text.Words(CollapseWhitespace(v)) == Text.Words(v)
  {
    var ws := Text.Words(v);
    forall i | 0 <= i < |ws| ensures Text.IsWord(ws[i]) { assert ws[i] in ws; }
    Text.WordsOfJoin(ws);
  }

  /** An address is read character by character: a period goes, letters, digits, underscores and
    * whitespace stay, anything else becomes a space.
    */
  lemma {:induction false} AddressCharacter(v: string, c: char, tables: Tables)
    ensures Spaced("", tables) == ""
    ensures Spaced(v + [c], tables) ==
            if c == '.' then Spaced(v, tables)
            else if tables.isAlphanumeric(c) || c == '_' || Text.IsWhitespace(c) then Spaced(v, tables) + [c]
            else Spaced(v, tables) + " "
  {
    KeepSnoc(v, c, (c: char) => c != '.');
    var keep := Keep(v, (c: char) => c != '.');
    if c != '.' {
      MapSnoc(keep, c, (c: char) => if tables.isAlphanumeric(c) || c == '_' || Text.IsWhitespace(c) then c else ' ');
    }
  }

  /** The suffix table spells words as words. */
  ghost predicate SpellsWords(tables: Tables) { forall w :: Text.IsWord(w) ==> Text.IsWord(tables.suffix(w)) }

  lemma {:induction false} AddressReadsBack(v: string, tables: Tables)
    requires SpellsWords(tables)
    ensures Text.Words(NormalizeAddress(v, tables)) == AddressWords(v, tables)
  {
    var words, spelled := Text.Words(Spaced(v, tables)), AddressWords(v, tables);
    forall i | 0 <= i < |spelled| ensures Text.IsWord(spelled[i]) {
      assert words[i] in words;
      assert Text.IsWord(words[i]);
    }
    Text.WordsOfJoin(spelled);
  }

  /** Two addresses compare equal exactly when both are empty, or neither is and they have the
    * same words, up to case, punctuation and the spelling of suffixes.
    */
  lemma {:induction false} SameAddressIff(a: string, b: string, tables: Tables)
    requires SpellsWords(tables)
    ensures ComparisonKey(Address, a, tables) == ComparisonKey(Address, b, tables) <==>
            (Text.Trim(a) == "" && Text.Trim(b) == "")
            || (Text.Trim(a) != "" && Text.Trim(b) != ""
                && AddressWords(tables.lower(Text.Trim(a)), tables) == AddressWords(tables.lower(Text.Trim(b)), tables))
  {
    AddressReadsBack(tables.lower(Text.Trim(a)), tables);
    AddressReadsBack(tables.lower(Text.Trim(b)), tables);
    hide Text.Trim; hide Text.Words; hide Text.Join; hide Spaced;
  }

  // ---------------------------------------------------------------- records

  /** A record, as far as one field is concerned. */
  datatype Record = Record(value: string, unit: string)

  /** A field: its kind, and how values are compared. */
  datatype Field = Field(kind: FieldKind, tables: Tables)

  /** The key under which a record is listed. */
  function KeyIn(field: Field): Record -> Key {
    (r: Record) => ComparisonKey(field.kind, Text.Trim(r.value), field.tables)
  }

  function DisplayIn(field: Field): Record -> string {
    (r: Record) => Display(field.kind, Text.Trim(r.value), field.tables)
  }

  function UnitOf(r: Record): string { r.unit }

  function WithKey(field: Field, key: Key): Record -> bool { (r: Record) => KeyIn(field)(r) == key }

  /** The keys present, in order of first appearance. */
  function Keys(group: seq<Record>, field: Field): seq<Key> { Distinct(Map(group, KeyIn(field))) }

  /** How the first record with the key is shown. */
  function FirstShown(group: seq<Record>, field: Field, key: Key): string {
    var those := Keep(group, WithKey(field, key));
    if those == [] then "" else DisplayIn(field)(those[0])
  }

  function UnitsWith(group: seq<Record>, field: Field, key: Key): seq<string> {
    Map(Keep(group, WithKey(field, key)), UnitOf)
  }

  // ---------------------------------------------------------------- orders

  predicate KeyLeq(a: Key, b: Key) { (!a.blank && b.blank) || (a.blank == b.blank && Text.StringLeq(a.text, b.text)) }

  /** Blank last, then alphabetical. */
  predicate ShownLeq(a: string, b: string) {
    (a != BLANK && b == BLANK) || ((a == BLANK) == (b == BLANK) && Text.StringLeq(a, b))
  }

  datatype Clause = Clause(shown: string, units: seq<string>)

  function Shown(c: Clause): string { c.shown }

  predicate ClauseLeq(a: Clause, b: Clause) { ShownLeq(a.shown, b.shown) }

  /** The keys of a sorted map, in order. */
  function SortedKeys(group: seq<Record>, field: Field): seq<Key> { Sorting.Sort(Keys(group, field), KeyLeq) }

  // ---------------------------------------------------------------- the two listings

  function ShownIn(group: seq<Record>, field: Field): Key -> string { key => FirstShown(group, field, key) }

  function ClauseIn(group: seq<Record>, field: Field): Key -> Clause {
    key => Clause(FirstShown(group, field, key), UnitsWith(group, field, key))
  }

  function SortUnits(c: Clause): Clause { c.(units := Sorting.Sort(c.units, Text.StringLeq)) }

  function DistinctDisplayValues(group: seq<Record>, field: Field): seq<string> {
    Sorting.Sort(Map(SortedKeys(group, field), ShownIn(group, field)), ShownLeq)
  }

  function UnitsByValue(group: seq<Record>, field: Field): seq<Clause> {
    Map(Sorting.Sort(Map(SortedKeys(group, field), ClauseIn(group, field)), ClauseLeq), SortUnits)
  }

  /** All records compare equal to the first, on their values as they stand. */
  predicate MatchesAcross(group: seq<Record>, field: Field) {
    forall i :: 0 < i < |group| ==>
      ComparisonKey(field.kind, group[i].value, field.tables) == ComparisonKey(field.kind, group[0].value, field.tables)
  }

  // ---------------------------------------------------------------- the theorems

  /** The report's list is the list of values in the sentence, in the same order. */
  lemma {:induction false} ListingsAgree(group: seq<Record>, field: Field)
    ensures Map(UnitsByValue(group, field), Shown) == DistinctDisplayValues(group, field)
  {
    var clauses := Map(SortedKeys(group, field), ClauseIn(group, field));
    hide SortedKeys; hide Sorting.Sort; hide ShownLeq;
    assert Map(clauses, Shown) == Map(SortedKeys(group, field), ShownIn(group, field));
    Images.SortMaps(clauses, Shown, ClauseLeq, ShownLeq);
    var sorted := Sorting.Sort(clauses, ClauseLeq);
    assert Map(Map(sorted, SortUnits), Shown) == Map(sorted, Shown);
  }

  lemma {:induction false} HowMany(group: seq<Record>, field: Field)
    ensures |DistinctDisplayValues(group, field)| == |Keys(group, field)|
  {
    Sorting.SortPermutes(Keys(group, field), KeyLeq);
    var shown := Map(SortedKeys(group, field), ShownIn(group, field));
    Sorting.SortPermutes(shown, ShownLeq);
    assert |multiset(SortedKeys(group, field))| == |multiset(Keys(group, field))|;
    assert |multiset(Sorting.Sort(shown, ShownLeq))| == |multiset(shown)|;
  }

  /** A field is flagged exactly when its list has at least two entries. */
  lemma {:induction false} FlaggedIffTwoValues(group: seq<Record>, field: Field)
    ensures !MatchesAcross(group, field) <==> |DistinctDisplayValues(group, field)| >= 2
  {
    HowMany(group, field);
    var column := Map(group, KeyIn(field));
    DistinctFacts(column);
    forall i | 0 <= i < |group| ensures column[i] == ComparisonKey(field.kind, group[i].value, field.tables) {
      KeysIgnoreTrimming(field.kind, group[i].value, field.tables);
    }
    hide DistinctDisplayValues; hide ComparisonKey; hide Distinct;
    TwoDistinct(column);
  }

  lemma {:induction false} TwoDistinct(column: seq<Key>)
    ensures |Distinct(column)| >= 2 <==> exists i :: 0 < i < |column| && column[i] != column[0]
  {
    var d := Distinct(column);
    DistinctFacts(column);
    hide Distinct;
    if i :| 0 < i < |column| && column[i] != column[0] {
      assert column[i] in d && column[0] in d;
    }
    if |d| >= 2 {
      assert d[0] in d && d[1] in d && d[0] != d[1];
      var i :| 0 <= i < |column| && column[i] == d[0];
      var j :| 0 <= j < |column| && column[j] == d[1];
      assert column[i] != column[0] || column[j] != column[0];
    }
  }

  // ---------------------------------------------------------------- the clauses partition the records

  /** `clause` is about the records with `key`, and all of them. */
  ghost predicate About(group: seq<Record>, field: Field, clause: Clause, key: Key) {
    && clause.shown == FirstShown(group, field, key)
    && Sorting.Sorted(clause.units, Text.StringLeq) && multiset(clause.units) == multiset(UnitsWith(group, field, key))
  }

  function ByShown(group: seq<Record>, field: Field): (Key, Key) -> bool {
    (a, b) => ShownLeq(FirstShown(group, field, a), FirstShown(group, field, b))
  }

  /** The keys in the order of their clauses. */
  function ClauseKeys(group: seq<Record>, field: Field): seq<Key> {
    Sorting.Sort(SortedKeys(group, field), ByShown(group, field))
  }

  lemma {:induction false} ClauseKeysFacts(group: seq<Record>, field: Field)
    ensures NoRepeats(ClauseKeys(group, field))
    ensures forall key :: key in ClauseKeys(group, field) <==> key in Map(group, KeyIn(field))
  {
    var keys, sorted, last := Keys(group, field), SortedKeys(group, field), ClauseKeys(group, field);
    DistinctFacts(Map(group, KeyIn(field)));
    Sorting.SortPermutes(keys, KeyLeq);
    Sorting.SortPermutes(sorted, ByShown(group, field));
    Sorting.SameMembers(last, sorted);
    Sorting.SameMembers(sorted, keys);
    StillNoRepeats(keys, last);
  }

  /** There is one clause per distinct key, and it lists exactly the units of the records with that key. */
  lemma {:induction false} ClausesPartition(group: seq<Record>, field: Field)
    ensures var clauses, keys := UnitsByValue(group, field), ClauseKeys(group, field);
            && |clauses| == |keys| && NoRepeats(keys)
               && (forall key :: key in keys <==> key in Map(group, KeyIn(field)))
            && forall i :: 0 <= i < |keys| ==> About(group, field, clauses[i], keys[i])
  {
    ClauseKeysFacts(group, field);
    var keys := ClauseKeys(group, field);
    hide SortedKeys; hide Sorting.Sort; hide ShownLeq; hide FirstShown; hide UnitsWith;
    Images.SortMaps(SortedKeys(group, field), ClauseIn(group, field), ByShown(group, field), ClauseLeq);
    forall i | 0 <= i < |keys| ensures About(group, field, UnitsByValue(group, field)[i], keys[i]) {
      SortedUnits(UnitsWith(group, field, keys[i]));
    }
  }

  lemma {:induction false} SortedUnits(units: seq<string>)
    ensures var s := Sorting.Sort(units, Text.StringLeq);
            Sorting.Sorted(s, Text.StringLeq) && multiset(s) == multiset(units)
  {
    Text.StringOrder();
    Sorting.SortSorted(units, Text.StringLeq);
    Sorting.SortPermutes(units, Text.StringLeq);
  }

  /** How often `u` is listed among the records with any of the first `n` keys. */
  function Listed(group: seq<Record>, field: Field, keys: seq<Key>, n: nat, u: string): nat
    requires n <= |keys|
  {
    if n == 0 then 0 else Listed(group, field, keys, n - 1, u) + multiset(UnitsWith(group, field, keys[n - 1]))[u]
  }

  lemma {:induction false} ListedSnoc(group: seq<Record>, r: Record, field: Field, keys: seq<Key>, n: nat, u: string)
    requires n <= |keys| && NoRepeats(keys)
    ensures Listed(group + [r], field, keys, n, u) ==
            Listed(group, field, keys, n, u) + if r.unit == u && KeyIn(field)(r) in keys[..n] then 1 else 0
  {
    hide UnitsWith; hide KeyIn;
    if n > 0 {
      ListedSnoc(group, r, field, keys, n - 1, u);
      assert keys[..n] == keys[..n - 1] + [keys[n - 1]];
      UnitsSnoc(group, r, field, keys[n - 1], u);
    }
  }

  lemma {:induction false} UnitsSnoc(group: seq<Record>, r: Record, field: Field, key: Key, u: string)
    ensures multiset(UnitsWith(group + [r], field, key))[u] ==
            multiset(UnitsWith(group, field, key))[u] + if r.unit == u && KeyIn(field)(r) == key then 1 else 0
  {
    KeepSnoc(group, r, WithKey(field, key));
    MapSnoc(Keep(group, WithKey(field, key)), r, UnitOf);
  }

  lemma {:induction false} NoneListed(field: Field, keys: seq<Key>, n: nat, u: string)
    requires n <= |keys|
    ensures Listed([], field, keys, n, u) == 0
  {
    if n > 0 { NoneListed(field, keys, n - 1, u); }
  }

  /** Every record's unit is listed exactly once over all clauses. */
  lemma {:induction false} EveryUnitListedOnce(group: seq<Record>, field: Field, keys: seq<Key>, u: string)
    requires NoRepeats(keys) && forall i :: 0 <= i < |group| ==> KeyIn(field)(group[i]) in keys
    ensures Listed(group, field, keys, |keys|, u) == multiset(Map(group, UnitOf))[u]
    decreases |group|
  {
    hide Listed; hide KeyIn;
    if group == [] {
      NoneListed(field, keys, |keys|, u);
    } else {
      var n := |group| - 1;
      assert group == group[..n] + [group[n]] && keys[..|keys|] == keys;
      EveryUnitListedOnce(group[..n], field, keys, u);
      ListedSnoc(group[..n], group[n], field, keys, |keys|, u);
      MapSnoc(group[..n], group[n], UnitOf);
    }
  }

  /** How often `u` is named in the first `n` clauses. */
  function Named(clauses: seq<Clause>, n: nat, u: string): nat
    requires n <= |clauses|
  {
    if n == 0 then 0 else Named(clauses, n - 1, u) + multiset(clauses[n - 1].units)[u]
  }

  lemma {:induction false} NamedIsListed(group: seq<Record>, field: Field, clauses: seq<Clause>, keys: seq<Key>, n: nat,
                                         u: string)
    requires n <= |keys| == |clauses| && forall i :: 0 <= i < |keys| ==> About(group, field, clauses[i], keys[i])
    ensures Named(clauses, n, u) == Listed(group, field, keys, n, u)
  {
    hide FirstShown; hide UnitsWith;
    if n > 0 {
      NamedIsListed(group, field, clauses, keys, n - 1, u);
      assert About(group, field, clauses[n - 1], keys[n - 1]);
    }
  }

  /** The sentence names every record's unit, as often as records have it, and no other. */
  lemma {:induction false} SentenceNamesEveryUnit(group: seq<Record>, field: Field, u: string)
    ensures Named(UnitsByValue(group, field), |UnitsByValue(group, field)|, u) == multiset(Map(group, UnitOf))[u]
  {
    var clauses, keys := UnitsByValue(group, field), ClauseKeys(group, field);
    ClausesPartition(group, field);
    hide UnitsByValue; hide ClauseKeys; hide About;
    NamedIsListed(group, field, clauses, keys, |keys|, u);
    forall i | 0 <= i < |group|
      ensures KeyIn(field)(group[i]) in keys
    {
      assert Map(group, KeyIn(field))[i] in Map(group, KeyIn(field));
    }
    EveryUnitListedOnce(group, field, keys, u);
  }

  // ---------------------------------------------------------------- shown twice

  lemma {:induction false} ShownTellsKey(group: seq<Record>, field: Field, key: Key)
    requires key in Keys(group, field)
    ensures key.blank ==> key == Key(true, "") && FirstShown(group, field, key) == BLANK
    ensures !key.blank ==> ComparisonKey(field.kind, FirstShown(group, field, key), field.tables) == key
  {
    var those := Keep(group, WithKey(field, key));
    KeyPresent(group, field, key);
    KeepMembers(group, WithKey(field, key));
    assert those[0] in those;
    hide Text.Trim; hide NormalizeValue; hide IsPlaceholder;
  }

  /** A key is shown as its first record's trimmed value, or as blank. */
  lemma {:induction false} ShownIsFirst(group: seq<Record>, field: Field, key: Key) returns (i: nat)
    requires key in Map(group, KeyIn(field))
    ensures i < |group| && KeyIn(field)(group[i]) == key && forall j :: 0 <= j < i ==> KeyIn(field)(group[j]) != key
    ensures FirstShown(group, field, key) == if key.blank then BLANK else Text.Trim(group[i].value)
  {
    var ix := KeepIndices(group, WithKey(field, key));
    var k :| 0 <= k < |group| && Map(group, KeyIn(field))[k] == key;
    assert WithKey(field, key)(group[k]);
    assert k in ix;
    i := ix[0];
    forall j | 0 <= j < i ensures KeyIn(field)(group[j]) != key {
      assert forall m :: 0 <= m < |ix| ==> ix[0] <= ix[m];
      assert j !in ix;
      assert !WithKey(field, key)(group[j]);
    }
    hide Text.Trim; hide NormalizeValue; hide IsPlaceholder; hide Keep;
  }

  /** Listed values are in order: "(blank)" after all others, the others by the order of strings. */
  lemma {:induction false} ListedInOrder(group: seq<Record>, field: Field, i: nat, j: nat)
    requires i < j < |DistinctDisplayValues(group, field)|
    ensures var values := DistinctDisplayValues(group, field);
            && (values[i] == BLANK ==> values[j] == BLANK)
            && (values[j] != BLANK ==> Text.StringLeq(values[i], values[j]))
  {
    var shown := Map(SortedKeys(group, field), ShownIn(group, field));
    ShownOrder();
    Sorting.SortSorted(shown, ShownLeq);
    hide Sorting.Sort; hide SortedKeys; hide Text.StringLeq;
    assert ShownLeq(DistinctDisplayValues(group, field)[i], DistinctDisplayValues(group, field)[j]);
  }

  lemma {:induction false} ShownOrder()
    ensures Sorting.TotalPreorder(ShownLeq)
  {
    Text.StringOrder();
    hide Text.StringLeq;
  }

  /** A record's own value reads "(blank)" and heads its key, beside records that are blank. */
  ghost predicate BlankAmbiguous(group: seq<Record>, field: Field) {
    && Key(true, "") in Keys(group, field)
    && exists key :: key in Keys(group, field) && !key.blank && FirstShown(group, field, key) == BLANK
  }

  /** The values listed are all different, except that "(blank)" is listed twice when a record's own value reads so. */
  lemma {:induction false} ValuesDifferUnlessAmbiguous(group: seq<Record>, field: Field)
    ensures NoRepeats(DistinctDisplayValues(group, field)) <==> !BlankAmbiguous(group, field)
  {
    var keys := SortedKeys(group, field);
    var shown := Map(keys, ShownIn(group, field));
    SortedKeysPresent(group, field);
    DistinctFacts(Map(group, KeyIn(field)));
    Sorting.SortPermutes(Keys(group, field), KeyLeq);
    StillNoRepeats(Keys(group, field), keys);
    Sorting.SortPermutes(shown, ShownLeq);
    if NoRepeats(shown) { StillNoRepeats(shown, Sorting.Sort(shown, ShownLeq)); }
    if NoRepeats(Sorting.Sort(shown, ShownLeq)) { StillNoRepeats(Sorting.Sort(shown, ShownLeq), shown); }
    hide Keys; hide SortedKeys; hide FirstShown; hide ComparisonKey; hide Sorting.Sort;
    SameShown(group, field, keys, shown);
  }

  lemma {:induction false} SameShown(group: seq<Record>, field: Field, keys: seq<Key>, shown: seq<string>)
    requires NoRepeats(keys) && (forall key :: key in keys <==> key in Keys(group, field))
             && shown == Map(keys, ShownIn(group, field))
    ensures NoRepeats(shown) <==> !BlankAmbiguous(group, field)
  {
    hide Keys; hide FirstShown; hide ComparisonKey;
    forall i | 0 <= i < |keys|
      ensures keys[i].blank ==> keys[i] == Key(true, "") && shown[i] == BLANK
      ensures !keys[i].blank ==> ComparisonKey(field.kind, shown[i], field.tables) == keys[i]
    {
      assert keys[i] in keys;
      ShownTellsKey(group, field, keys[i]);
    }
    if BlankAmbiguous(group, field) {
      var key :| key in Keys(group, field) && !key.blank && FirstShown(group, field, key) == BLANK;
      var i :| 0 <= i < |keys| && keys[i] == key;
      var j :| 0 <= j < |keys| && keys[j] == Key(true, "");
      assert shown[i] == shown[j];
    } else {
      forall i, j | 0 <= i < j < |shown| ensures shown[i] != shown[j] { assert keys[i] in keys && keys[j] in keys; }
    }
  }

  lemma {:induction false} LiteralKeys(field: Field, u: string, v: string)
    requires field.tables.lower(BLANK) == BLANK
    ensures !KeyIn(field)(Record(BLANK, u)).blank && DisplayIn(field)(Record(BLANK, u)) == BLANK
    ensures KeyIn(field)(Record("", v)) == Key(true, "") && DisplayIn(field)(Record("", v)) == BLANK
  {
    assert Text.Trim(BLANK) == BLANK;
    hide NormalizeValue;
  }

  lemma {:induction false} Pair<T>(x: T, y: T, p: T -> bool)
    ensures x != y ==> Distinct([x, y]) == [x, y]
    ensures Keep([x, y], p) == (if p(x) then [x] else []) + (if p(y) then [y] else [])
  {
    assert [x, y][..1] == [x] && [x][..0] == [];
    assert Distinct([x]) == [x];
    assert Keep([x], p) == if p(x) then [x] else [];
  }

  lemma {:induction false} TwoKeys(r: Record, e: Record, field: Field)
    requires KeyIn(field)(r) != KeyIn(field)(e)
    ensures Keys([r, e], field) == [KeyIn(field)(r), KeyIn(field)(e)]
    ensures FirstShown([r, e], field, KeyIn(field)(r)) == DisplayIn(field)(r)
    ensures FirstShown([r, e], field, KeyIn(field)(e)) == DisplayIn(field)(e)
  {
    var x, y := KeyIn(field)(r), KeyIn(field)(e);
    Pair(x, y, k => true);
    Pair(r, e, WithKey(field, x));
    Pair(r, e, WithKey(field, y));
    hide ComparisonKey; hide Display; hide Distinct; hide Keep;
    assert Map([r, e], KeyIn(field)) == [x, y];
  }

  lemma {:induction false} AllBlank(shown: seq<string>)
    requires |shown| == 2 && shown[0] == shown[1] == BLANK
    ensures Sorting.Sort(shown, ShownLeq) == [BLANK, BLANK]
  {
    Sorting.SortPermutes(shown, ShownLeq);
    hide Sorting.Sort;
    var listed := Sorting.Sort(shown, ShownLeq);
    assert |listed| == |multiset(listed)| == |multiset(shown)| == 2;
    forall i | 0 <= i < 2 ensures listed[i] == BLANK { assert listed[i] in multiset(shown); }
  }

  lemma {:induction false} KeyOrder()
    ensures Sorting.TotalPreorder(KeyLeq)
  {
    Text.StringOrder();
    hide Text.StringLeq;
  }

  lemma {:induction false} ByShownOrder(group: seq<Record>, field: Field)
    ensures Sorting.TotalPreorder(ByShown(group, field))
  {
    ShownOrder();
    hide ShownLeq; hide FirstShown;
  }

  /** Of two clauses shown alike, the first is a record's own value and the second is blank. */
  lemma {:induction false} OwnValueFirst(group: seq<Record>, field: Field, i: nat, j: nat)
    requires i < j < |ClauseKeys(group, field)|
    requires var keys := ClauseKeys(group, field);
             FirstShown(group, field, keys[i]) == FirstShown(group, field, keys[j])
    ensures !ClauseKeys(group, field)[i].blank && ClauseKeys(group, field)[j].blank
  {
    var keys := ClauseKeys(group, field);
    KeyOrder();
    ByShownOrder(group, field);
    Sorting.SortSorted(Keys(group, field), KeyLeq);
    Sorting.SortSorted(SortedKeys(group, field), ByShown(group, field));
    Sorting.SortKeepsOrder(SortedKeys(group, field), ByShown(group, field), KeyLeq, i, j);
    ClauseKeysFacts(group, field);
    DistinctFacts(Map(group, KeyIn(field)));
    assert keys[i] in keys && keys[j] in keys;
    ShownTellsKey(group, field, keys[i]);
    ShownTellsKey(group, field, keys[j]);
    hide Sorting.Sort; hide FirstShown; hide ComparisonKey; hide Text.StringLeq; hide Distinct;
    assert keys[i] != keys[j];
  }

  /** One record that reads "(blank)" and one that is empty: "(blank)" is listed twice. */
  lemma {:induction false} BlankListedTwice(field: Field, u: string, v: string)
    requires field.tables.lower(BLANK) == BLANK
    ensures var group := [Record(BLANK, u), Record("", v)];
            BlankAmbiguous(group, field) && DistinctDisplayValues(group, field) == [BLANK, BLANK]
  {
    var r, e := Record(BLANK, u), Record("", v);
    var group := [r, e];
    LiteralKeys(field, u, v);
    TwoKeys(r, e, field);
    hide KeyIn; hide DisplayIn; hide Keys; hide FirstShown;
    Sorting.SortPermutes(Keys(group, field), KeyLeq);
    hide Sorting.Sort;
    var keys := SortedKeys(group, field);
    assert |keys| == |multiset(keys)| == |multiset(Keys(group, field))| == 2;
    forall i | 0 <= i < 2 ensures ShownIn(group, field)(keys[i]) == BLANK { assert keys[i] in multiset(keys); }
    AllBlank(Map(keys, ShownIn(group, field)));
  }

  // ---------------------------------------------------------------- the loops

  /** What a record adds to the clause under its key. */
  function Added(before: seq<Key>, clause: Clause, key: Key, mine: Key, shown: string, unit: string): Clause {
    if key != mine then clause
    else if key in before then clause.(units := clause.units + [unit]) else Clause(shown, [unit])
  }

  lemma {:induction false} ReadRecord(group: seq<Record>, i: nat, field: Field, key: Key)
    requires i < |group|
    ensures var mine, keys := KeyIn(field)(group[i]), Keys(group[..i], field);
            && Keys(group[..i + 1], field) == (if mine in keys then keys else keys + [mine])
            && ClauseIn(group[..i + 1], field)(key) ==
               Added(keys, ClauseIn(group[..i], field)(key), key, mine, DisplayIn(field)(group[i]), group[i].unit)
  {
    var r, those := group[i], Keep(group[..i], WithKey(field, key));
    assert group[..i + 1] == group[..i] + [r];
    MapSnoc(group[..i], r, KeyIn(field));
    DistinctSnoc(Map(group[..i], KeyIn(field)), KeyIn(field)(r));
    DistinctFacts(Map(group[..i], KeyIn(field)));
    KeepSnoc(group[..i], r, WithKey(field, key));
    MapSnoc(those, r, UnitOf);
    KeyPresent(group[..i], field, key);
  }

  lemma {:induction false} KeyPresent(group: seq<Record>, field: Field, key: Key)
    ensures key in Keys(group, field) <==> Keep(group, WithKey(field, key)) != []
  {
    var those, column := Keep(group, WithKey(field, key)), Map(group, KeyIn(field));
    DistinctFacts(column);
    KeepMembers(group, WithKey(field, key));
    if those != [] {
      assert those[0] in those;
      var i :| 0 <= i < |group| && group[i] == those[0];
      assert column[i] == key;
    }
    if key in column {
      var i :| 0 <= i < |column| && column[i] == key;
      assert group[i] in group;
    }
  }

  /** The map holds the clause of every key read so far. */
  ghost predicate HoldsClauses(group: seq<Record>, field: Field, order: seq<Key>, byKey: map<Key, Clause>) {
    && order == Keys(group, field)
    && forall key :: (key in byKey <==> key in order) && (key in byKey ==> byKey[key] == ClauseIn(group, field)(key))
  }

  ghost predicate HoldsShown(group: seq<Record>, field: Field, order: seq<Key>, byKey: map<Key, string>) {
    && order == Keys(group, field)
    && forall key :: (key in byKey <==> key in order) && (key in byKey ==> byKey[key] == FirstShown(group, field, key))
  }

  lemma {:induction false} HoldsNext(group: seq<Record>, i: nat, field: Field, order: seq<Key>, byKey: map<Key, Clause>)
    requires i < |group| && HoldsClauses(group[..i], field, order, byKey)
    ensures var mine, shown, unit := KeyIn(field)(group[i]), DisplayIn(field)(group[i]), group[i].unit;
            HoldsClauses(group[..i + 1], field, if mine in byKey then order else order + [mine],
                         byKey[mine := if mine in byKey then byKey[mine].(units := byKey[mine].units + [unit])
                               else Clause(shown, [unit])])
  {
    hide Keys; hide KeyIn; hide DisplayIn; hide ClauseIn;
    ReadRecord(group, i, field, KeyIn(field)(group[i]));
    forall key ensures ClauseIn(group[..i + 1], field)(key) ==
                       Added(order, ClauseIn(group[..i], field)(key), key, KeyIn(field)(group[i]),
                             DisplayIn(field)(group[i]), group[i].unit)
    {
      ReadRecord(group, i, field, key);
    }
  }

  lemma {:induction false} ShownNext(group: seq<Record>, i: nat, field: Field, order: seq<Key>, byKey: map<Key, string>)
    requires i < |group| && HoldsShown(group[..i], field, order, byKey)
    ensures var mine, shown := KeyIn(field)(group[i]), DisplayIn(field)(group[i]);
            HoldsShown(group[..i + 1], field, if mine in byKey then order else order + [mine],
                       if mine in byKey then byKey else byKey[mine := shown])
  {
    hide Keys; hide KeyIn; hide DisplayIn; hide FirstShown;
    ReadRecord(group, i, field, KeyIn(field)(group[i]));
    forall key ensures FirstShown(group[..i + 1], field, key) ==
                       if key == KeyIn(field)(group[i]) && key !in order then DisplayIn(field)(group[i])
                           else FirstShown(group[..i], field, key)
    {
      ReadShown(group, i, field, key);
    }
    hide ClauseIn;
  }

  lemma {:induction false} ReadShown(group: seq<Record>, i: nat, field: Field, key: Key)
    requires i < |group|
    ensures FirstShown(group[..i + 1], field, key) ==
            if key == KeyIn(field)(group[i]) && key !in Keys(group[..i], field) then DisplayIn(field)(group[i])
            else FirstShown(group[..i], field, key)
  {
    ReadRecord(group, i, field, key);
    hide Keys; hide KeyIn; hide DisplayIn; hide FirstShown;
  }

  lemma {:induction false} SortedKeysPresent(group: seq<Record>, field: Field)
    ensures forall key :: key in SortedKeys(group, field) <==> key in Keys(group, field)
  {
    Sorting.SortPermutes(Keys(group, field), KeyLeq);
    Sorting.SameMembers(SortedKeys(group, field), Keys(group, field));
  }

  method ListDistinctValues(group: seq<Record>, field: Field) returns (values: seq<string>)
    ensures values == DistinctDisplayValues(group, field)
  {
    var order: seq<Key>, byKey: map<Key, string> := [], map[];
    for i := 0 to |group|
      invariant HoldsShown(group[..i], field, order, byKey)
    {
      var key, shown := KeyIn(field)(group[i]), DisplayIn(field)(group[i]);
      ShownNext(group, i, field, order, byKey);
      if key !in byKey { order, byKey := order + [key], byKey[key := shown]; }
    }
    assert group[..|group|] == group;
    var keys := Sorting.Sort(order, KeyLeq);
    SortedKeysPresent(group, field);
    var inOrder := [];
    for k := 0 to |keys|
      invariant inOrder == Map(keys[..k], ShownIn(group, field))
    {
      assert keys[k] in keys && keys[..k + 1] == keys[..k] + [keys[k]];
      MapSnoc(keys[..k], keys[k], ShownIn(group, field));
      inOrder := inOrder + [byKey[keys[k]]];
    }
    assert keys[..|keys|] == keys;
    values := Sorting.Sort(inOrder, ShownLeq);
  }

  method ListUnitsByValue(group: seq<Record>, field: Field) returns (clauses: seq<Clause>)
    ensures clauses == UnitsByValue(group, field)
  {
    var order, byKey := ReadClauses(group, field);
    hide HoldsClauses; hide Sorting.Sort; hide ClauseIn; hide SortUnits; hide Keys;
    ClausesHeld(group, field, order, byKey);
    var keys := Sorting.Sort(order, KeyLeq);
    SortedKeysPresent(group, field);
    var inOrder := [];
    for k := 0 to |keys|
      invariant inOrder == Map(keys[..k], ClauseIn(group, field))
    {
      assert keys[k] in keys && keys[..k + 1] == keys[..k] + [keys[k]];
      MapSnoc(keys[..k], keys[k], ClauseIn(group, field));
      inOrder := inOrder + [byKey[keys[k]]];
    }
    assert keys[..|keys|] == keys;
    var sorted := Sorting.Sort(inOrder, ClauseLeq);
    clauses := [];
    for k := 0 to |sorted|
      invariant clauses == Map(sorted[..k], SortUnits)
    {
      assert sorted[..k + 1] == sorted[..k] + [sorted[k]];
      MapSnoc(sorted[..k], sorted[k], SortUnits);
      clauses := clauses + [SortUnits(sorted[k])];
    }
    assert sorted[..|sorted|] == sorted;
  }

  lemma {:induction false} ClausesHeld(group: seq<Record>, field: Field, order: seq<Key>, byKey: map<Key, Clause>)
    requires HoldsClauses(group, field, order, byKey)
    ensures order == Keys(group, field)
    ensures forall key :: key in order ==> key in byKey && byKey[key] == ClauseIn(group, field)(key)
  {
  }

  method ReadClauses(group: seq<Record>, field: Field) returns (order: seq<Key>, byKey: map<Key, Clause>)
    ensures HoldsClauses(group, field, order, byKey)
  {
    hide HoldsClauses; hide KeyIn; hide DisplayIn;
    order, byKey := [], map[];
    HoldsNothing(field);
    assert group[..0] == [];
    for i := 0 to |group|
      invariant HoldsClauses(group[..i], field, order, byKey)
    {
      var key, shown, unit := KeyIn(field)(group[i]), DisplayIn(field)(group[i]), group[i].unit;
      HoldsNext(group, i, field, order, byKey);
      if key in byKey {
        byKey := byKey[key := byKey[key].(units := byKey[key].units + [unit])];
      } else {
        order, byKey := order + [key], byKey[key := Clause(shown, [unit])];
      }
    }
    assert group[..|group|] == group;
  }

  lemma {:induction false} HoldsNothing(field: Field)
    ensures HoldsClauses([], field, [], map[])
  {
  }
}
