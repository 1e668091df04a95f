/** Which columns merging adds to the main file, and in what order. */
module JoinColumns {
  import opened Options
  import opened Csv
  import opened Joining

  predicate HasName(headers: seq<string>, h: string, normalize: Naming) {
    exists i :: 0 <= i < |headers| && normalize(headers[i]) == normalize(h)
  }

  /** No column before the `k`-th goes by its name. */
  predicate IsNew(headers: seq<string>, k: nat, normalize: Naming)
    requires k < |headers|
  {
    !HasName(headers[..k], headers[k], normalize)
  }

  /** The headers from `from` up to `n` whose name is new, in order. */
  function NewNames(headers: seq<string>, from: nat, n: nat, normalize: Naming): seq<string>
    requires from <= n <= |headers|
  {
    if n == from then []
    else NewNames(headers, from, n - 1, normalize) + if IsNew(headers, n - 1, normalize) then [headers[n - 1]] else []
  }

  /** `own`, and those of `more` whose name is new. */
  function WithNew(own: seq<string>, more: seq<string>, normalize: Naming): seq<string> {
    own + NewNames(own + more, |own|, |own + more|, normalize)
  }

  lemma {:induction false} NewNamesPrefix(a: seq<string>, b: seq<string>, from: nat, n: nat, normalize: Naming)
    requires from <= n <= |a| && a <= b
    ensures NewNames(a, from, n, normalize) == NewNames(b, from, n, normalize)
  {
    if n > from {
      NewNamesPrefix(a, b, from, n - 1, normalize);
      assert a[..n - 1] == b[..n - 1];
    }
  }

  lemma {:induction false} HasNameSnoc(headers: seq<string>, h: string, x: string, normalize: Naming)
    ensures HasName(headers + [h], x, normalize) <==> HasName(headers, x, normalize) || normalize(h) == normalize(x)
  {
    if HasName(headers, x, normalize) {
      var i :| 0 <= i < |headers| && normalize(headers[i]) == normalize(x);
      assert (headers + [h])[i] == headers[i];
    }
    assert (headers + [h])[|headers|] == h;
  }

  lemma {:induction false} WithNewSnoc(own: seq<string>, more: seq<string>, h: string, normalize: Naming)
    ensures WithNew(own, more + [h], normalize) ==
            if HasName(own + more, h, normalize) then WithNew(own, more, normalize)
            else WithNew(own, more, normalize) + [h]
  {
    var all := own + (more + [h]);
    var n := |own + more|;
    assert all[..n] == own + more && all[n] == h;
    hide HasName;
    NewNamesPrefix(own + more, all, |own|, n, normalize);
  }

  /** Leaving out repeated names loses no name. */
  lemma {:induction false} SameNames(own: seq<string>, more: seq<string>, x: string, normalize: Naming)
    ensures HasName(WithNew(own, more, normalize), x, normalize) <==> HasName(own + more, x, normalize)
    decreases |more|
  {
    if more == [] {
      assert own + more == own && WithNew(own, more, normalize) == own;
    } else {
      var n := |more| - 1;
      var rest, h := more[..n], more[n];
      assert more == rest + [h] && own + more == (own + rest) + [h];
      WithNewSnoc(own, rest, h, normalize);
      SameNames(own, rest, x, normalize);
      HasNameSnoc(own + rest, h, x, normalize);
      HasNameSnoc(WithNew(own, rest, normalize), h, x, normalize);
      NamesakeHas(own + rest, h, x, normalize);
      hide WithNew; hide HasName;
    }
  }

  lemma {:induction false} NamesakeHas(headers: seq<string>, h: string, x: string, normalize: Naming)
    ensures HasName(headers, h, normalize) && normalize(h) == normalize(x) ==> HasName(headers, x, normalize)
  {
  }

  lemma {:induction false} Found(headers: seq<string>, h: string, normalize: Naming)
    ensures HeaderIndex(headers, h, normalize).Some? <==> HasName(headers, h, normalize)
  {
  }

  /** Adding one column to a file with the columns so far. */
  lemma {:induction false} AddOne(doc: Document, own: seq<string>, more: seq<string>, h: string, normalize: Naming)
    requires doc.headers == WithNew(own, more, normalize)
    ensures WithColumn(doc, h, normalize).headers == WithNew(own, more + [h], normalize)
  {
    Found(doc.headers, h, normalize);
    SameNames(own, more, h, normalize);
    WithNewSnoc(own, more, h, normalize);
    hide WithNew; hide HasName; hide HeaderIndex;
  }

  /** A column that is there already adds nothing. */
  lemma {:induction false} AddNone(own: seq<string>, more: seq<string>, h: string, normalize: Naming)
    requires HasName(own, h, normalize)
    ensures WithNew(own, more + [h], normalize) == WithNew(own, more, normalize)
  {
    var i :| 0 <= i < |own| && normalize(own[i]) == normalize(h);
    assert (own + more)[i] == own[i];
    WithNewSnoc(own, more, h, normalize);
  }

  lemma {:induction false} NextExtra(doc: Document, headers: seq<string>, n: nat, unit: nat, name: nat,
                                     normalize: Naming)
    requires 0 < n <= |headers|
    ensures var before := WithColumns(doc, headers, Extras(n - 1, unit, name), normalize);
            WithColumns(doc, headers, Extras(n, unit, name), normalize) ==
            if n - 1 == unit || n - 1 == name then before else WithColumn(before, headers[n - 1], normalize)
  {
    hide WithColumn;
    var before := Extras(n - 1, unit, name);
    if n - 1 != unit && n - 1 != name {
      assert Extras(n, unit, name) == before + [n - 1] && (before + [n - 1])[..|before|] == before;
    } else {
      assert Extras(n, unit, name) == before;
    }
  }

  lemma {:induction false} NoExtras(doc: Document, headers: seq<string>, unit: nat, name: nat, normalize: Naming)
    ensures WithColumns(doc, headers, Extras(0, unit, name), normalize) == doc
  {
  }

  lemma {:induction false} AddAll(doc: Document, own: seq<string>, more: seq<string>, headers: seq<string>, n: nat,
                                  unit: nat, name: nat, normalize: Naming)
    requires doc.headers == WithNew(own, more, normalize) && n <= |headers| && unit < |headers| && name < |headers|
    requires HasName(own, headers[unit], normalize) && HasName(own, headers[name], normalize)
    ensures WithColumns(doc, headers, Extras(n, unit, name), normalize).headers ==
            WithNew(own, more + headers[..n], normalize)
    decreases n
  {
    hide *;
    if n == 0 {
      NoExtras(doc, headers, unit, name, normalize);
      assert more + headers[..0] == more;
    } else {
      AddAll(doc, own, more, headers, n - 1, unit, name, normalize);
      NextExtra(doc, headers, n, unit, name, normalize);
      var soFar, h := more + headers[..n - 1], headers[n - 1];
      assert more + headers[..n] == soFar + [h];
      if n - 1 == unit || n - 1 == name {
        AddNone(own, soFar, h, normalize);
      } else {
        AddOne(WithColumns(doc, headers, Extras(n - 1, unit, name), normalize), own, soFar, h, normalize);
      }
    }
  }

  lemma {:induction false} JoinedHeaders(doc: Document, own: seq<string>, more: seq<string>, unit: nat, name: nat,
                                         join: Document, normalize: Naming, lower: Lowering)
    requires doc.headers == WithNew(own, more, normalize) && Joined(doc, unit, name, join, normalize, lower).Some?
    requires HasName(own, UNIT, normalize) && HasName(own, NAME, normalize)
    ensures Joined(doc, unit, name, join, normalize, lower).value.headers ==
            WithNew(own, more + join.headers, normalize)
  {
    var jUnit, jName :=
        HeaderIndex(join.headers, UNIT, normalize).value, HeaderIndex(join.headers, NAME, normalize).value;
    NamesakeHas(own, UNIT, join.headers[jUnit], normalize);
    NamesakeHas(own, NAME, join.headers[jName], normalize);
    hide WithNew; hide HasName; hide WithColumns; hide HeaderIndex; hide JoinedRow; hide Extras;
    AddAll(doc, own, more, join.headers, |join.headers|, jUnit, jName, normalize);
    assert join.headers[..|join.headers|] == join.headers;
  }

  /** The headers of the files joined, in order; link files are not joined. */
  function JoinedColumns(files: seq<Document>, n: nat, normalize: Naming): seq<string>
    requires n <= |files|
  {
    if n == 0 then []
    else
      JoinedColumns(files, n - 1, normalize) + if IsUnitLink(files[n - 1], normalize) then [] else files[n - 1].headers
  }

  lemma {:induction false} JoinsAdd(doc: Document, unit: nat, name: nat, files: seq<Document>, n: nat,
                                    normalize: Naming, lower: Lowering)
    requires n <= |files| && AfterJoins(doc, unit, name, files, n, normalize, lower).Some?
    requires HasName(doc.headers, UNIT, normalize) && HasName(doc.headers, NAME, normalize)
    ensures AfterJoins(doc, unit, name, files, n, normalize, lower).value.headers ==
            WithNew(doc.headers, JoinedColumns(files, n, normalize), normalize)
  {
    hide HasName; hide Joined; hide IsUnitLink;
    if n > 0 {
      JoinsAdd(doc, unit, name, files, n - 1, normalize, lower);
      hide WithNew;
      var before, join := AfterJoins(doc, unit, name, files, n - 1, normalize, lower).value, files[n - 1];
      var more := JoinedColumns(files, n - 1, normalize);
      if IsUnitLink(join, normalize) {
        assert more + [] == more;
      } else {
        JoinedHeaders(before, doc.headers, more, unit, name, join, normalize, lower);
      }
    }
  }

  /** The merged file has the columns of the linked main file, then, file by file and in
    * their order, those of the joined files whose name no earlier column bears.
    */
  lemma {:induction false} MergedColumns(primary: Document, files: seq<Document>, normalize: Naming, lower: Lowering)
    requires Merged(primary, files, normalize, lower).Some?
    ensures AfterLinks(primary, files, |files|, normalize).Some?
    ensures Merged(primary, files, normalize, lower).value.headers ==
            WithNew(AfterLinks(primary, files, |files|, normalize).value.headers,
                    JoinedColumns(files, |files|, normalize), normalize)
  {
    var doc := AfterLinks(primary, files, |files|, normalize).value;
    Found(doc.headers, UNIT, normalize);
    Found(doc.headers, NAME, normalize);
    hide AfterLinks; hide AfterJoins; hide HeaderIndex; hide WithNew; hide HasName;
    var unit, name := HeaderIndex(doc.headers, UNIT, normalize).value, HeaderIndex(doc.headers, NAME, normalize).value;
    JoinsAdd(doc, unit, name, files, |files|, normalize, lower);
  }
}
