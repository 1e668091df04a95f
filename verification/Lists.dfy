/** Sequences: keeping the elements that satisfy a test, and first occurrences. */
module Lists {

  function Keep<T>(s: seq<T>, p: T -> bool): seq<T> {
    if s == [] then [] else Keep(s[..|s| - 1], p) + if p(s[|s| - 1]) then [s[|s| - 1]] else []
  }

  function Map<T, U>(s: seq<T>, f: T -> U): (r: seq<U>)
    ensures |r| == |s| && forall i :: 0 <= i < |s| ==> r[i] == f(s[i])
  {
    seq(|s|, i requires 0 <= i < |s| => f(s[i]))
  }

  /** Each element once, in order of first occurrence. */
  function Distinct<T(==)>(s: seq<T>): seq<T> {
    if s == [] then []
    else
      var d := Distinct(s[..|s| - 1]);
      if s[|s| - 1] in d then d else d + [s[|s| - 1]]
  }

  predicate NoRepeats<T(==)>(s: seq<T>) { forall i, j :: 0 <= i < j < |s| ==> s[i] != s[j] }

  lemma {:induction false} DistinctFacts<T>(s: seq<T>)
    ensures NoRepeats(Distinct(s))
    ensures forall x :: x in Distinct(s) <==> x in s
  {
    if s != [] { DistinctFacts(s[..|s| - 1]); }
  }

  lemma {:induction false} DistinctSnoc<T>(s: seq<T>, x: T)
    ensures Distinct(s + [x]) == if x in s then Distinct(s) else Distinct(s) + [x]
  {
    assert (s + [x])[..|s|] == s;
    DistinctFacts(s);
  }

  lemma {:induction false} AlreadyDistinct<T>(s: seq<T>)
    requires NoRepeats(s)
    ensures Distinct(s) == s
  {
    if s != [] {
      AlreadyDistinct(s[..|s| - 1]);
      assert s == s[..|s| - 1] + [s[|s| - 1]];
    }
  }

  /** Repeats of what has been seen add nothing. */
  lemma {:induction false} DistinctRepeats<T>(s: seq<T>, more: seq<T>)
    requires forall x :: x in more ==> x in s
    ensures Distinct(s + more) == Distinct(s)
    decreases |more|
  {
    if more == [] {
      assert s + more == s;
    } else {
      var n := |more| - 1;
      DistinctRepeats(s, more[..n]);
      assert s + more == s + more[..n] + [more[n]];
      DistinctSnoc(s + more[..n], more[n]);
    }
  }

  lemma {:induction false} KeepSnoc<T>(s: seq<T>, x: T, p: T -> bool)
    ensures Keep(s + [x], p) == if p(x) then Keep(s, p) + [x] else Keep(s, p)
  {
    assert (s + [x])[..|s|] == s;
  }

  lemma {:induction false} KeepAppend<T>(s: seq<T>, t: seq<T>, p: T -> bool)
    ensures Keep(s + t, p) == Keep(s, p) + Keep(t, p)
    decreases |t|
  {
    if t == [] {
      assert s + t == s;
    } else {
      var n := |t| - 1;
      KeepAppend(s, t[..n], p);
      assert s + t == s + t[..n] + [t[n]] && t == t[..n] + [t[n]];
      KeepSnoc(s + t[..n], t[n], p);
      KeepSnoc(t[..n], t[n], p);
    }
  }

  lemma {:induction false} KeepAll<T>(s: seq<T>, p: T -> bool)
    requires forall x :: x in s ==> p(x)
    ensures Keep(s, p) == s
  {
    if s != [] {
      var n := |s| - 1;
      assert s[n] in s && s == s[..n] + [s[n]];
      forall x | x in s[..n] ensures p(x) { assert x in s; }
      KeepAll(s[..n], p);
    }
  }

  lemma {:induction false} KeepNone<T>(s: seq<T>, p: T -> bool)
    requires forall x :: x in s ==> !p(x)
    ensures Keep(s, p) == []
  {
    if s != [] {
      var n := |s| - 1;
      assert s[n] in s;
      forall x | x in s[..n] ensures !p(x) { assert x in s; }
      KeepNone(s[..n], p);
    }
  }

  lemma {:induction false} MapSnoc<T, U>(s: seq<T>, x: T, f: T -> U)
    ensures Map(s + [x], f) == Map(s, f) + [f(x)]
  {
  }

  lemma {:induction false} MapAppend<T, U>(s: seq<T>, t: seq<T>, f: T -> U)
    ensures Map(s + t, f) == Map(s, f) + Map(t, f)
  {
  }

  lemma {:induction false} KeepMembers<T>(s: seq<T>, p: T -> bool)
    ensures forall x :: x in Keep(s, p) <==> x in s && p(x)
  {
    if s != [] { KeepMembers(s[..|s| - 1], p); }
  }

  lemma {:induction false} KeepCount<T>(s: seq<T>, p: T -> bool, x: T)
    ensures multiset(Keep(s, p))[x] == if p(x) then multiset(s)[x] else 0
  {
    if s != [] {
      var n := |s| - 1;
      KeepCount(s[..n], p, x);
      assert s == s[..n] + [s[n]];
    }
  }

  lemma {:induction false} SameCounts<T>(m: multiset<T>, n: multiset<T>)
    requires forall x :: m[x] == n[x]
    ensures m == n
  {
  }

  /** Keeping commutes with permuting. */
  lemma {:induction false} KeepPermutes<T>(a: seq<T>, b: seq<T>, p: T -> bool)
    requires multiset(a) == multiset(b)
    ensures multiset(Keep(a, p)) == multiset(Keep(b, p)) && |Keep(a, p)| == |Keep(b, p)|
  {
    var k, l := multiset(Keep(a, p)), multiset(Keep(b, p));
    forall x ensures k[x] == l[x] {
      KeepCount(a, p, x);
      KeepCount(b, p, x);
    }
    SameCounts(k, l);
    assert |k| == |Keep(a, p)| && |l| == |Keep(b, p)|;
  }

  lemma {:induction false} OneFewer<T>(m: multiset<T>, n: multiset<T>, x: T)
    requires m + multiset{x} == n + multiset{x}
    ensures m == n
  {
    forall y ensures m[y] == n[y] { assert (m + multiset{x})[y] == (n + multiset{x})[y]; }
    SameCounts(m, n);
  }

  /** Mapping commutes with permuting. */
  lemma {:induction false} MapPermutes<T, U>(a: seq<T>, b: seq<T>, f: T -> U)
    requires multiset(a) == multiset(b)
    ensures multiset(Map(a, f)) == multiset(Map(b, f))
    decreases |a|
  {
    if a == [] {
      assert |multiset(b)| == 0;
    } else {
      var n := |a| - 1;
      var x := a[n];
      assert x in multiset(a) && x in b;
      var k :| 0 <= k < |b| && b[k] == x;
      var rest := b[..k] + b[k + 1..];
      assert a == a[..n] + [x];
      Without(b, k, f);
      MapSnoc(a[..n], x, f);
      OneFewer(multiset(a[..n]), multiset(rest), x);
      MapPermutes(a[..n], rest, f);
    }
  }

  lemma {:induction false} Without<T, U>(b: seq<T>, k: nat, f: T -> U)
    requires k < |b|
    ensures multiset(b) == multiset(b[..k] + b[k + 1..]) + multiset{b[k]}
    ensures multiset(Map(b, f)) == multiset(Map(b[..k] + b[k + 1..], f)) + multiset{f(b[k])}
  {
    assert b == b[..k] + [b[k]] + b[k + 1..];
    var m := Map(b, f);
    assert m == m[..k] + [m[k]] + m[k + 1..];
    assert Map(b[..k] + b[k + 1..], f) == m[..k] + m[k + 1..];
  }

  /** Without repeats, having the same elements is being a permutation. */
  lemma {:induction false} NoRepeatsPermutes<T>(a: seq<T>, b: seq<T>)
    requires NoRepeats(a) && NoRepeats(b) && forall x :: x in a <==> x in b
    ensures multiset(a) == multiset(b)
  {
    forall x ensures multiset(a)[x] == multiset(b)[x] {
      OnceAtMost(a, x);
      OnceAtMost(b, x);
    }
  }

  lemma {:induction false} OnceAtMost<T>(a: seq<T>, x: T)
    requires NoRepeats(a)
    ensures multiset(a)[x] == if x in a then 1 else 0
  {
    if a != [] {
      var n := |a| - 1;
      OnceAtMost(a[..n], x);
      assert a == a[..n] + [a[n]];
    }
  }

  /** Without repeats, a permutation has none either. */
  lemma {:induction false} StillNoRepeats<T>(a: seq<T>, b: seq<T>)
    requires NoRepeats(a) && multiset(a) == multiset(b)
    ensures NoRepeats(b)
  {
    forall i, j | 0 <= i < j < |b| ensures b[i] != b[j] {
      OnceAtMost(a, b[i]);
      CountedTwice(b, i, j);
    }
  }

  lemma {:induction false} CountedTwice<T>(b: seq<T>, i: nat, j: nat)
    requires i < j < |b|
    ensures b[i] == b[j] ==> multiset(b)[b[i]] >= 2
  {
    assert b == b[..i] + [b[i]] + b[i + 1..j] + [b[j]] + b[j + 1..];
  }

  /** A subset is no larger. */
  lemma {:induction false} FewerOrSame<T>(s: set<T>, u: set<T>)
    requires s <= u
    ensures |s| <= |u|
  {
    if s != {} {
      var x :| x in s;
      FewerOrSame(s - {x}, u - {x});
    }
  }

  // ---------------------------------------------------------------- where elements come from

  predicate Ascending(ix: seq<nat>) { forall i, j :: 0 <= i < j < |ix| ==> ix[i] < ix[j] }

  /** The elements kept are those that satisfy the test, each at its place in order. */
  lemma {:induction false} KeepIndices<T>(s: seq<T>, p: T -> bool) returns (ix: seq<nat>)
    ensures |ix| == |Keep(s, p)| && Ascending(ix)
    ensures forall i :: 0 <= i < |ix| ==> ix[i] < |s| && p(s[ix[i]]) && Keep(s, p)[i] == s[ix[i]]
    ensures forall k :: 0 <= k < |s| && p(s[k]) ==> k in ix
    decreases |s|
  {
    ix := [];
    if s != [] {
      var n := |s| - 1;
      ix := KeepIndices(s[..n], p);
      if p(s[n]) { ix := ix + [n]; }
      assert forall k :: 0 <= k < n ==> s[..n][k] == s[k];
    }
  }

  /** The distinct elements stand in the order in which they first occur. */
  lemma {:induction false} DistinctIndices<T>(s: seq<T>) returns (ix: seq<nat>)
    ensures |ix| == |Distinct(s)| && Ascending(ix)
    ensures forall i :: 0 <= i < |ix| ==> ix[i] < |s| && Distinct(s)[i] == s[ix[i]] && s[ix[i]] !in s[..ix[i]]
    ensures forall k :: 0 <= k < |s| ==> s[k] in Distinct(s)
    decreases |s|
  {
    ix := [];
    if s != [] {
      var n := |s| - 1;
      ix := DistinctIndices(s[..n]);
      DistinctFacts(s[..n]);
      DistinctFacts(s);
      forall i | 0 <= i < |ix| ensures s[..n][ix[i]] == s[ix[i]] && s[..n][..ix[i]] == s[..ix[i]] {}
      if s[n] !in s[..n] { ix := ix + [n]; }
    }
  }

  /** The distinct values of `f` on the elements that satisfy the test, by first occurrence. */
  lemma {:induction false} FirstSeen<T, U>(s: seq<T>, p: T -> bool, f: T -> U) returns (ix: seq<nat>)
    ensures var seen := Distinct(Map(Keep(s, p), f));
            && |ix| == |seen| && Ascending(ix) && NoRepeats(seen)
            && (forall i :: 0 <= i < |ix| ==> ix[i] < |s| && p(s[ix[i]]) && seen[i] == f(s[ix[i]]))
            && (forall i, j :: 0 <= i < |ix| && 0 <= j < ix[i] && p(s[j]) ==> f(s[j]) != seen[i])
            && (forall k :: 0 <= k < |s| && p(s[k]) ==> f(s[k]) in seen)
  {
    var kept := Keep(s, p);
    var column := Map(kept, f);
    var seen := Distinct(column);
    var at := KeepIndices(s, p);
    var first := DistinctIndices(column);
    DistinctFacts(column);
    hide Keep; hide Distinct;
    ix := seq(|first|, i requires 0 <= i < |first| => at[first[i]]);
    forall i, j | 0 <= i < |ix| && 0 <= j < ix[i] && p(s[j]) ensures f(s[j]) != seen[i] {
      var k :| 0 <= k < |at| && at[k] == j;
      assert k < first[i];
      assert column[k] in column[..first[i]];
    }
    forall k | 0 <= k < |s| && p(s[k]) ensures f(s[k]) in seen {
      var i :| 0 <= i < |at| && at[i] == k;
      assert column[i] == f(s[k]);
    }
  }
}
