/** Which files to suggest for a run, and whether a chosen set of files can run together. */
module FileSelection {
  import opened Options

  datatype Role = Primary | Supporting | Join

  datatype Meta = Meta(name: string, pms: string, reportName: string, role: Role, priority: int)

  datatype File = File(fileName: string, format: Option<Meta>)

  // ---------------------------------------------------------------- planning a run

  datatype SelectionError =
    | NoFiles
    | Unrecognized(file: string)
    | IsSupporting(file: string, report: string)
    | JoinWithoutPrimary(file: string, report: string)
    | MixedSystems(first: string, second: string)
    | DuplicateFormat(first: string, second: string, report: string)
    | Alternatives(first: string, second: string)

  datatype Plan = Ingest(primary: nat, joins: seq<nat>) | Refused(error: SelectionError)

  predicate Usable(f: File) { f.format.Some? && f.format.value.role != Supporting }
  predicate Is(f: File, role: Role) { f.format.Some? && f.format.value.role == role }

  /** One primary, and join files of its system, one of each kind. */
  ghost predicate Runnable(files: seq<File>) {
    && (forall i :: 0 <= i < |files| ==> Usable(files[i]))
    && exists p :: 0 <= p < |files| && RunsAround(files, p)
  }

  ghost predicate RunsAround(files: seq<File>, p: nat)
    requires p < |files|
  {
    && Is(files[p], Primary)
    && (forall q :: 0 <= q < |files| && q != p ==> !Is(files[q], Primary))
    && (forall j :: 0 <= j < |files| && Is(files[j], Join) ==> files[j].format.value.pms == files[p].format.value.pms)
    && (forall i, j :: 0 <= i < j < |files| && Is(files[i], Join) && Is(files[j], Join) ==>
          files[i].format.value.name != files[j].format.value.name)
  }

  /** What an error says is so. */
  ghost predicate Justified(files: seq<File>, e: SelectionError) {
    match e
    case NoFiles => files == []
    case Unrecognized(name) => exists i :: 0 <= i < |files| && files[i].fileName == name && files[i].format.None?
    case IsSupporting(name, _) => exists i :: 0 <= i < |files| && files[i].fileName == name && Is(files[i], Supporting)
    case JoinWithoutPrimary(name, _) =>
      (forall i :: 0 <= i < |files| ==> !Is(files[i], Primary))
          && exists i :: 0 <= i < |files| && files[i].fileName == name && Is(files[i], Join)
    case MixedSystems(a, b) =>
      a != b && exists i, j :: 0 <= i < |files| && 0 <= j < |files| && files[i].format.Some? && files[j].format.Some?
                            && files[i].format.value.pms == a && files[j].format.value.pms == b
    case DuplicateFormat(a, b, _) =>
      exists i, j :: 0 <= i < j < |files| && files[i].fileName == a && files[j].fileName == b && files[i].format.Some?
          && files[j].format.Some?
                     && files[i].format.value.name == files[j].format.value.name
                        && files[i].format.value.role == files[j].format.value.role
    case Alternatives(a, b) =>
      exists i, j :: 0 <= i < j < |files| && files[i].fileName == a && files[j].fileName == b && Is(files[i], Primary)
          && Is(files[j], Primary)
                     && files[i].format.value.pms == files[j].format.value.pms
  }

  function IndicesOf(files: seq<File>, role: Role, n: nat): (r: seq<nat>)
    requires n <= |files|
    ensures forall k :: 0 <= k < |r| ==> r[k] < n && Is(files[r[k]], role)
    ensures forall j, k :: 0 <= j < k < |r| ==> r[j] < r[k]
    ensures forall i :: 0 <= i < n && Is(files[i], role) ==> i in r
  {
    if n == 0 then [] else IndicesOf(files, role, n - 1) + if Is(files[n - 1], role) then [n - 1] else []
  }

  method FirstUnusable(files: seq<File>) returns (error: Option<SelectionError>)
    ensures error.None? <==> forall i :: 0 <= i < |files| ==> Usable(files[i])
    ensures error.Some? ==> Justified(files, error.value)
  {
    for i := 0 to |files|
      invariant forall k :: 0 <= k < i ==> Usable(files[k])
    {
      if files[i].format.None? { return Some(Unrecognized(files[i].fileName)); }
      if files[i].format.value.role == Supporting {
        return Some(IsSupporting(files[i].fileName, files[i].format.value.reportName));
      }
    }
    error := None;
  }

  function MetaAt(files: seq<File>, i: nat): Meta
    requires i < |files| && files[i].format.Some?
  {
    files[i].format.value
  }

  predicate AreJoins(files: seq<File>, joins: seq<nat>) {
    && (forall k :: 0 <= k < |joins| ==> joins[k] < |files| && Is(files[joins[k]], Join))
    && (forall j, k :: 0 <= j < k < |joins| ==> joins[j] < joins[k])
  }

  predicate Agree(files: seq<File>, pms: string, joins: seq<nat>, n: nat)
    requires AreJoins(files, joins) && n <= |joins|
  {
    && (forall k :: 0 <= k < n ==> MetaAt(files, joins[k]).pms == pms)
    && (forall i, k :: 0 <= i < k < n ==> MetaAt(files, joins[i]).name != MetaAt(files, joins[k]).name)
  }

  /** The first join file of another system or of a kind already there. */
  method FirstClash(files: seq<File>, primary: nat, joins: seq<nat>) returns (error: Option<SelectionError>)
    requires primary < |files| && Is(files[primary], Primary) && AreJoins(files, joins)
    ensures error.None? <==> Agree(files, files[primary].format.value.pms, joins, |joins|)
    ensures error.Some? ==> Justified(files, error.value)
  {
    var pms := files[primary].format.value.pms;
    for n := 0 to |joins|
      invariant Agree(files, pms, joins, n)
    {
      var meta := MetaAt(files, joins[n]);
      if meta.pms != pms {
        assert files[primary].format.Some? && files[joins[n]].format.Some?;
        return Some(MixedSystems(pms, meta.pms));
      }
      for e := 0 to n
        invariant forall k :: 0 <= k < e ==> MetaAt(files, joins[k]).name != meta.name
      {
        if MetaAt(files, joins[e]).name == meta.name {
          assert joins[e] < joins[n] && files[joins[e]].format.Some? && files[joins[n]].format.Some?;
          return Some(DuplicateFormat(files[joins[e]].fileName, files[joins[n]].fileName, meta.reportName));
        }
      }
    }
    error := None;
  }

  lemma {:induction false} RunsAroundIs(files: seq<File>, p: nat, joins: seq<nat>)
    requires p < |files| && Is(files[p], Primary) && (forall q :: 0 <= q < |files| && q != p ==> !Is(files[q], Primary))
    requires AreJoins(files, joins) && forall i :: 0 <= i < |files| && Is(files[i], Join) ==> i in joins
    ensures RunsAround(files, p) <==> Agree(files, files[p].format.value.pms, joins, |joins|)
  {
    var pms := files[p].format.value.pms;
    if Agree(files, pms, joins, |joins|) {
      forall j | 0 <= j < |files| && Is(files[j], Join) ensures files[j].format.value.pms == pms {
        var k :| 0 <= k < |joins| && joins[k] == j;
        assert MetaAt(files, joins[k]).pms == pms;
      }
      forall i, j | 0 <= i < j < |files| && Is(files[i], Join) && Is(files[j], Join)
        ensures files[i].format.value.name != files[j].format.value.name
      {
        var a :| 0 <= a < |joins| && joins[a] == i;
        var b :| 0 <= b < |joins| && joins[b] == j;
        assert MetaAt(files, joins[a]).name != MetaAt(files, joins[b]).name;
      }
    }
  }

  /** A run is planned exactly when the files can run together, around its one primary and
    * with the join files in upload order; otherwise the error given is so.
    */
  method PlanIngest(files: seq<File>) returns (plan: Plan)
    ensures plan.Ingest? <==> Runnable(files)
    ensures plan.Ingest? ==> plan.primary < |files| && Is(files[plan.primary], Primary)
    ensures plan.Ingest? ==> forall j :: j in plan.joins <==> 0 <= j < |files| && Is(files[j], Join)
    ensures plan.Ingest? ==> forall j, k :: 0 <= j < k < |plan.joins| ==> plan.joins[j] < plan.joins[k]
    ensures plan.Refused? ==> Justified(files, plan.error)
  {
    hide RunsAround; hide IndicesOf; hide Agree;
    if files == [] { return Refused(NoFiles); }
    var unusable := FirstUnusable(files);
    if unusable.Some? { return Refused(unusable.value); }
    var primaries, joins := IndicesOf(files, Primary, |files|), IndicesOf(files, Join, |files|);
    if primaries == [] {
      assert Usable(files[0]) && !Is(files[0], Primary);
      assert 0 in joins;
      var first := joins[0];
      NoPrimary(files);
      return Refused(JoinWithoutPrimary(files[first].fileName, files[first].format.value.reportName));
    }
    var p := primaries[0];
    if |primaries| > 1 {
      var q := primaries[1];
      TwoPrimaries(files, p, q);
      var one, other := files[p].format.value, files[q].format.value;
      return Refused(if other.pms != one.pms then MixedSystems(one.pms, other.pms)
                     else if other.name == one.name
                         then DuplicateFormat(files[p].fileName, files[q].fileName, one.reportName)
                     else Alternatives(files[p].fileName, files[q].fileName));
    }
    forall q | 0 <= q < |files| && q != p ensures !Is(files[q], Primary) { assert q !in primaries; }
    RunsAroundIs(files, p, joins);
    OnlyAround(files, p);
    var clash := FirstClash(files, p, joins);
    if clash.Some? { return Refused(clash.value); }
    plan := Ingest(p, joins);
  }

  lemma {:induction false} NoPrimary(files: seq<File>)
    requires forall i :: 0 <= i < |files| ==> !Is(files[i], Primary)
    ensures !Runnable(files)
  {
  }

  lemma {:induction false} TwoPrimaries(files: seq<File>, p: nat, q: nat)
    requires p < q < |files| && Is(files[p], Primary) && Is(files[q], Primary)
    ensures !Runnable(files)
    ensures var one, other := files[p].format.value, files[q].format.value;
            && (other.pms != one.pms ==> Justified(files, MixedSystems(one.pms, other.pms)))
            && (other.name == one.name ==>
                Justified(files, DuplicateFormat(files[p].fileName, files[q].fileName, one.reportName)))
            && (other.pms == one.pms ==> Justified(files, Alternatives(files[p].fileName, files[q].fileName)))
  {
  }

  lemma {:induction false} OnlyAround(files: seq<File>, p: nat)
    requires p < |files| && Is(files[p], Primary) && (forall q :: 0 <= q < |files| && q != p ==> !Is(files[q], Primary))
    requires forall i :: 0 <= i < |files| ==> Usable(files[i])
    ensures Runnable(files) <==> RunsAround(files, p)
  {
  }
}
