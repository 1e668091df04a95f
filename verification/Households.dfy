/** Grouping shared-value evidence into households by union-find. */
module Households {
  import Lists

  const MAX_HOUSEHOLD_SIZE := 8

  /** A value shared by the tenants named in `keys`. */
  datatype Evidence = Evidence(signal: nat, value: string, keys: seq<string>)

  // ---------------------------------------------------------------- the forest

  /** The parent is a key of lower rank, unless `k` is a root. */
  ghost predicate Up(parent: map<string, string>, rank: map<string, nat>, k: string) {
    k in parent && parent[k] in parent && k in rank && parent[k] in rank
        && (parent[k] != k ==> rank[parent[k]] < rank[k])
  }

  /** Parents stay within the map, and the ghost rank falls on the way to a root. */
  ghost predicate Forest(parent: map<string, string>, rank: map<string, nat>) {
    && parent.Keys == rank.Keys
    && (forall k {:trigger Up(parent, rank, k)} :: k in parent ==> Up(parent, rank, k))
  }

  ghost function Root(parent: map<string, string>, rank: map<string, nat>, k: string): (r: string)
    requires Forest(parent, rank) && k in parent
    ensures r in parent && parent[r] == r && rank[r] <= rank[k]
    ensures r != k ==> rank[r] < rank[k]
    decreases rank[k]
  {
    assert Up(parent, rank, k);
    if parent[k] == k then k else Root(parent, rank, parent[k])
  }

  /** Every key keeps its root. */
  ghost predicate SameRoots(parent: map<string, string>, rank: map<string, nat>, p: map<string, string>,
                            q: map<string, nat>)
    requires Forest(parent, rank) && Forest(p, q)
  {
    parent.Keys <= p.Keys && forall k :: k in parent ==> Root(p, q, k) == Root(parent, rank, k)
  }

  lemma CompressForest(parent: map<string, string>, rank: map<string, nat>, n: string)
    requires Forest(parent, rank) && n in parent
    ensures Forest(parent[n := Root(parent, rank, n)], rank)
  {
    var p := parent[n := Root(parent, rank, n)];
    assert p.Keys == parent.Keys;
    forall k {:trigger Up(p, rank, k)} | k in p ensures Up(p, rank, k) {
      assert Up(parent, rank, k);
    }
  }

  lemma {:induction false} CompressRoot(parent: map<string, string>, rank: map<string, nat>, n: string,
                                        p: map<string, string>, k: string)
    requires Forest(parent, rank) && n in parent && p == parent[n := Root(parent, rank, n)] && Forest(p, rank)
             && k in parent
    ensures Root(p, rank, k) == Root(parent, rank, k)
    decreases rank[k]
  {
    assert Up(parent, rank, k);
    if k != n && parent[k] != k {
      CompressRoot(parent, rank, n, p, parent[k]);
    }
  }

  /** Pointing a node straight at its root keeps every root. */
  lemma CompressKeepsRoots(parent: map<string, string>, rank: map<string, nat>, n: string)
    requires Forest(parent, rank) && n in parent
    ensures Forest(parent[n := Root(parent, rank, n)], rank)
    ensures SameRoots(parent, rank, parent[n := Root(parent, rank, n)], rank)
  {
    CompressForest(parent, rank, n);
    var p := parent[n := Root(parent, rank, n)];
    hide Forest;
    forall k | k in parent ensures Root(p, rank, k) == Root(parent, rank, k) {
      CompressRoot(parent, rank, n, p, k);
    }
  }

  lemma InsertForest(parent: map<string, string>, rank: map<string, nat>, n: string)
    requires Forest(parent, rank) && n !in parent
    ensures Forest(parent[n := n], rank[n := 0])
  {
    var p, q := parent[n := n], rank[n := 0];
    assert p.Keys == q.Keys;
    forall k {:trigger Up(p, q, k)} | k in p ensures Up(p, q, k) {
      if k in parent { assert Up(parent, rank, k); }
    }
  }

  lemma {:induction false} InsertRoot(parent: map<string, string>, rank: map<string, nat>, n: string,
                                      p: map<string, string>, q: map<string, nat>, k: string)
    requires Forest(parent, rank) && n !in parent && p == parent[n := n] && q == rank[n := 0] && Forest(p, q)
             && k in parent
    ensures Root(p, q, k) == Root(parent, rank, k)
    decreases rank[k]
  {
    assert Up(parent, rank, k);
    if parent[k] != k {
      InsertRoot(parent, rank, n, p, q, parent[k]);
    }
  }

  /** A new key is its own root and changes no other. */
  lemma InsertKeepsRoots(parent: map<string, string>, rank: map<string, nat>, n: string)
    requires Forest(parent, rank) && n !in parent
    ensures Forest(parent[n := n], rank[n := 0])
    ensures Grown(parent, rank, parent[n := n], rank[n := 0])
  {
    InsertForest(parent, rank, n);
    hide Forest;
    forall k | k in parent ensures Root(parent[n := n], rank[n := 0], k) == Root(parent, rank, k) {
      InsertRoot(parent, rank, n, parent[n := n], rank[n := 0], k);
    }
  }

  /** Ranks after hanging the tree of `a` under the root `b`. */
  ghost function Reranked(parent: map<string, string>, rank: map<string, nat>, a: string, b: string): map<string, nat>
    requires Forest(parent, rank) && b in parent
  {
    map k | k in rank :: if Root(parent, rank, k) == a then rank[k] + rank[b] + 1 else rank[k]
  }

  ghost predicate DistinctRoots(parent: map<string, string>, a: string, b: string) {
    a in parent && b in parent && parent[a] == a && parent[b] == b && a != b
  }

  lemma LinkForest(parent: map<string, string>, rank: map<string, nat>, a: string, b: string)
    requires Forest(parent, rank) && DistinctRoots(parent, a, b)
    ensures Forest(parent[a := b], Reranked(parent, rank, a, b))
  {
    var p, q := parent[a := b], Reranked(parent, rank, a, b);
    assert p.Keys == q.Keys;
    forall k {:trigger Up(p, q, k)} | k in p ensures Up(p, q, k) {
      assert Up(parent, rank, k);
      if k != a {
        assert Root(parent, rank, k) == Root(parent, rank, parent[k]);
      } else {
        assert Root(parent, rank, a) == a && Root(parent, rank, b) == b;
      }
    }
  }

  lemma {:induction false} LinkRoot(parent: map<string, string>, rank: map<string, nat>, a: string, b: string,
                                    p: map<string, string>, q: map<string, nat>, k: string)
    requires Forest(parent, rank) && DistinctRoots(parent, a, b) && k in parent
    requires p == parent[a := b] && Forest(p, q)
    ensures Root(p, q, k) == if Root(parent, rank, k) == a then b else Root(parent, rank, k)
    decreases rank[k]
  {
    assert Up(parent, rank, k);
    if parent[k] != k {
      LinkRoot(parent, rank, a, b, p, q, parent[k]);
    } else if k == a {
      assert Root(p, q, a) == Root(p, q, b) == b;
    }
  }

  /** `n` lies on the path from `k` up to its root. */
  ghost predicate OnPath(parent: map<string, string>, rank: map<string, nat>, k: string, n: string)
    requires Forest(parent, rank) && k in parent
    decreases rank[k]
  {
    assert Up(parent, rank, k);
    n == k || (parent[k] != k && OnPath(parent, rank, parent[k], n))
  }

  lemma PathStep(parent: map<string, string>, rank: map<string, nat>, k: string, n: string)
    requires Forest(parent, rank) && k in parent
    ensures parent[k] in parent
    ensures OnPath(parent, rank, k, n) <==> n == k || OnPath(parent, rank, parent[k], n)
  {
    assert Up(parent, rank, k);
  }

  lemma {:induction false} PathDescends(parent: map<string, string>, rank: map<string, nat>, k: string, n: string)
    requires Forest(parent, rank) && k in parent && OnPath(parent, rank, k, n)
    ensures n in parent && rank[n] <= rank[k] && Root(parent, rank, n) == Root(parent, rank, k)
    decreases rank[k]
  {
    assert Up(parent, rank, k);
    if n != k { PathDescends(parent, rank, parent[k], n); }
  }

  lemma {:induction false} PathGoesOn(parent: map<string, string>, rank: map<string, nat>, k: string, n: string)
    requires Forest(parent, rank) && k in parent && OnPath(parent, rank, k, n)
    ensures n in parent && OnPath(parent, rank, k, parent[n])
    decreases rank[k]
  {
    assert Up(parent, rank, k);
    if n != k { PathGoesOn(parent, rank, parent[k], n); }
  }

  /** The nodes on the path from `key` to `node`, without `node`'s own path, point at `root`; no other has moved. */
  ghost predicate PathPointed(parent: map<string, string>, rank: map<string, nat>, key: string, node: string,
                              root: string, p: map<string, string>)
    requires Forest(parent, rank) && key in parent && node in parent
  {
    p.Keys == parent.Keys &&
    forall k :: k in p ==>
      p[k] == if OnPath(parent, rank, key, k) && !OnPath(parent, rank, node, k) then root else parent[k]
  }

  /** Every node on the path from `key` points at `root`; no other has moved. */
  ghost predicate Compressed(parent: map<string, string>, rank: map<string, nat>, key: string, root: string,
                             p: map<string, string>)
    requires Forest(parent, rank) && key in parent
  {
    p.Keys == parent.Keys && forall k :: k in p ==> p[k] == if OnPath(parent, rank, key, k) then root else parent[k]
  }

  lemma {:induction false} PointNext(parent: map<string, string>, rank: map<string, nat>, key: string, node: string,
                                     root: string, p: map<string, string>)
    requires Forest(parent, rank) && key in parent && OnPath(parent, rank, key, node) && node in parent
    requires PathPointed(parent, rank, key, node, root, p) && parent[node] != node
    ensures p[node] == parent[node] && parent[node] in parent && OnPath(parent, rank, key, parent[node])
    ensures PathPointed(parent, rank, key, parent[node], root, p[node := root])
  {
    hide *;
    var next, q := parent[node], p[node := root];
    PathGoesOn(parent, rank, key, node);
    PathNeverReturns(parent, rank, node);
    PointedAt(parent, rank, key, node, root, p, node);
    forall k | k in p
      ensures q[k] == if OnPath(parent, rank, key, k) && !OnPath(parent, rank, next, k) then root else parent[k]
    {
      PathStep(parent, rank, node, k);
      PointedAt(parent, rank, key, node, root, p, k);
    }
    IsPathPointed(parent, rank, key, next, root, q);
  }

  lemma PathNeverReturns(parent: map<string, string>, rank: map<string, nat>, k: string)
    requires Forest(parent, rank) && k in parent && parent[k] != k
    ensures OnPath(parent, rank, k, k) && parent[k] in parent && !OnPath(parent, rank, parent[k], k)
  {
    assert Up(parent, rank, k);
    if OnPath(parent, rank, parent[k], k) { PathDescends(parent, rank, parent[k], k); }
  }

  lemma PointedAt(parent: map<string, string>, rank: map<string, nat>, key: string, node: string, root: string,
                  p: map<string, string>, k: string)
    requires Forest(parent, rank) && key in parent && node in parent && k in parent
    requires PathPointed(parent, rank, key, node, root, p)
    ensures p.Keys == parent.Keys
    ensures p[k] == if OnPath(parent, rank, key, k) && !OnPath(parent, rank, node, k) then root else parent[k]
  {
    hide OnPath;
  }

  lemma IsPathPointed(parent: map<string, string>, rank: map<string, nat>, key: string, node: string, root: string,
                      p: map<string, string>)
    requires Forest(parent, rank) && key in parent && node in parent && p.Keys == parent.Keys
    requires forall k :: k in p ==>
             p[k] == if OnPath(parent, rank, key, k) && !OnPath(parent, rank, node, k) then root else parent[k]
    ensures PathPointed(parent, rank, key, node, root, p)
  {
    hide OnPath;
  }

  lemma {:induction false} AllPointed(parent: map<string, string>, rank: map<string, nat>, key: string, node: string,
                                      root: string, p: map<string, string>)
    requires Forest(parent, rank) && key in parent && OnPath(parent, rank, key, node) && node in parent
    requires PathPointed(parent, rank, key, node, root, p) && parent[node] == root == Root(parent, rank, node)
    ensures Compressed(parent, rank, key, root, p)
  {
    assert Up(parent, rank, node);
    forall k | k in p ensures p[k] == if OnPath(parent, rank, key, k) then root else parent[k] {
      assert OnPath(parent, rank, root, k) <==> k == root;
      PathStep(parent, rank, node, k);
    }
  }

  /** Compressing the path of a root changes nothing. */
  lemma NewCompressed(parent: map<string, string>, rank: map<string, nat>, key: string, root: string,
                      p: map<string, string>)
    requires Forest(parent, rank) && key in parent && parent[key] == key && root == Root(parent, rank, key)
    requires Compressed(parent, rank, key, root, p)
    ensures root == key && p == parent
  {
    forall k | k in p ensures p[k] == parent[k] { PathStep(parent, rank, key, k); }
  }

  class UnionFind {
    var parent: map<string, string>
    ghost var rank: map<string, nat>

    ghost predicate Valid()
      reads this
    {
      Forest(parent, rank)
    }

    constructor ()
      ensures Valid() && parent == map[]
    {
      parent, rank := map[], map[];
    }

    method Climb(key: string) returns (root: string)
      requires Valid() && key in parent
      ensures root == Root(parent, rank, key)
    {
      root := key;
      while parent[root] != root
        invariant root in parent && Root(parent, rank, root) == Root(parent, rank, key)
        decreases rank[root]
      {
        assert Up(parent, rank, root);
        root := parent[root];
      }
    }

    /** Points every node on the path from `key` straight at the root. */
    method Compress(key: string, root: string)
      requires Valid() && key in parent && root == Root(parent, rank, key)
      modifies this`parent
      ensures Valid() && parent.Keys == old(parent).Keys
      ensures SameRoots(old(parent), rank, parent, rank)
      ensures Compressed(old(parent), rank, key, root, parent)
    {
      var node := key;
      ghost var before := parent;
      while parent[node] != root
        invariant Valid() && parent.Keys == old(parent).Keys && SameRoots(old(parent), rank, parent, rank)
        invariant node in parent && Root(parent, rank, node) == root
        invariant OnPath(before, rank, key, node) && PathPointed(before, rank, key, node, root, parent)
        decreases rank[node]
      {
        var next := parent[node];
        assert Up(parent, rank, node);
        PointNext(before, rank, key, node, root, parent);
        CompressKeepsRoots(parent, rank, node);
        parent := parent[node := root];
        node := next;
      }
      AllPointed(before, rank, key, node, root, parent);
    }

    /** Returns the root of `key`, adding the key if it is new, and shortens the
      * path it climbed; no key's root changes.
      */
    method Find(key: string) returns (root: string)
      requires Valid()
      modifies this
      ensures Valid() && parent.Keys == old(parent).Keys + {key}
      ensures root == Root(parent, rank, key)
      ensures Grown(old(parent), old(rank), parent, rank)
      ensures key in old(parent) ==> Compressed(old(parent), old(rank), key, root, parent)
      ensures key !in old(parent) ==> root == key && parent == old(parent)[key := key]
    {
      if key !in parent {
        InsertKeepsRoots(parent, rank, key);
        parent, rank := parent[key := key], rank[key := 0];
      }
      ghost var p, q := parent, rank;
      hide Forest;
      hide SameRoots;
      root := Climb(key);
      Compress(key, root);
      if key !in old(parent) { NewCompressed(p, q, key, root, parent); }
      hide Compressed;
      GrownTransitive(old(parent), old(rank), p, q, parent, rank);
    }

    /** Joins the trees of `a` and `b`: keys are together afterwards exactly when
      * they were before, or one was with `a` and the other with `b`.
      */
    method Union(a: string, b: string)
      requires Valid()
      modifies this
      ensures Valid() && parent.Keys == old(parent).Keys + {a, b}
      ensures forall k, l :: k in parent && l in parent ==>
                (Together(parent, rank, k, l) <==> Joined(old(parent), old(rank), a, b, k, l))
    {
      hide Grown;
      hide Together;
      hide Joined;
      hide Compressed;
      var rootA := Find(a);
      ghost var p0, q0 := parent, rank;
      var rootB := Find(b);
      ghost var p, q := parent, rank;
      GrownTransitive(old(parent), old(rank), p0, q0, p, q);
      KeptRoot(p0, q0, p, q, a);
      if rootA != rootB {
        LinkForest(p, q, rootA, rootB);
        parent, rank := parent[rootA := rootB], Reranked(p, q, rootA, rootB);
      }
      UnionTogether(old(parent), old(rank), p, q, parent, rank, a, b);
    }
  }

  /** The same key, or keys with the same root. */
  ghost predicate Together(parent: map<string, string>, rank: map<string, nat>, k: string, l: string)
    requires Forest(parent, rank)
  {
    k == l || (k in parent && l in parent && Root(parent, rank, k) == Root(parent, rank, l))
  }

  /** `k` and `l` were together, or one was with `a` and the other with `b`. */
  ghost predicate Joined(parent: map<string, string>, rank: map<string, nat>, a: string, b: string, k: string,
                         l: string)
    requires Forest(parent, rank)
  {
    || Together(parent, rank, k, l)
    || (Together(parent, rank, k, a) && Together(parent, rank, b, l))
    || (Together(parent, rank, k, b) && Together(parent, rank, a, l))
  }

  /** The forest gained keys, each its own root, and every other key kept its root. */
  ghost predicate Grown(parent: map<string, string>, rank: map<string, nat>, p: map<string, string>,
                        q: map<string, nat>)
    requires Forest(parent, rank) && Forest(p, q)
  {
    SameRoots(parent, rank, p, q) && forall k :: k in p && k !in parent ==> Root(p, q, k) == k
  }

  lemma GrownTransitive(p: map<string, string>, q: map<string, nat>, p1: map<string, string>, q1: map<string, nat>,
                        p2: map<string, string>, q2: map<string, nat>)
    requires Forest(p, q) && Forest(p1, q1) && Forest(p2, q2) && Grown(p, q, p1, q1) && Grown(p1, q1, p2, q2)
    ensures Grown(p, q, p2, q2)
  {
    hide Forest;
  }

  lemma KeptRoot(p: map<string, string>, q: map<string, nat>, p1: map<string, string>, q1: map<string, nat>, k: string)
    requires Forest(p, q) && Forest(p1, q1) && Grown(p, q, p1, q1) && k in p
    ensures k in p1 && Root(p1, q1, k) == Root(p, q, k)
  {
  }

  lemma TogetherSame(parent: map<string, string>, rank: map<string, nat>, p: map<string, string>, q: map<string, nat>,
                     k: string, l: string)
    requires Forest(parent, rank) && Forest(p, q) && Grown(parent, rank, p, q) && k in p && l in p
    ensures Together(p, q, k, l) <==> Together(parent, rank, k, l)
  {
    hide Forest;
  }

  lemma JoinedSame(parent: map<string, string>, rank: map<string, nat>, p: map<string, string>, q: map<string, nat>,
                   a: string, b: string, k: string, l: string)
    requires Forest(parent, rank) && Forest(p, q) && Grown(parent, rank, p, q) && a in p && b in p && k in p && l in p
    ensures Joined(p, q, a, b, k, l) <==> Joined(parent, rank, a, b, k, l)
  {
    TogetherSame(parent, rank, p, q, k, l);
    TogetherSame(parent, rank, p, q, k, a);
    TogetherSame(parent, rank, p, q, b, l);
    TogetherSame(parent, rank, p, q, k, b);
    TogetherSame(parent, rank, p, q, a, l);
    hide Forest;
    hide Together;
    hide Grown;
  }

  lemma LinkTogether(p: map<string, string>, q: map<string, nat>, a: string, b: string,
                     p': map<string, string>, q': map<string, nat>, k: string, l: string)
    requires Forest(p, q) && Forest(p', q') && a in p && b in p && k in p && l in p
    requires Root(p, q, a) != Root(p, q, b) && p' == p[Root(p, q, a) := Root(p, q, b)]
    ensures Together(p', q', k, l) <==> Joined(p, q, a, b, k, l)
  {
    hide Forest;
    LinkRoot(p, q, Root(p, q, a), Root(p, q, b), p', q', k);
    LinkRoot(p, q, Root(p, q, a), Root(p, q, b), p', q', l);
  }

  lemma AlreadyTogether(p: map<string, string>, q: map<string, nat>, a: string, b: string, k: string, l: string)
    requires Forest(p, q) && a in p && b in p && k in p && l in p && Root(p, q, a) == Root(p, q, b)
    ensures Together(p, q, k, l) <==> Joined(p, q, a, b, k, l)
  {
    hide Forest;
  }

  lemma UnionTogether(parent: map<string, string>, rank: map<string, nat>, p: map<string, string>, q: map<string, nat>,
                      p': map<string, string>, q': map<string, nat>, a: string, b: string)
    requires Forest(parent, rank) && Forest(p, q) && Forest(p', q') && Grown(parent, rank, p, q) && a in p && b in p
    requires if Root(p, q, a) == Root(p, q, b) then p' == p && q' == q else p' == p[Root(p, q, a) := Root(p, q, b)]
    ensures forall k, l :: k in p && l in p ==> (Together(p', q', k, l) <==> Joined(parent, rank, a, b, k, l))
  {
    hide Forest;
    hide Joined;
    hide Together;
    hide Grown;
    forall k, l | k in p && l in p ensures Together(p', q', k, l) <==> Joined(parent, rank, a, b, k, l) {
      JoinedSame(parent, rank, p, q, a, b, k, l);
      if Root(p, q, a) != Root(p, q, b) {
        LinkTogether(p, q, a, b, p', q', k, l);
      } else {
        AlreadyTogether(p, q, a, b, k, l);
      }
    }
  }

  // ---------------------------------------------------------------- being connected by evidence

  /** One piece of evidence names both. */
  ghost predicate Shares(raw: seq<Evidence>, x: string, y: string) {
    exists e :: e in raw && x in e.keys && y in e.keys
  }

  /** Each tenant shares a piece of evidence with the next. */
  ghost predicate IsChain(raw: seq<Evidence>, path: seq<string>) {
    path != [] && forall i :: 0 < i < |path| ==> Shares(raw, path[i - 1], path[i])
  }

  ghost predicate Links(raw: seq<Evidence>, path: seq<string>, x: string, y: string) {
    IsChain(raw, path) && path[0] == x && path[|path| - 1] == y
  }

  /** A chain of shared evidence leads from `x` to `y`. */
  ghost predicate Connected(raw: seq<Evidence>, x: string, y: string) {
    exists path :: Links(raw, path, x, y)
  }

  lemma ConnectedReflexive(raw: seq<Evidence>, x: string)
    ensures Connected(raw, x, x)
  {
    assert Links(raw, [x], x, x);
  }

  lemma SharesConnects(raw: seq<Evidence>, x: string, y: string)
    requires Shares(raw, x, y)
    ensures Connected(raw, x, y)
  {
    assert Links(raw, [x, y], x, y);
  }

  lemma ConnectedSymmetric(raw: seq<Evidence>, x: string, y: string)
    requires Connected(raw, x, y)
    ensures Connected(raw, y, x)
  {
    var path :| Links(raw, path, x, y);
    var n := |path|;
    var back := seq(n, i requires 0 <= i < n => path[n - 1 - i]);
    forall i | 0 < i < n ensures Shares(raw, back[i - 1], back[i]) {
      assert Shares(raw, path[n - 1 - i], path[n - i]);
    }
    assert Links(raw, back, y, x);
  }

  lemma ConnectedTransitive(raw: seq<Evidence>, x: string, y: string, z: string)
    requires Connected(raw, x, y) && Connected(raw, y, z)
    ensures Connected(raw, x, z)
  {
    var p :| Links(raw, p, x, y);
    var q :| Links(raw, q, y, z);
    var path := p + q[1..];
    forall i | 0 < i < |path| ensures Shares(raw, path[i - 1], path[i]) {
      if i < |p| {
        assert Shares(raw, p[i - 1], p[i]);
      } else {
        assert path[i - 1] == q[i - |p|] && path[i] == q[i - |p| + 1];
        assert Shares(raw, q[i - |p|], q[i - |p| + 1]);
      }
    }
    assert Links(raw, path, x, z);
  }

  // ---------------------------------------------------------------- joining all the evidence

  /** Keys with the same root are connected by evidence. */
  ghost predicate Sound(raw: seq<Evidence>, parent: map<string, string>, rank: map<string, nat>)
    requires Forest(parent, rank)
  {
    forall k, l :: k in parent && l in parent && Together(parent, rank, k, l) ==> Connected(raw, k, l)
  }

  /** The given keys have one root. */
  ghost predicate OneRoot(parent: map<string, string>, rank: map<string, nat>, keys: seq<string>)
    requires Forest(parent, rank)
  {
    forall i, j :: 0 <= i < |keys| && 0 <= j < |keys| ==> Together(parent, rank, keys[i], keys[j])
  }

  ghost predicate Complete(parent: map<string, string>, rank: map<string, nat>, done: seq<Evidence>)
    requires Forest(parent, rank)
  {
    forall e :: e in done ==> OneRoot(parent, rank, e.keys)
  }

  /** `p'` is the forest `p` after joining `a` and `b`. */
  ghost predicate IsUnion(p: map<string, string>, q: map<string, nat>, p': map<string, string>, q': map<string, nat>,
                          a: string, b: string)
    requires Forest(p, q) && Forest(p', q')
  {
    && p'.Keys == p.Keys + {a, b}
    && forall k, l :: k in p' && l in p' ==> (Together(p', q', k, l) <==> Joined(p, q, a, b, k, l))
  }

  lemma TogetherConnected(raw: seq<Evidence>, p: map<string, string>, q: map<string, nat>, k: string, l: string)
    requires Forest(p, q) && Sound(raw, p, q) && Together(p, q, k, l)
    ensures Connected(raw, k, l)
  {
    hide Forest;
    if k == l { ConnectedReflexive(raw, k); }
  }

  lemma JoinedConnected(raw: seq<Evidence>, p: map<string, string>, q: map<string, nat>, a: string, b: string,
                        k: string, l: string)
    requires Forest(p, q) && Sound(raw, p, q) && Shares(raw, a, b) && Joined(p, q, a, b, k, l)
    ensures Connected(raw, k, l)
  {
    hide Forest;
    hide Sound;
    hide Together;
    hide Connected;
    SharesConnects(raw, a, b);
    ConnectedSymmetric(raw, a, b);
    if Together(p, q, k, l) {
      TogetherConnected(raw, p, q, k, l);
    } else if Together(p, q, k, a) && Together(p, q, b, l) {
      TogetherConnected(raw, p, q, k, a);
      TogetherConnected(raw, p, q, b, l);
      ConnectedTransitive(raw, k, a, b);
      ConnectedTransitive(raw, k, b, l);
    } else {
      TogetherConnected(raw, p, q, k, b);
      TogetherConnected(raw, p, q, a, l);
      ConnectedTransitive(raw, k, b, a);
      ConnectedTransitive(raw, k, a, l);
    }
  }

  lemma UnionKeepsSound(raw: seq<Evidence>, p: map<string, string>, q: map<string, nat>, p': map<string, string>,
                        q': map<string, nat>, a: string, b: string)
    requires Forest(p, q) && Forest(p', q') && IsUnion(p, q, p', q', a, b) && Sound(raw, p, q) && Shares(raw, a, b)
    ensures Sound(raw, p', q')
  {
    hide Forest;
    hide Joined;
    hide Together;
    hide Connected;
    forall k, l | k in p' && l in p' && Together(p', q', k, l) ensures Connected(raw, k, l) {
      JoinedConnected(raw, p, q, a, b, k, l);
    }
  }

  lemma UnionKeepsTogether(p: map<string, string>, q: map<string, nat>, p': map<string, string>, q': map<string, nat>,
                           a: string, b: string)
    requires Forest(p, q) && Forest(p', q') && IsUnion(p, q, p', q', a, b)
    ensures forall k, l :: Together(p, q, k, l) ==> Together(p', q', k, l)
    ensures Together(p', q', a, b)
  {
    hide Forest;
    assert Together(p, q, a, a) && Together(p, q, b, b);
    assert Joined(p, q, a, b, a, b);
  }

  lemma TogetherTransitive(p: map<string, string>, q: map<string, nat>, k: string, l: string, m: string)
    requires Forest(p, q) && Together(p, q, k, l) && Together(p, q, l, m)
    ensures Together(p, q, k, m) && Together(p, q, m, k)
  {
    hide Forest;
  }

  lemma OneRootGrows(p: map<string, string>, q: map<string, nat>, keys: seq<string>, n: nat)
    requires Forest(p, q) && 0 < n < |keys| && OneRoot(p, q, keys[..n]) && Together(p, q, keys[n - 1], keys[n])
    ensures OneRoot(p, q, keys[..n + 1])
  {
    hide Forest;
    hide Together;
    var more := keys[..n + 1];
    forall i, j | 0 <= i < |more| && 0 <= j < |more| ensures Together(p, q, more[i], more[j]) {
      assert keys[..n][n - 1] == keys[n - 1];
      assert i < n ==> keys[..n][i] == keys[i];
      assert j < n ==> keys[..n][j] == keys[j];
      SelfTogether(p, q, keys[n]);
      if i < n { TogetherTransitive(p, q, keys[i], keys[n - 1], keys[n]); }
      if j < n { TogetherTransitive(p, q, keys[j], keys[n - 1], keys[n]); }
    }
  }

  lemma SelfTogether(p: map<string, string>, q: map<string, nat>, k: string)
    requires Forest(p, q)
    ensures Together(p, q, k, k)
  {
  }

  lemma KeepsOneRoot(p: map<string, string>, q: map<string, nat>, p': map<string, string>, q': map<string, nat>,
                     keys: seq<string>)
    requires Forest(p, q) && Forest(p', q') && OneRoot(p, q, keys)
    requires forall k, l :: Together(p, q, k, l) ==> Together(p', q', k, l)
    ensures OneRoot(p', q', keys)
  {
    hide Forest;
    hide Together;
  }

  /** Joins all the keys of one piece of evidence, pair by neighbouring pair. */
  method UnionKeys(uf: UnionFind, raw: seq<Evidence>, n: nat)
    requires uf.Valid() && n < |raw| && Sound(raw, uf.parent, uf.rank) && Complete(uf.parent, uf.rank, raw[..n])
    modifies uf
    ensures uf.Valid() && Sound(raw, uf.parent, uf.rank) && Complete(uf.parent, uf.rank, raw[..n + 1])
  {
    hide Forest;
    hide Together;
    hide Joined;
    hide Connected;
    var keys := raw[n].keys;
    var i := 1;
    assert OneRoot(uf.parent, uf.rank, keys[..if |keys| == 0 then 0 else 1]) by {
      if |keys| > 0 { SelfTogether(uf.parent, uf.rank, keys[0]); }
    }
    while i < |keys|
      invariant 1 <= i && (i <= |keys| || |keys| == 0)
      invariant uf.Valid() && Sound(raw, uf.parent, uf.rank) && Complete(uf.parent, uf.rank, raw[..n])
      invariant OneRoot(uf.parent, uf.rank, keys[..if |keys| == 0 then 0 else i])
    {
      ghost var p, q := uf.parent, uf.rank;
      assert raw[n] in raw;
      assert Shares(raw, keys[i - 1], keys[i]);
      uf.Union(keys[i - 1], keys[i]);
      assert IsUnion(p, q, uf.parent, uf.rank, keys[i - 1], keys[i]);
      UnionKeepsSound(raw, p, q, uf.parent, uf.rank, keys[i - 1], keys[i]);
      UnionKeepsTogether(p, q, uf.parent, uf.rank, keys[i - 1], keys[i]);
      KeepsOneRoot(p, q, uf.parent, uf.rank, keys[..i]);
      OneRootGrows(uf.parent, uf.rank, keys, i);
      forall e | e in raw[..n] ensures OneRoot(uf.parent, uf.rank, e.keys) {
        KeepsOneRoot(p, q, uf.parent, uf.rank, e.keys);
      }
      i := i + 1;
    }
    assert raw[..n + 1] == raw[..n] + [raw[n]];
    assert keys[..if |keys| == 0 then 0 else i] == keys;
  }

  method UnionAll(raw: seq<Evidence>) returns (uf: UnionFind)
    ensures fresh(uf) && uf.Valid() && Sound(raw, uf.parent, uf.rank) && Complete(uf.parent, uf.rank, raw)
  {
    uf := new UnionFind();
    for n := 0 to |raw|
      invariant fresh(uf) && uf.Valid() && Sound(raw, uf.parent, uf.rank) && Complete(uf.parent, uf.rank, raw[..n])
    {
      UnionKeys(uf, raw, n);
    }
    assert raw[..|raw|] == raw;
  }

  // ---------------------------------------------------------------- what the forest then says

  lemma OneRootShares(raw: seq<Evidence>, p: map<string, string>, q: map<string, nat>, x: string, y: string)
    requires Forest(p, q) && Complete(p, q, raw) && Shares(raw, x, y)
    ensures Together(p, q, x, y)
  {
    hide Forest;
    hide Together;
    var e :| e in raw && x in e.keys && y in e.keys;
    assert OneRoot(p, q, e.keys);
    var i :| 0 <= i < |e.keys| && e.keys[i] == x;
    var j :| 0 <= j < |e.keys| && e.keys[j] == y;
    assert Together(p, q, e.keys[i], e.keys[j]);
  }

  lemma {:induction false} ChainTogether(raw: seq<Evidence>, p: map<string, string>, q: map<string, nat>,
                                         path: seq<string>)
    requires Forest(p, q) && Complete(p, q, raw) && IsChain(raw, path)
    ensures Together(p, q, path[0], path[|path| - 1])
    decreases |path|
  {
    hide Forest;
    hide Together;
    var n := |path| - 1;
    if n == 0 {
      SelfTogether(p, q, path[0]);
    } else {
      ChainTogether(raw, p, q, path[..n]);
      OneRootShares(raw, p, q, path[n - 1], path[n]);
      TogetherTransitive(p, q, path[0], path[n - 1], path[n]);
    }
  }

  /** Keys have the same root exactly when a chain of evidence connects them. */
  lemma RootsAreHouseholds(raw: seq<Evidence>, p: map<string, string>, q: map<string, nat>, x: string, y: string)
    requires Forest(p, q) && Sound(raw, p, q) && Complete(p, q, raw)
    ensures Together(p, q, x, y) <==> Connected(raw, x, y)
  {
    hide Forest;
    hide Together;
    if Connected(raw, x, y) {
      var path :| Links(raw, path, x, y);
      ChainTogether(raw, p, q, path);
    }
    if Together(p, q, x, y) {
      TogetherConnected(raw, p, q, x, y);
    }
  }

  // ---------------------------------------------------------------- the households

  datatype Household = Household(members: set<string>, evidence: seq<Evidence>)

  /** The tenants named by any of the evidence. */
  function Named(evidence: seq<Evidence>): set<string> {
    set e, k | e in evidence && k in e.keys :: k
  }

  /** Every piece of evidence names someone. */
  predicate AllNamed(raw: seq<Evidence>) { forall e :: e in raw ==> e.keys != [] }

  /** The evidence about tenants connected with `k`, in order. */
  ghost function About(raw: seq<Evidence>, some: seq<Evidence>, k: string): seq<Evidence>
    requires AllNamed(some)
  {
    if some == [] then []
    else
      var last := some[|some| - 1];
      About(raw, some[..|some| - 1], k) + if Connected(raw, last.keys[0], k) then [last] else []
  }

  /** The whole household of `k`: everyone connected with it, and all evidence about them. */
  ghost function HouseholdOf(raw: seq<Evidence>, k: string): Household
    requires AllNamed(raw)
  {
    Household((set m | m in Named(raw) && Connected(raw, k, m)), About(raw, raw, k))
  }

  lemma {:induction false} AboutMember(raw: seq<Evidence>, some: seq<Evidence>, k: string, e: Evidence)
    requires AllNamed(some)
    ensures e in About(raw, some, k) <==> e in some && Connected(raw, e.keys[0], k)
  {
    hide Connected;
    if some != [] {
      var n := |some| - 1;
      AboutMember(raw, some[..n], k, e);
      assert some == some[..n] + [some[n]];
    }
  }

  /** The evidence about `k` is all the evidence whose tenants are connected with it, in order. */
  lemma {:induction false} AboutIs(raw: seq<Evidence>, some: seq<Evidence>, k: string) returns (ix: seq<nat>)
    requires AllNamed(some)
    ensures |ix| == |About(raw, some, k)| && Lists.Ascending(ix)
    ensures forall i :: 0 <= i < |ix| ==>
              ix[i] < |some| && About(raw, some, k)[i] == some[ix[i]] && Connected(raw, some[ix[i]].keys[0], k)
    ensures forall j :: 0 <= j < |some| && Connected(raw, some[j].keys[0], k) ==> j in ix
    decreases |some|
  {
    hide Connected;
    ix := [];
    if some != [] {
      var n := |some| - 1;
      ix := AboutIs(raw, some[..n], k);
      if Connected(raw, some[n].keys[0], k) { ix := ix + [n]; }
      assert forall j :: 0 <= j < n ==> some[..n][j] == some[j];
    }
  }

  /** The tenants named by the evidence about `k` are exactly those connected with it. */
  lemma MembersAreConnected(raw: seq<Evidence>, k: string, m: string)
    requires AllNamed(raw)
    ensures m in Named(About(raw, raw, k)) <==> m in Named(raw) && Connected(raw, k, m)
  {
    hide Connected;
    hide About;
    if m in Named(About(raw, raw, k)) {
      var e :| e in About(raw, raw, k) && m in e.keys;
      AboutMember(raw, raw, k, e);
      assert Shares(raw, e.keys[0], m);
      SharesConnects(raw, e.keys[0], m);
      ConnectedSymmetric(raw, e.keys[0], k);
      ConnectedTransitive(raw, k, e.keys[0], m);
    }
    if m in Named(raw) && Connected(raw, k, m) {
      var e :| e in raw && m in e.keys;
      assert Shares(raw, e.keys[0], m);
      SharesConnects(raw, e.keys[0], m);
      ConnectedSymmetric(raw, k, m);
      ConnectedTransitive(raw, e.keys[0], m, k);
      AboutMember(raw, raw, k, e);
    }
  }

  /** The buckets after the first `n` pieces of evidence: each holds the evidence
    * about its key so far and the tenants it names, no two are connected, and
    * every piece of evidence so far has gone into one.
    */
  ghost predicate Bucketed(raw: seq<Evidence>, n: nat, buckets: map<string, Household>)
    requires AllNamed(raw) && n <= |raw|
  {
    && (forall r :: r in buckets ==> buckets[r] == Household(Named(About(raw, raw[..n], r)), About(raw, raw[..n], r)))
    && (forall r, s :: r in buckets && s in buckets && r != s ==> !Connected(raw, r, s))
    && (forall i :: 0 <= i < n ==> exists r :: r in buckets && Connected(raw, raw[i].keys[0], r))
  }

  lemma NamedMore(evidence: seq<Evidence>, e: Evidence)
    ensures Named(evidence + [e]) == Named(evidence) + set k | k in e.keys
  {
  }

  lemma NothingAbout(raw: seq<Evidence>, n: nat, buckets: map<string, Household>, r: string)
    requires AllNamed(raw) && n < |raw| && Bucketed(raw, n, buckets)
    requires forall s :: s in buckets ==> !Connected(raw, r, s)
    ensures About(raw, raw[..n], r) == []
  {
    hide Connected;
    hide About;
    var about := About(raw, raw[..n], r);
    if about != [] {
      AboutMember(raw, raw[..n], r, about[0]);
      var i :| 0 <= i < n && raw[..n][i] == about[0];
      var s :| s in buckets && Connected(raw, raw[i].keys[0], s);
      ConnectedSymmetric(raw, raw[i].keys[0], r);
      ConnectedTransitive(raw, r, raw[i].keys[0], s);
    }
  }

  /** Evidence `n` goes to the bucket of `r`, its only connected key. */
  lemma BucketStep(raw: seq<Evidence>, n: nat, buckets: map<string, Household>, r: string, more: map<string, Household>)
    requires AllNamed(raw) && n < |raw| && Bucketed(raw, n, buckets)
    requires Connected(raw, raw[n].keys[0], r)
    requires forall s :: s in buckets && s != r ==> !Connected(raw, r, s)
    requires var e := raw[n]; var known := if r in buckets then buckets[r] else Household({}, []);
             more == buckets[r := Household(known.members + (set k | k in e.keys), known.evidence + [e])]
    ensures Bucketed(raw, n + 1, more)
  {
    hide Connected;
    var e := raw[n];
    assert raw[..n + 1][..n] == raw[..n];
    forall s | s in more ensures more[s] == Household(Named(About(raw, raw[..n + 1], s)), About(raw, raw[..n + 1], s)) {
      if s == r {
        if r !in buckets { NothingAbout(raw, n, buckets, r); }
        NamedMore(About(raw, raw[..n], r), e);
      } else {
        NotBoth(raw, e.keys[0], r, s);
      }
    }
    forall s, t | s in more && t in more && s != t ensures !Connected(raw, s, t) {
      if t == r && Connected(raw, s, r) { ConnectedSymmetric(raw, s, r); }
    }
    forall i | 0 <= i < n + 1 ensures exists s :: s in more && Connected(raw, raw[i].keys[0], s) {
      if i < n {
        var s :| s in buckets && Connected(raw, raw[i].keys[0], s);
        assert s in more;
      } else {
        assert r in more;
      }
    }
  }

  lemma NotBoth(raw: seq<Evidence>, k: string, r: string, s: string)
    requires Connected(raw, k, r) && !Connected(raw, r, s)
    ensures !Connected(raw, k, s)
  {
    hide Connected;
    if Connected(raw, k, s) {
      ConnectedSymmetric(raw, k, r);
      ConnectedTransitive(raw, r, k, s);
    }
  }

  ghost predicate RootKeys(parent: map<string, string>, rank: map<string, nat>, buckets: map<string, Household>)
    requires Forest(parent, rank)
  {
    forall r :: r in buckets ==> r in parent && Root(parent, rank, r) == r
  }

  /** Puts each piece of evidence into the bucket of its root. */
  method Bucket(uf: UnionFind, raw: seq<Evidence>) returns (buckets: map<string, Household>)
    requires uf.Valid() && AllNamed(raw) && Sound(raw, uf.parent, uf.rank) && Complete(uf.parent, uf.rank, raw)
    modifies uf
    ensures Bucketed(raw, |raw|, buckets)
  {
    hide Forest;
    hide Connected;
    hide Bucketed;
    hide Sound;
    hide Complete;
    hide Compressed;
    buckets := map[];
    assert Bucketed(raw, 0, buckets) by { EmptyBuckets(raw); }
    for n := 0 to |raw|
      invariant uf.Valid() && Sound(raw, uf.parent, uf.rank) && Complete(uf.parent, uf.rank, raw)
      invariant RootKeys(uf.parent, uf.rank, buckets)
      invariant Bucketed(raw, n, buckets)
    {
      var e := raw[n];
      ghost var p, q := uf.parent, uf.rank;
      var root := uf.Find(e.keys[0]);
      GrownKeeps(raw, p, q, uf.parent, uf.rank);
      var known := if root in buckets then buckets[root] else Household({}, []);
      var more := buckets[root := Household(known.members + (set k | k in e.keys), known.evidence + [e])];
      RootConnected(raw, uf.parent, uf.rank, buckets, e.keys[0], root);
      BucketStep(raw, n, buckets, root, more);
      buckets := more;
    }
  }

  lemma EmptyBuckets(raw: seq<Evidence>)
    requires AllNamed(raw)
    ensures Bucketed(raw, 0, map[])
  {
  }

  lemma GrownKeeps(raw: seq<Evidence>, p: map<string, string>, q: map<string, nat>, p1: map<string, string>,
                   q1: map<string, nat>)
    requires Forest(p, q) && Forest(p1, q1) && Grown(p, q, p1, q1) && Sound(raw, p, q) && Complete(p, q, raw)
    ensures Sound(raw, p1, q1) && Complete(p1, q1, raw)
  {
    hide Forest;
    hide Connected;
    forall k, l | k in p1 && l in p1 && Together(p1, q1, k, l) ensures Connected(raw, k, l) {
      TogetherSame(p, q, p1, q1, k, l);
      TogetherConnected(raw, p, q, k, l);
    }
    forall e | e in raw ensures OneRoot(p1, q1, e.keys) {
      assert OneRoot(p, q, e.keys);
    }
  }

  lemma RootConnected(raw: seq<Evidence>, p: map<string, string>, q: map<string, nat>, buckets: map<string, Household>,
                      k: string, r: string)
    requires Forest(p, q) && Sound(raw, p, q) && Complete(p, q, raw) && RootKeys(p, q, buckets)
    requires k in p && r == Root(p, q, k)
    ensures Connected(raw, k, r)
    ensures forall s :: s in buckets && s != r ==> !Connected(raw, r, s)
    ensures r in p && Root(p, q, r) == r
  {
    hide Connected;
    assert Root(p, q, r) == r;
    hide Forest;
    RootsAreHouseholds(raw, p, q, k, r);
    forall s | s in buckets && s != r ensures !Connected(raw, r, s) {
      RootsAreHouseholds(raw, p, q, r, s);
    }
  }

  /** The households of a set of evidence. Every tenant named is in the household
    * of everyone a chain of shared evidence connects it with, each household
    * carries all evidence about its members in order, no tenant is in two, and
    * the only households left out are those with more than the maximum of members.
    */
  method GroupIntoHouseholds(raw: seq<Evidence>) returns (households: map<string, Household>)
    requires AllNamed(raw)
    ensures forall r :: r in households ==>
            households[r] == HouseholdOf(raw, r) && |households[r].members| <= MAX_HOUSEHOLD_SIZE
    ensures forall r, s :: r in households && s in households && r != s ==>
            households[r].members !! households[s].members
    ensures forall e :: e in raw ==> Placed(raw, households, e)
  {
    hide HouseholdOf;
    hide Bucketed;
    hide Placed;
    hide Forest;
    var uf := UnionAll(raw);
    var buckets := Bucket(uf, raw);
    households := map r | r in buckets && |buckets[r].members| <= MAX_HOUSEHOLD_SIZE :: buckets[r];
    BucketsAreHouseholds(raw, buckets);
    forall e | e in raw ensures Placed(raw, households, e) {
      SmallOnesPlaced(raw, buckets, households, e);
    }
  }

  /** Evidence about a household of acceptable size is in that household; other evidence is in none. */
  ghost predicate Placed(raw: seq<Evidence>, households: map<string, Household>, e: Evidence)
    requires AllNamed(raw) && e in raw
  {
    if |HouseholdOf(raw, e.keys[0]).members| <= MAX_HOUSEHOLD_SIZE
    then exists r :: r in households && households[r] == HouseholdOf(raw, e.keys[0])
    else forall r :: r in households ==> e !in households[r].evidence
  }

  lemma SmallOnesPlaced(raw: seq<Evidence>, buckets: map<string, Household>, households: map<string, Household>,
                        e: Evidence)
    requires AllNamed(raw) && Bucketed(raw, |raw|, buckets) && e in raw
    requires households == map r | r in buckets && |buckets[r].members| <= MAX_HOUSEHOLD_SIZE :: buckets[r]
    ensures Placed(raw, households, e)
  {
    var r := EvidencePlaced(raw, buckets, e);
    hide Bucketed;
    hide HouseholdOf;
    if |HouseholdOf(raw, e.keys[0]).members| <= MAX_HOUSEHOLD_SIZE {
      assert r in households && households[r] == HouseholdOf(raw, e.keys[0]);
    }
  }

  lemma BucketsAreHouseholds(raw: seq<Evidence>, buckets: map<string, Household>)
    requires AllNamed(raw) && Bucketed(raw, |raw|, buckets)
    ensures forall r :: r in buckets ==> buckets[r] == HouseholdOf(raw, r)
    ensures forall r, s :: r in buckets && s in buckets && r != s ==> buckets[r].members !! buckets[s].members
  {
    hide Connected;
    assert raw[..|raw|] == raw;
    forall r | r in buckets ensures buckets[r] == HouseholdOf(raw, r) {
      forall m ensures m in Named(About(raw, raw, r)) <==> m in Named(raw) && Connected(raw, r, m) {
        MembersAreConnected(raw, r, m);
      }
    }
    forall r, s | r in buckets && s in buckets && r != s ensures buckets[r].members !! buckets[s].members {
      forall m | m in buckets[r].members && m in buckets[s].members ensures false {
        assert Connected(raw, r, m) && Connected(raw, s, m);
        ConnectedSymmetric(raw, s, m);
        ConnectedTransitive(raw, r, m, s);
      }
    }
  }

  lemma EvidencePlaced(raw: seq<Evidence>, buckets: map<string, Household>, e: Evidence) returns (r: string)
    requires AllNamed(raw) && Bucketed(raw, |raw|, buckets) && e in raw
    ensures r in buckets && buckets[r] == HouseholdOf(raw, r) == HouseholdOf(raw, e.keys[0])
    ensures forall s :: s in buckets && e in buckets[s].evidence ==> s == r
  {
    hide Connected;
    BucketsAreHouseholds(raw, buckets);
    var i :| 0 <= i < |raw| && raw[i] == e;
    r :| r in buckets && Connected(raw, raw[i].keys[0], r);
    SameHousehold(raw, e.keys[0], r);
    forall s | s in buckets && e in buckets[s].evidence ensures s == r {
      assert raw[..|raw|] == raw;
      AboutMember(raw, raw, s, e);
      if s != r {
        NotBoth(raw, e.keys[0], r, s);
      }
    }
  }

  /** Connected tenants have the same household. */
  lemma SameHousehold(raw: seq<Evidence>, k: string, l: string)
    requires AllNamed(raw) && Connected(raw, k, l)
    ensures HouseholdOf(raw, k) == HouseholdOf(raw, l)
  {
    hide Connected;
    ConnectedSymmetric(raw, k, l);
    forall m ensures Connected(raw, k, m) <==> Connected(raw, l, m) {
      if Connected(raw, k, m) { ConnectedTransitive(raw, l, k, m); }
      if Connected(raw, l, m) { ConnectedTransitive(raw, k, l, m); }
    }
    SameAbout(raw, raw, k, l);
  }

  lemma {:induction false} SameAbout(raw: seq<Evidence>, some: seq<Evidence>, k: string, l: string)
    requires AllNamed(some) && Connected(raw, k, l) && Connected(raw, l, k)
    ensures About(raw, some, k) == About(raw, some, l)
  {
    hide Connected;
    if some != [] {
      var n := |some| - 1;
      SameAbout(raw, some[..n], k, l);
      var x := some[n].keys[0];
      if Connected(raw, x, k) { ConnectedTransitive(raw, x, k, l); }
      if Connected(raw, x, l) { ConnectedTransitive(raw, x, l, k); }
    }
  }
}
