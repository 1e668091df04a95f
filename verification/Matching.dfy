/** The longest-common-block matcher behind name similarity: what the longest
  * block of a window is, the recursive total of blocks it defines, which blocks
  * those are, and the loops that compute both (an index of positions, a rolling
  * table of run lengths, and an explicit stack of windows).
  */
module Matching {

  /** `a[alo..ahi]` against `b[blo..bhi]`. */
  datatype Window = Window(alo: nat, ahi: nat, blo: nat, bhi: nat)

  /** `size` characters, at `i` in the first sequence and `j` in the second. */
  datatype Block = Block(i: nat, j: nat, size: nat)

  ghost predicate ValidWindow(a: seq<char>, b: seq<char>, w: Window) {
    w.alo <= w.ahi <= |a| && w.blo <= w.bhi <= |b|
  }

  /** `m` lies inside the window and pairs equal characters. */
  ghost predicate IsCommon(a: seq<char>, b: seq<char>, w: Window, m: Block) {
    && ValidWindow(a, b, w)
    && w.alo <= m.i && m.i + m.size <= w.ahi
    && w.blo <= m.j && m.j + m.size <= w.bhi
    && a[m.i..m.i + m.size] == b[m.j..m.j + m.size]
  }

  /** Earliest in the first sequence, then earliest in the second. */
  predicate NoLater(m: Block, n: Block) {
    m.i < n.i || (m.i == n.i && m.j <= n.j)
  }

  /** No common block is longer, and none of the same length starts earlier;
    * with no common character the block is empty at the window's start.
    */
  ghost predicate IsLongest(a: seq<char>, b: seq<char>, w: Window, m: Block) {
    && IsCommon(a, b, w, m)
    && (m.size == 0 ==> m.i == w.alo && m.j == w.blo)
    && forall n :: IsCommon(a, b, w, n) ==> n.size <= m.size && (n.size == m.size > 0 ==> NoLater(m, n))
  }

  lemma LongestUnique(a: seq<char>, b: seq<char>, w: Window, m: Block, n: Block)
    requires IsLongest(a, b, w, m) && IsLongest(a, b, w, n)
    ensures m == n
  {
  }

  // ---------------------------------------------------------------- runs ending at a cell

  /** Length of the longest common run ending at `a[i]`, `b[j]` that starts at or after `alo`, `blo`. */
  function RunEnding(a: seq<char>, b: seq<char>, alo: nat, blo: nat, i: int, j: int): (n: nat)
    requires i < |a| && j < |b|
    ensures n > 0 ==> alo <= i + 1 - n && blo <= j + 1 - n
    decreases if i < alo then 0 else i - alo + 1
  {
    if i < alo || j < blo || a[i] != b[j] then 0
    else 1 + RunEnding(a, b, alo, blo, i - 1, j - 1)
  }

  /** The run ending at a cell really is common. */
  lemma {:induction false} RunIsCommon(a: seq<char>, b: seq<char>, alo: nat, blo: nat, i: int, j: int, n: nat)
    requires i < |a| && j < |b|
    requires 0 < n == RunEnding(a, b, alo, blo, i, j)
    ensures alo <= i + 1 - n && blo <= j + 1 - n
    ensures forall x :: i + 1 - n <= x <= i ==> a[x] == b[x + (j - i)]
    decreases n
  {
    if n > 1 {
      RunIsCommon(a, b, alo, blo, i - 1, j - 1, n - 1);
    }
  }

  /** Every common block is part of the run ending at its last cell. */
  lemma {:induction false} CommonWithinRun(a: seq<char>, b: seq<char>, w: Window, m: Block)
    requires IsCommon(a, b, w, m) && m.size > 0
    ensures m.size <= RunEnding(a, b, w.alo, w.blo, m.i + m.size - 1, m.j + m.size - 1)
    decreases m.size
  {
    var x, y := m.i + m.size - 1, m.j + m.size - 1;
    assert a[x] == a[m.i..m.i + m.size][m.size - 1];
    assert b[y] == b[m.j..m.j + m.size][m.size - 1];
    if m.size > 1 {
      var shorter := Block(m.i, m.j, m.size - 1);
      assert a[m.i..m.i + shorter.size] == a[m.i..m.i + m.size][..shorter.size];
      assert b[m.j..m.j + shorter.size] == b[m.j..m.j + m.size][..shorter.size];
      CommonWithinRun(a, b, w, shorter);
    }
  }

  // ---------------------------------------------------------------- the sweep's state

  /** The run ending at `x`, `y` is shorter than `m`, or as long and not earlier. */
  ghost predicate Beats(a: seq<char>, b: seq<char>, w: Window, m: Block, x: nat, y: nat)
    requires ValidWindow(a, b, w) && x < w.ahi && y < w.bhi
  {
    var n := RunEnding(a, b, w.alo, w.blo, x, y);
    n <= m.size && (n == m.size > 0 ==> NoLater(m, Block(x + 1 - n, y + 1 - n, n)))
  }

  /** `m` is the longest run among those ending in a row before `row`, or in
    * `row` at a column before `col`; the first cell reaching that length wins.
    */
  ghost predicate BestBefore(a: seq<char>, b: seq<char>, w: Window, row: nat, col: nat, m: Block) {
    && IsCommon(a, b, w, m)
    && (m.size == 0 ==> m.i == w.alo && m.j == w.blo)
    && (m.size > 0 ==> m.i + m.size <= row || (m.i + m.size == row + 1 && m.j + m.size <= col))
    && forall x: nat, y: nat :: w.alo <= x < w.ahi && w.blo <= y < w.bhi && Visited(x, y, row, col) ==>
         Beats(a, b, w, m, x, y)
  }

  /** Once every cell has been visited the best run is the longest block. */
  lemma BestIsLongest(a: seq<char>, b: seq<char>, w: Window, m: Block)
    requires BestBefore(a, b, w, w.ahi, w.blo, m)
    ensures IsLongest(a, b, w, m)
  {
    forall n | IsCommon(a, b, w, n) ensures n.size <= m.size && (n.size == m.size > 0 ==> NoLater(m, n)) {
      if n.size > 0 {
        var x, y := n.i + n.size - 1, n.j + n.size - 1;
        CommonWithinRun(a, b, w, n);
        assert Beats(a, b, w, m, x, y);
      }
    }
  }

  /** The rolling table holds, for each column of the window, the run ending there in row `i`. */
  ghost predicate RowTable(a: seq<char>, b: seq<char>, w: Window, i: int, col: nat, table: map<nat, nat>)
    requires ValidWindow(a, b, w) && i < w.ahi
  {
    && (forall y :: y in table ==> w.blo <= y < col)
    && forall y: nat :: w.blo <= y < col && y < w.bhi ==>
         (if y in table then table[y] else 0) == RunEnding(a, b, w.alo, w.blo, i, y)
  }

  // ---------------------------------------------------------------- the position index

  /** Each character's positions among the first `n` characters, ascending. */
  ghost predicate IsIndex(index: map<char, seq<nat>>, b: seq<char>, n: nat) {
    && n <= |b|
    && (forall c :: c in index ==> forall p :: 0 <= p < |index[c]| ==> index[c][p] < n && b[index[c][p]] == c)
    && (forall c :: c in index ==> forall p, q :: 0 <= p < q < |index[c]| ==> index[c][p] < index[c][q])
    && (forall y: nat :: y < n ==> b[y] in index && y in index[b[y]])
  }

  method IndexPositions(b: seq<char>) returns (index: map<char, seq<nat>>)
    ensures IsIndex(index, b, |b|)
  {
    index := map[];
    for j := 0 to |b|
      invariant IsIndex(index, b, j)
    {
      var ch := b[j];
      var known := if ch in index then index[ch] else [];
      var oldIndex := index;
      index := index[ch := known + [j]];
      forall y: nat | y < j + 1 ensures b[y] in index && y in index[b[y]] {
        if y < j {
          assert y in oldIndex[b[y]];
        } else {
          assert index[ch][|known|] == j;
        }
      }
    }
  }

  // ---------------------------------------------------------------- longest match

  predicate Visited(x: nat, y: nat, row: nat, col: nat) {
    x < row || (x == row && y < col)
  }

  /** The best run after visiting the cell `row`, `j`, where the run has length `k`. */
  function Better(m: Block, row: nat, j: nat, k: nat): Block
    requires k <= row + 1 && k <= j + 1
  {
    if k > m.size then Block(row + 1 - k, j + 1 - k, k) else m
  }

  lemma BetterCommon(a: seq<char>, b: seq<char>, w: Window, row: nat, j: nat, m: Block, k: nat)
    requires IsCommon(a, b, w, m) && w.alo <= row < w.ahi && w.blo <= j < w.bhi
    requires 0 < k == RunEnding(a, b, w.alo, w.blo, row, j)
    ensures IsCommon(a, b, w, Better(m, row, j, k))
  {
    RunIsCommon(a, b, w.alo, w.blo, row, j, k);
    assert a[row + 1 - k..row + 1] == b[j + 1 - k..j + 1];
  }

  lemma BetterBeats(a: seq<char>, b: seq<char>, w: Window, row: nat, col: nat, j: nat, m: Block, k: nat, x: nat, y: nat)
    requires BestBefore(a, b, w, row, col, m)
    requires w.alo <= row < w.ahi && w.blo <= col <= j < w.bhi
    requires 0 < k == RunEnding(a, b, w.alo, w.blo, row, j)
    requires w.alo <= x < w.ahi && w.blo <= y < w.bhi && Visited(x, y, row, j + 1)
    requires x == row && col <= y < j ==> a[row] != b[y]
    ensures Beats(a, b, w, Better(m, row, j, k), x, y)
  {
    if Visited(x, y, row, col) {
      assert Beats(a, b, w, m, x, y);
    } else if y < j {
      assert RunEnding(a, b, w.alo, w.blo, x, y) == 0;
    }
  }

  /** One visited cell extends the best run seen so far. */
  lemma VisitCell(a: seq<char>, b: seq<char>, w: Window, row: nat, col: nat, j: nat, m: Block, k: nat)
    requires BestBefore(a, b, w, row, col, m)
    requires w.alo <= row < w.ahi && w.blo <= col <= j < w.bhi
    requires 0 < k == RunEnding(a, b, w.alo, w.blo, row, j)
    requires forall y: nat :: col <= y < j ==> a[row] != b[y]
    ensures BestBefore(a, b, w, row, j + 1, Better(m, row, j, k))
  {
    BetterCommon(a, b, w, row, j, m, k);
    forall x: nat, y: nat | w.alo <= x < w.ahi && w.blo <= y < w.bhi && Visited(x, y, row, j + 1)
      ensures Beats(a, b, w, Better(m, row, j, k), x, y)
    {
      BetterBeats(a, b, w, row, col, j, m, k, x, y);
    }
  }

  /** Columns without the row's character add nothing, so the row can be closed. */
  lemma CloseRow(a: seq<char>, b: seq<char>, w: Window, row: nat, col: nat, m: Block)
    requires ValidWindow(a, b, w) && w.alo <= row < w.ahi && w.blo <= col
    requires BestBefore(a, b, w, row, col, m)
    requires forall y: nat :: col <= y < w.bhi ==> a[row] != b[y]
    ensures BestBefore(a, b, w, row + 1, w.blo, m)
  {
    forall x: nat, y: nat | w.alo <= x < w.ahi && w.blo <= y < w.bhi && Visited(x, y, row + 1, w.blo)
      ensures Beats(a, b, w, m, x, y)
    {
      if x == row && col <= y {
        assert a[row] != b[y];
      }
    }
  }

  /** The table grows by one cell. */
  lemma TableStep(a: seq<char>, b: seq<char>, w: Window, i: nat, col: nat, j: nat, table: map<nat, nat>, k: nat)
    requires ValidWindow(a, b, w) && w.alo <= i < w.ahi && w.blo <= col <= j < w.bhi
    requires RowTable(a, b, w, i, col, table)
    requires k == RunEnding(a, b, w.alo, w.blo, i, j)
    requires forall y: nat :: col <= y < j ==> a[i] != b[y]
    ensures RowTable(a, b, w, i, j + 1, table[j := k])
  {
  }

  /** Columns without the row's character have no entry. */
  lemma TableClose(a: seq<char>, b: seq<char>, w: Window, i: nat, col: nat, table: map<nat, nat>)
    requires ValidWindow(a, b, w) && w.alo <= i < w.ahi && w.blo <= col <= w.bhi
    requires RowTable(a, b, w, i, col, table)
    requires forall y: nat :: col <= y < w.bhi ==> a[i] != b[y]
    ensures RowTable(a, b, w, i, w.bhi, table)
  {
  }

  /** A run continues the one ending diagonally before it. */
  lemma RunContinues(a: seq<char>, b: seq<char>, w: Window, i: nat, j: nat, table: map<nat, nat>)
    requires ValidWindow(a, b, w) && w.alo <= i < w.ahi && w.blo <= j < w.bhi && a[i] == b[j]
    requires RowTable(a, b, w, i - 1, w.bhi, table)
    ensures RunEnding(a, b, w.alo, w.blo, i, j) == 1 + if j > 0 && j - 1 in table then table[j - 1] else 0
  {
  }

  /** Every position of the character from `col` on is still ahead of index `p`. */
  ghost predicate Ahead(b: seq<char>, c: char, js: seq<nat>, p: nat, col: nat) {
    && p <= |js|
    && forall y: nat :: col <= y < |b| && b[y] == c ==> exists q :: p <= q < |js| && js[q] == y
  }

  lemma AheadStep(b: seq<char>, c: char, js: seq<nat>, p: nat, col: nat)
    requires Ahead(b, c, js, p, col) && p < |js|
    requires forall q, r :: 0 <= q < r < |js| ==> js[q] < js[r]
    ensures forall y: nat :: col <= y < js[p] && y < |b| ==> b[y] != c
    ensures Ahead(b, c, js, p + 1, if js[p] < col then col else js[p] + 1)
  {
  }

  lemma AllAhead(index: map<char, seq<nat>>, b: seq<char>, c: char, col: nat)
    requires IsIndex(index, b, |b|) && c in index
    ensures Ahead(b, c, index[c], 0, col)
  {
    forall y: nat | col <= y < |b| && b[y] == c ensures exists q :: 0 <= q < |index[c]| && index[c][q] == y {
      assert y in index[b[y]];
    }
  }

  method LongestMatch(a: seq<char>, index: map<char, seq<nat>>, w: Window, ghost b: seq<char>) returns (best: Block)
    requires IsIndex(index, b, |b|)
    requires ValidWindow(a, b, w)
    ensures IsLongest(a, b, w, best)
  {
    best := Block(w.alo, w.blo, 0);
    var lengths: map<nat, nat> := map[];
    for i: int := w.alo to w.ahi
      invariant BestBefore(a, b, w, i, w.blo, best)
      invariant RowTable(a, b, w, i - 1, w.bhi, lengths)
    {
      best, lengths := SweepRow(a, index, w, i, best, lengths, b);
    }
    BestIsLongest(a, b, w, best);
  }

  /** One position of the row's character: extends the run ending diagonally before it. */
  method VisitPosition(a: seq<char>, w: Window, i: nat, j: nat, best0: Block, lengths: map<nat, nat>,
                       next0: map<nat, nat>,
                       ghost b: seq<char>, ghost col: nat)
    returns (best: Block, next: map<nat, nat>)
    requires ValidWindow(a, b, w) && w.alo <= i < w.ahi && w.blo <= col <= j < w.bhi && a[i] == b[j]
    requires RowTable(a, b, w, i - 1, w.bhi, lengths)
    requires RowTable(a, b, w, i, col, next0)
    requires BestBefore(a, b, w, i, col, best0)
    requires forall y: nat :: col <= y < j ==> a[i] != b[y]
    ensures BestBefore(a, b, w, i, j + 1, best)
    ensures RowTable(a, b, w, i, j + 1, next)
  {
    var prev := if j == 0 then 0 else if j - 1 in lengths then lengths[j - 1] else 0;
    var k := prev + 1;
    RunContinues(a, b, w, i, j, lengths);
    VisitCell(a, b, w, i, col, j, best0, k);
    TableStep(a, b, w, i, col, j, next0, k);
    next := next0[j := k];
    best := if k > best0.size then Block(i + 1 - k, j + 1 - k, k) else best0;
    assert best == Better(best0, i, j, k);
  }

  /** One row of the sweep: visits the row's character's positions inside the window. */
  method SweepRow(a: seq<char>, index: map<char, seq<nat>>, w: Window, i: nat, best0: Block, lengths: map<nat, nat>,
                  ghost b: seq<char>)
    returns (best: Block, next: map<nat, nat>)
    requires IsIndex(index, b, |b|)
    requires ValidWindow(a, b, w) && w.alo <= i < w.ahi
    requires BestBefore(a, b, w, i, w.blo, best0)
    requires RowTable(a, b, w, i - 1, w.bhi, lengths)
    ensures BestBefore(a, b, w, i + 1, w.blo, best)
    ensures RowTable(a, b, w, i, w.bhi, next)
  {
    best, next := best0, map[];
    ghost var col := w.blo;
    if a[i] in index {
      var js := index[a[i]];
      AllAhead(index, b, a[i], col);
      var p := 0;
      while p < |js|
        invariant 0 <= p <= |js|
        invariant w.blo <= col <= w.bhi
        invariant Ahead(b, a[i], js, p, col)
        invariant p < |js| ==> col == w.blo || col <= js[p]
        invariant BestBefore(a, b, w, i, col, best)
        invariant RowTable(a, b, w, i, col, next)
      {
        var j := js[p];
        AheadStep(b, a[i], js, p, col);
        if j < w.blo {
          p := p + 1;
          continue;
        }
        if j >= w.bhi {
          break;
        }
        best, next := VisitPosition(a, w, i, j, best, lengths, next, b, col);
        col := j + 1;
        p := p + 1;
      }
    }
    TableClose(a, b, w, i, col, next);
    CloseRow(a, b, w, i, col, best);
  }

  // ---------------------------------------------------------------- the recursive total

  lemma {:induction false} EarliestExists(a: seq<char>, b: seq<char>, w: Window, m: Block) returns (best: Block)
    requires IsCommon(a, b, w, m) && m.size > 0
    requires forall n :: IsCommon(a, b, w, n) ==> n.size <= m.size
    ensures IsLongest(a, b, w, best)
    decreases m.i, m.j
  {
    if n :| IsCommon(a, b, w, n) && n.size == m.size && n != m && NoLater(n, m) {
      best := EarliestExists(a, b, w, n);
    } else {
      best := m;
    }
  }

  /** Every window has a longest block. */
  lemma LongestExists(a: seq<char>, b: seq<char>, w: Window) returns (best: Block)
    requires ValidWindow(a, b, w)
    ensures IsLongest(a, b, w, best)
  {
    var size := w.ahi - w.alo;
    while size > 0 && !exists n :: IsCommon(a, b, w, n) && n.size == size
      invariant 0 <= size
      invariant forall n :: IsCommon(a, b, w, n) ==> n.size <= size
    {
      size := size - 1;
    }
    if size > 0 {
      var m :| IsCommon(a, b, w, m) && m.size == size;
      best := EarliestExists(a, b, w, m);
    } else {
      best := Block(w.alo, w.blo, 0);
    }
  }

  /** The longest block of a window. */
  ghost function Longest(a: seq<char>, b: seq<char>, w: Window): (m: Block)
    requires ValidWindow(a, b, w)
    ensures IsLongest(a, b, w, m)
  {
    assert exists m :: IsLongest(a, b, w, m) by { var m := LongestExists(a, b, w); }
    var m :| IsLongest(a, b, w, m);
    m
  }

  /** What is left of the window before and after a block. */
  function LeftOf(w: Window, m: Block): Window { Window(w.alo, m.i, w.blo, m.j) }
  function RightOf(w: Window, m: Block): Window { Window(m.i + m.size, w.ahi, m.j + m.size, w.bhi) }

  /** The matched total: the longest block, plus the totals of the windows on either side of it. */
  ghost function Total(a: seq<char>, b: seq<char>, w: Window): nat
    requires ValidWindow(a, b, w)
    decreases w.ahi - w.alo
  {
    var m := Longest(a, b, w);
    if m.size == 0 then 0
    else Total(a, b, LeftOf(w, m)) + m.size + Total(a, b, RightOf(w, m))
  }

  lemma EmptyWindowTotal(a: seq<char>, b: seq<char>, w: Window)
    requires ValidWindow(a, b, w)
    requires w.alo == w.ahi || w.blo == w.bhi
    ensures Total(a, b, w) == 0
  {
  }

  function Whole(a: seq<char>, b: seq<char>): Window { Window(0, |a|, 0, |b|) }

  // ---------------------------------------------------------------- the blocks that are matched

  /** What lies between the blocks before `p` and the blocks from `q` on. */
  function Between(w: Window, blocks: seq<Block>, p: nat, q: nat): Window
    requires p <= |blocks| && q <= |blocks|
  {
    Window(if p == 0 then w.alo else blocks[p - 1].i + blocks[p - 1].size,
           if q == |blocks| then w.ahi else blocks[q].i,
           if p == 0 then w.blo else blocks[p - 1].j + blocks[p - 1].size,
           if q == |blocks| then w.bhi else blocks[q].j)
  }

  ghost predicate NothingCommon(a: seq<char>, b: seq<char>, w: Window) {
    ValidWindow(a, b, w) && forall n :: IsCommon(a, b, w, n) ==> n.size == 0
  }

  /** One of the blocks from `p` up to `q` is the longest of the window they stand in;
    * where no block stands, nothing is common.
    */
  ghost predicate LongestStands(a: seq<char>, b: seq<char>, w: Window, blocks: seq<Block>, p: nat, q: nat)
    requires p <= q <= |blocks|
  {
    var gap := Between(w, blocks, p, q);
    if p == q then NothingCommon(a, b, gap) else exists k :: p <= k < q && IsLongest(a, b, gap, blocks[k])
  }

  /** The blocks are common, in order, and apart on both sides. */
  ghost predicate InOrder(a: seq<char>, b: seq<char>, w: Window, blocks: seq<Block>) {
    && (forall k :: 0 <= k < |blocks| ==> blocks[k].size > 0 && IsCommon(a, b, w, blocks[k]))
    && (forall j, k :: 0 <= j < k < |blocks| ==> Precedes(blocks[j], blocks[k]))
  }

  ghost predicate AllLongestStand(a: seq<char>, b: seq<char>, w: Window, blocks: seq<Block>) {
    forall p, q :: 0 <= p <= q <= |blocks| ==> LongestStands(a, b, w, blocks, p, q)
  }

  /** The blocks are in order, and between any two of them, and between any one and the
    * window's ends, the longest common block is one of them.
    */
  ghost predicate IsMatching(a: seq<char>, b: seq<char>, w: Window, blocks: seq<Block>) {
    InOrder(a, b, w, blocks) && AllLongestStand(a, b, w, blocks)
  }

  predicate Precedes(m: Block, n: Block) { m.i + m.size <= n.i && m.j + m.size <= n.j }

  function SizeOf(blocks: seq<Block>): nat {
    if blocks == [] then 0 else SizeOf(blocks[..|blocks| - 1]) + blocks[|blocks| - 1].size
  }

  lemma {:induction false} SizeAppend(x: seq<Block>, y: seq<Block>)
    ensures SizeOf(x + y) == SizeOf(x) + SizeOf(y)
  {
    if y == [] {
      assert x + y == x;
    } else {
      var n := |y| - 1;
      assert (x + y)[..|x| + n] == x + y[..n];
      SizeAppend(x, y[..n]);
    }
  }

  /** The longest block of a window is the longest of every smaller window around it. */
  lemma LongestInside(a: seq<char>, b: seq<char>, w: Window, v: Window, m: Block)
    requires IsLongest(a, b, w, m) && m.size > 0 && IsCommon(a, b, v, m)
    requires w.alo <= v.alo && v.ahi <= w.ahi && w.blo <= v.blo && v.bhi <= w.bhi
    ensures IsLongest(a, b, v, m)
  {
    forall n | IsCommon(a, b, v, n) ensures IsCommon(a, b, w, n) {}
  }

  ghost predicate AroundBlock(a: seq<char>, b: seq<char>, w: Window, m: Block, left: seq<Block>, right: seq<Block>) {
    && IsLongest(a, b, w, m) && m.size > 0
    && IsMatching(a, b, LeftOf(w, m), left) && IsMatching(a, b, RightOf(w, m), right)
  }

  lemma {:induction false} JoinInOrder(a: seq<char>, b: seq<char>, w: Window, m: Block, left: seq<Block>,
                                       right: seq<Block>)
    requires AroundBlock(a, b, w, m, left, right)
    ensures InOrder(a, b, w, left + [m] + right)
  {
    var blocks, n := left + [m] + right, |left|;
    hide AllLongestStand;
    assert forall k :: n < k < |blocks| ==> blocks[k] == right[k - n - 1];
  }

  lemma {:induction false} SpanOf(a: seq<char>, b: seq<char>, w: Window, blocks: seq<Block>, p: nat, q: nat)
    requires AllLongestStand(a, b, w, blocks) && p <= q <= |blocks|
    ensures LongestStands(a, b, w, blocks, p, q)
  {
    hide LongestStands;
  }

  /** `part` is the blocks from `n` on, and `v` the window they stand in. */
  ghost predicate IsPart(v: Window, part: seq<Block>, w: Window, blocks: seq<Block>, n: nat) {
    && n + |part| <= |blocks| && (forall k :: 0 <= k < |part| ==> part[k] == blocks[k + n])
    && v == Between(w, blocks, n, n + |part|)
  }

  lemma {:induction false} SameSpan(a: seq<char>, b: seq<char>, v: Window, part: seq<Block>, w: Window,
                                    blocks: seq<Block>, p: nat, q: nat, n: nat)
    requires p <= q <= |part| && IsPart(v, part, w, blocks, n)
    ensures LongestStands(a, b, v, part, p, q) <==> LongestStands(a, b, w, blocks, p + n, q + n)
  {
    hide IsLongest; hide NothingCommon;
    var gap := Between(v, part, p, q);
    assert gap == Between(w, blocks, p + n, q + n);
    hide Between;
    if p < q && LongestStands(a, b, v, part, p, q) {
      var k :| p <= k < q && IsLongest(a, b, gap, part[k]);
      assert blocks[k + n] == part[k];
    }
    if p < q && LongestStands(a, b, w, blocks, p + n, q + n) {
      var k :| p + n <= k < q + n && IsLongest(a, b, gap, blocks[k]);
      assert part[k - n] == blocks[k];
    }
  }

  lemma {:induction false} JoinSpans(a: seq<char>, b: seq<char>, w: Window, m: Block, left: seq<Block>,
                                     right: seq<Block>, p: nat, q: nat)
    requires AroundBlock(a, b, w, m, left, right) && p <= q <= |left + [m] + right|
    ensures LongestStands(a, b, w, left + [m] + right, p, q)
  {
    var blocks, n := left + [m] + right, |left|;
    hide LongestStands; hide IsLongest; hide AllLongestStand; hide InOrder;
    if q <= n {
      assert IsPart(LeftOf(w, m), left, w, blocks, 0);
      SpanOf(a, b, LeftOf(w, m), left, p, q);
      SameSpan(a, b, LeftOf(w, m), left, w, blocks, p, q, 0);
    } else if p > n {
      assert IsPart(RightOf(w, m), right, w, blocks, n + 1);
      SpanOf(a, b, RightOf(w, m), right, p - n - 1, q - n - 1);
      SameSpan(a, b, RightOf(w, m), right, w, blocks, p - n - 1, q - n - 1, n + 1);
    } else {
      JoinInOrder(a, b, w, m, left, right);
      SpanAround(a, b, w, blocks, p, q, n);
    }
  }

  lemma {:induction false} SpanAround(a: seq<char>, b: seq<char>, w: Window, blocks: seq<Block>, p: nat, q: nat, n: nat)
    requires p <= n < q <= |blocks| && IsLongest(a, b, w, blocks[n]) && InOrder(a, b, w, blocks)
    ensures LongestStands(a, b, w, blocks, p, q)
  {
    var gap := Between(w, blocks, p, q);
    if p > 0 { assert Precedes(blocks[p - 1], blocks[n]); }
    if q < |blocks| { assert Precedes(blocks[n], blocks[q]); }
    LongestInside(a, b, w, gap, blocks[n]);
  }

  lemma {:induction false} JoinMatchings(a: seq<char>, b: seq<char>, w: Window, m: Block, left: seq<Block>,
                                         right: seq<Block>)
    requires AroundBlock(a, b, w, m, left, right)
    ensures IsMatching(a, b, w, left + [m] + right)
  {
    hide LongestStands; hide AroundBlock; hide InOrder;
    JoinInOrder(a, b, w, m, left, right);
    forall p, q | 0 <= p <= q <= |left + [m] + right| ensures LongestStands(a, b, w, left + [m] + right, p, q) {
      JoinSpans(a, b, w, m, left, right, p, q);
    }
  }

  /** The total is the size of a matching. */
  lemma {:induction false} TotalIsMatching(a: seq<char>, b: seq<char>, w: Window) returns (blocks: seq<Block>)
    requires ValidWindow(a, b, w)
    ensures IsMatching(a, b, w, blocks) && SizeOf(blocks) == Total(a, b, w)
    decreases w.ahi - w.alo
  {
    var m := Longest(a, b, w);
    if m.size == 0 {
      blocks := [];
    } else {
      var left := TotalIsMatching(a, b, LeftOf(w, m));
      var right := TotalIsMatching(a, b, RightOf(w, m));
      hide IsMatching;
      blocks := left + [m] + right;
      JoinMatchings(a, b, w, m, left, right);
      SizeAppend(left, [m]);
      SizeAppend(left + [m], right);
      assert [m][..0] == [];
      assert SizeOf([m]) == m.size;
    }
  }

  lemma {:induction false} PartMatches(a: seq<char>, b: seq<char>, v: Window, part: seq<Block>, w: Window,
                                       blocks: seq<Block>, n: nat)
    requires IsMatching(a, b, w, blocks) && IsPart(v, part, w, blocks, n)
    ensures IsMatching(a, b, v, part)
  {
    PartInOrder(a, b, v, part, w, blocks, n);
    hide LongestStands; hide InOrder;
    forall p, q | 0 <= p <= q <= |part| ensures LongestStands(a, b, v, part, p, q) {
      SpanOf(a, b, w, blocks, p + n, q + n);
      SameSpan(a, b, v, part, w, blocks, p, q, n);
    }
  }

  lemma {:induction false} PartInOrder(a: seq<char>, b: seq<char>, v: Window, part: seq<Block>, w: Window,
                                       blocks: seq<Block>, n: nat)
    requires InOrder(a, b, w, blocks) && IsPart(v, part, w, blocks, n)
    ensures InOrder(a, b, v, part)
  {
    var end := n + |part|;
    forall k | 0 <= k < |part| ensures part[k].size > 0 && IsCommon(a, b, v, part[k]) {
      assert IsCommon(a, b, w, blocks[k + n]);
      if n > 0 { assert Precedes(blocks[n - 1], blocks[k + n]) && IsCommon(a, b, w, blocks[n - 1]); }
      if end < |blocks| { assert Precedes(blocks[k + n], blocks[end]) && IsCommon(a, b, w, blocks[end]); }
    }
    forall j, k | 0 <= j < k < |part| ensures Precedes(part[j], part[k]) {
      assert Precedes(blocks[j + n], blocks[k + n]);
    }
  }

  lemma {:induction false} PartsMatch(a: seq<char>, b: seq<char>, w: Window, blocks: seq<Block>, n: nat)
    requires IsMatching(a, b, w, blocks) && n < |blocks|
    ensures IsMatching(a, b, LeftOf(w, blocks[n]), blocks[..n])
    ensures IsMatching(a, b, RightOf(w, blocks[n]), blocks[n + 1..])
  {
    hide IsMatching;
    PartMatches(a, b, LeftOf(w, blocks[n]), blocks[..n], w, blocks, 0);
    PartMatches(a, b, RightOf(w, blocks[n]), blocks[n + 1..], w, blocks, n + 1);
  }

  lemma {:induction false} WholeSpan(a: seq<char>, b: seq<char>, w: Window, blocks: seq<Block>) returns (n: nat)
    requires IsMatching(a, b, w, blocks)
    ensures blocks == [] <==> NothingCommon(a, b, w)
    ensures blocks != [] ==> n < |blocks| && IsLongest(a, b, w, blocks[n]) && blocks[n].size > 0
  {
    assert LongestStands(a, b, w, blocks, 0, |blocks|);
    assert Between(w, blocks, 0, |blocks|) == w;
    n := 0;
    if blocks != [] { n :| 0 <= n < |blocks| && IsLongest(a, b, w, blocks[n]); }
  }

  /** A window has only one matching. */
  lemma {:induction false} MatchingUnique(a: seq<char>, b: seq<char>, w: Window, x: seq<Block>, y: seq<Block>)
    requires IsMatching(a, b, w, x) && IsMatching(a, b, w, y)
    ensures x == y
    decreases |x|
  {
    var i := WholeSpan(a, b, w, x);
    var j := WholeSpan(a, b, w, y);
    if x != [] {
      LongestUnique(a, b, w, x[i], y[j]);
      PartsMatch(a, b, w, x, i);
      PartsMatch(a, b, w, y, j);
      hide IsMatching;
      MatchingUnique(a, b, LeftOf(w, x[i]), x[..i], y[..j]);
      MatchingUnique(a, b, RightOf(w, x[i]), x[i + 1..], y[j + 1..]);
      assert x == x[..i] + [x[i]] + x[i + 1..] && y == y[..j] + [y[j]] + y[j + 1..];
    }
  }

  // ---------------------------------------------------------------- the stack of windows

  ghost predicate ValidStack(a: seq<char>, b: seq<char>, stack: seq<Window>) {
    forall w :: w in stack ==> ValidWindow(a, b, w)
  }

  ghost function StackTotal(a: seq<char>, b: seq<char>, stack: seq<Window>): nat
    requires ValidStack(a, b, stack)
  {
    if stack == [] then 0
    else StackTotal(a, b, stack[..|stack| - 1]) + Total(a, b, stack[|stack| - 1])
  }

  ghost function StackWidth(stack: seq<Window>): nat
    requires forall w :: w in stack ==> w.alo <= w.ahi
  {
    if stack == [] then 0
    else StackWidth(stack[..|stack| - 1]) + (stack[|stack| - 1].ahi - stack[|stack| - 1].alo)
  }

  lemma Push(a: seq<char>, b: seq<char>, stack: seq<Window>, w: Window)
    requires ValidStack(a, b, stack) && ValidWindow(a, b, w)
    ensures ValidStack(a, b, stack + [w])
    ensures StackTotal(a, b, stack + [w]) == StackTotal(a, b, stack) + Total(a, b, w)
    ensures StackWidth(stack + [w]) == StackWidth(stack) + (w.ahi - w.alo)
  {
    assert (stack + [w])[..|stack|] == stack;
  }

  /** The explicit stack computes the recursive total, whatever it leaves out as empty. */
  method TotalMatched(a: seq<char>, b: seq<char>) returns (total: nat)
    ensures total == Total(a, b, Whole(a, b))
    ensures exists blocks :: IsMatching(a, b, Whole(a, b), blocks) && total == SizeOf(blocks)
  {
    var index := IndexPositions(b);
    hide IsMatching;
    ghost var blocks := TotalIsMatching(a, b, Whole(a, b));
    total := 0;
    var queue := [Whole(a, b)];
    Push(a, b, [], Whole(a, b));
    assert [] + [Whole(a, b)] == queue;
    while queue != []
      invariant ValidStack(a, b, queue)
      invariant total + StackTotal(a, b, queue) == Total(a, b, Whole(a, b))
      decreases StackWidth(queue), |queue|
    {
      var w := queue[|queue| - 1];
      queue := queue[..|queue| - 1];
      var m := LongestMatch(a, index, w, b);
      LongestUnique(a, b, w, m, Longest(a, b, w));
      if m.size == 0 {
        continue;
      }
      total := total + m.size;
      if w.alo < m.i && w.blo < m.j {
        Push(a, b, queue, LeftOf(w, m));
        queue := queue + [LeftOf(w, m)];
      } else {
        EmptyWindowTotal(a, b, LeftOf(w, m));
      }
      if m.i + m.size < w.ahi && m.j + m.size < w.bhi {
        Push(a, b, queue, RightOf(w, m));
        queue := queue + [RightOf(w, m)];
      } else {
        EmptyWindowTotal(a, b, RightOf(w, m));
      }
    }
  }

  // ---------------------------------------------------------------- bounds on the total

  lemma SubmultisetSize<T>(s: multiset<T>, t: multiset<T>)
    requires s <= t
    ensures |s| <= |t|
  {
    assert t == s + (t - s);
  }

  /** Splitting two sequences around a shared middle loses no shared element. */
  lemma SplitIntersection<T>(x1: multiset<T>, x2: multiset<T>, y1: multiset<T>, y2: multiset<T>, shared: multiset<T>)
    ensures |(x1 + shared + x2) * (y1 + shared + y2)| >= |x1 * y1| + |shared| + |x2 * y2|
  {
    var parts := x1 * y1 + shared + x2 * y2;
    assert parts <= (x1 + shared + x2) * (y1 + shared + y2);
    SubmultisetSize(parts, (x1 + shared + x2) * (y1 + shared + y2));
  }

  /** How many elements, counted with repetition, two sequences share. */
  function SharedCount(x: seq<char>, y: seq<char>): nat {
    |multiset(x) * multiset(y)|
  }

  lemma SharedCountSplit(x: seq<char>, x1: seq<char>, x2: seq<char>, y: seq<char>, y1: seq<char>, y2: seq<char>,
                         shared: seq<char>)
    requires x == x1 + shared + x2 && y == y1 + shared + y2
    ensures SharedCount(x, y) >= SharedCount(x1, y1) + |shared| + SharedCount(x2, y2)
  {
    SplitIntersection(multiset(x1), multiset(x2), multiset(y1), multiset(y2), multiset(shared));
    assert multiset(x) == multiset(x1) + multiset(shared) + multiset(x2);
    assert multiset(y) == multiset(y1) + multiset(shared) + multiset(y2);
  }

  /** Both sides of a window fall into what precedes a common block, the block, and what follows. */
  lemma Around(a: seq<char>, b: seq<char>, w: Window, m: Block)
    requires IsCommon(a, b, w, m)
    ensures a[w.alo..w.ahi] == a[w.alo..m.i] + a[m.i..m.i + m.size] + a[m.i + m.size..w.ahi]
    ensures b[w.blo..w.bhi] == b[w.blo..m.j] + a[m.i..m.i + m.size] + b[m.j + m.size..w.bhi]
  {
  }

  /** How many characters the two sides of the window share. */
  function Shared(a: seq<char>, b: seq<char>, w: Window): nat
    requires w.alo <= w.ahi <= |a| && w.blo <= w.bhi <= |b|
  {
    SharedCount(a[w.alo..w.ahi], b[w.blo..w.bhi])
  }

  lemma SharedSplit(a: seq<char>, b: seq<char>, w: Window, m: Block)
    requires IsCommon(a, b, w, m)
    ensures Shared(a, b, w) >= Shared(a, b, LeftOf(w, m)) + m.size + Shared(a, b, RightOf(w, m))
  {
    hide SharedCount;
    var i', j' := m.i + m.size, m.j + m.size;
    Around(a, b, w, m);
    SharedCountSplit(a[w.alo..w.ahi], a[w.alo..m.i], a[i'..w.ahi], b[w.blo..w.bhi], b[w.blo..m.j], b[j'..w.bhi],
                     a[m.i..i']);
  }

  /** The blocks pair equal characters at positions used once on each side,
    * so their total never exceeds the characters the two sides share.
    */
  lemma {:induction false} TotalWithinShared(a: seq<char>, b: seq<char>, w: Window)
    requires ValidWindow(a, b, w)
    ensures Total(a, b, w) <= Shared(a, b, w)
    decreases w.ahi - w.alo
  {
    var m := Longest(a, b, w);
    if m.size > 0 {
      TotalWithinShared(a, b, LeftOf(w, m));
      TotalWithinShared(a, b, RightOf(w, m));
      SharedSplit(a, b, w, m);
    }
  }

  lemma IntersectionSize<T>(s: multiset<T>, t: multiset<T>)
    ensures |s * t| <= |s| && |s * t| <= |t|
  {
    SubmultisetSize(s * t, s);
    SubmultisetSize(s * t, t);
  }

  lemma TotalWithinWidths(a: seq<char>, b: seq<char>, w: Window)
    requires ValidWindow(a, b, w)
    ensures Total(a, b, w) <= w.ahi - w.alo && Total(a, b, w) <= w.bhi - w.blo
  {
    TotalWithinShared(a, b, w);
    IntersectionSize(multiset(a[w.alo..w.ahi]), multiset(b[w.blo..w.bhi]));
  }

  /** Every character on both sides is matched. */
  ghost predicate IsFull(a: seq<char>, b: seq<char>, w: Window) {
    ValidWindow(a, b, w) && Total(a, b, w) == w.ahi - w.alo == w.bhi - w.blo
  }

  lemma EqualIsFull(a: seq<char>, b: seq<char>, w: Window)
    requires ValidWindow(a, b, w) && a[w.alo..w.ahi] == b[w.blo..w.bhi]
    ensures IsFull(a, b, w)
  {
    var m := Longest(a, b, w);
    assert |a[w.alo..w.ahi]| == |b[w.blo..w.bhi]|;
    assert IsCommon(a, b, w, Block(w.alo, w.blo, w.ahi - w.alo));
    if m.size > 0 {
      EmptyWindowTotal(a, b, LeftOf(w, m));
      EmptyWindowTotal(a, b, RightOf(w, m));
    }
  }

  /** A window reads the same on both sides when its parts around a block do. */
  lemma JoinParts(a: seq<char>, b: seq<char>, w: Window, m: Block)
    requires IsCommon(a, b, w, m)
    requires a[w.alo..m.i] == b[w.blo..m.j]
    requires a[m.i + m.size..w.ahi] == b[m.j + m.size..w.bhi]
    ensures a[w.alo..w.ahi] == b[w.blo..w.bhi]
  {
    Around(a, b, w, m);
  }

  lemma FullParts(a: seq<char>, b: seq<char>, w: Window, m: Block)
    requires IsFull(a, b, w) && m == Longest(a, b, w) && m.size > 0
    ensures IsFull(a, b, LeftOf(w, m)) && IsFull(a, b, RightOf(w, m))
  {
    TotalWithinWidths(a, b, LeftOf(w, m));
    TotalWithinWidths(a, b, RightOf(w, m));
  }

  lemma {:induction false} FullIsEqual(a: seq<char>, b: seq<char>, w: Window)
    requires IsFull(a, b, w)
    ensures a[w.alo..w.ahi] == b[w.blo..w.bhi]
    decreases w.ahi - w.alo
  {
    var m := Longest(a, b, w);
    if m.size > 0 {
      FullParts(a, b, w, m);
      FullIsEqual(a, b, LeftOf(w, m));
      FullIsEqual(a, b, RightOf(w, m));
      JoinParts(a, b, w, m);
    }
  }

  /** Everything is matched on both sides exactly when the two sequences are equal. */
  lemma FullMatch(a: seq<char>, b: seq<char>)
    ensures 2 * Total(a, b, Whole(a, b)) == |a| + |b| <==> a == b
  {
    var w := Whole(a, b);
    assert a[w.alo..w.ahi] == a && b[w.blo..w.bhi] == b;
    TotalWithinWidths(a, b, w);
    if a == b {
      EqualIsFull(a, b, w);
    }
    if 2 * Total(a, b, w) == |a| + |b| {
      FullIsEqual(a, b, w);
    }
  }
}
