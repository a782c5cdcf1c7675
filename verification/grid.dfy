/** The n-by-n board (0 = blank), its rows, columns and k-by-k boxes (n = k * k),
    the completeness test `issolved`, and the relations between boards that the
    rule battery is proved to respect. */
module Grid {
  import opened Seqs
  import opened Squares

  type Board = seq<seq<int>>

  predicate IsGrid(b: Board, n: nat)
  {
    |b| == n && forall i :: 0 <= i < n ==> |b[i]| == n
  }

  /** The board side n is the square of the box side k. */
  predicate Geometry(n: nat, k: nat)
  {
    k >= 1 && k * k == n
  }

  function Column(b: Board, n: nat, c: nat): (col: seq<int>)
    requires IsGrid(b, n) && c < n
    ensures |col| == n && forall i {:trigger col[i]} :: 0 <= i < n ==> col[i] == b[i][c]
  {
    seq(n, i requires 0 <= i < n => b[i][c])
  }

  /** Row of the t-th cell (row-major) of a box in box-row bi. */
  function BoxRow(k: nat, bi: nat, t: nat): (x: nat)
    requires bi < k && t < k * k
    ensures x < k * k && x / k == bi && x % k == t / k
  {
    DivBelow(t, k);
    BoxCoordinate(k, bi, t / k);
    bi * k + t / k
  }

  /** Column of the t-th cell (row-major) of a box in box-column bj. */
  function BoxCol(k: nat, bj: nat, t: nat): (y: nat)
    requires bj < k && t < k * k
    ensures y < k * k && y / k == bj && y % k == t % k
  {
    BoxCoordinate(k, bj, t % k);
    bj * k + t % k
  }

  /** The cells of box (bi, bj), row by row, as the source flattens a box. */
  function BoxCells(b: Board, n: nat, k: nat, bi: nat, bj: nat): (cells: seq<int>)
    requires IsGrid(b, n) && k * k <= n && bi < k && bj < k
    ensures |cells| == k * k
    ensures forall t {:trigger cells[t]} :: 0 <= t < k * k ==> cells[t] == b[BoxRow(k, bi, t)][BoxCol(k, bj, t)]
  {
    seq(k * k, t requires 0 <= t < k * k => b[BoxRow(k, bi, t)][BoxCol(k, bj, t)])
  }

  /** The position of cell (x, y) inside its own box. */
  lemma BoxIndexOf(k: nat, x: nat, y: nat)
    requires k >= 1 && x < k * k && y < k * k
    ensures var t := (x % k) * k + y % k;
            && t < k * k
            && 0 <= x / k < k && 0 <= y / k < k
            && BoxRow(k, x / k, t) == x && BoxCol(k, y / k, t) == y
  {
    var t := (x % k) * k + y % k;
    DivBelow(x, k);
    DivBelow(y, k);
    BoxCoordinate(k, x % k, y % k);
    Decompose(x, k);
    Decompose(y, k);
  }

  /** Row and column of cell t, row-major, of box number g, boxes numbered
      row-major. */
  function SlotRow(k: nat, g: nat, t: nat): (x: nat)
    requires k >= 1 && g < k * k && t < k * k
    ensures x < k * k
  {
    DivBelow(g, k);
    BoxRow(k, g / k, t)
  }

  function SlotCol(k: nat, g: nat, t: nat): (y: nat)
    requires k >= 1 && g < k * k && t < k * k
    ensures y < k * k
  {
    DivBelow(g, k);
    BoxCol(k, g % k, t)
  }

  /** The row-major number of the box holding cell (x, y). */
  function BoxNumber(k: nat, x: nat, y: nat): nat
    requires k >= 1
  {
    (x / k) * k + y / k
  }

  /** Cell (x, y) is the BoxSlot-th cell of box BoxNumber(k, x, y). */
  lemma BoxNumberOf(k: nat, x: nat, y: nat)
    requires k >= 1 && x < k * k && y < k * k
    ensures var g, t := BoxNumber(k, x, y), BoxSlot(k, x, y);
            && g < k * k && t < k * k
            && SlotRow(k, g, t) == x && SlotCol(k, g, t) == y
  {
    var bi, bj := x / k, y / k;
    DivBelow(x, k);
    DivBelow(y, k);
    BoxCoordinate(k, bi, bj);
    var g, t := BoxNumber(k, x, y), BoxSlot(k, x, y);
    assert g == bi * k + bj;
    assert g / k == bi && g % k == bj;
    BoxIndexOf(k, x, y);
    assert BoxRow(k, g / k, t) == BoxRow(k, bi, t) == x;
    assert BoxCol(k, g % k, t) == BoxCol(k, bj, t) == y;
  }

  /** The box holding cell (r, c). */
  function BoxAround(b: Board, n: nat, k: nat, r: nat, c: nat): (cells: seq<int>)
    requires IsGrid(b, n) && Geometry(n, k) && r < n && c < n
    ensures |cells| == n
  {
    DivBelow(r, k);
    DivBelow(c, k);
    BoxCells(b, n, k, r / k, c / k)
  }

  predicate SameBox(k: nat, x: nat, y: nat, x': nat, y': nat)
    requires k >= 1
  {
    x / k == x' / k && y / k == y' / k
  }

  /** A value is in the box around (r, c) exactly when some cell of that box holds it. */
  lemma InBoxAround(b: Board, n: nat, k: nat, r: nat, c: nat, v: int)
    requires IsGrid(b, n) && Geometry(n, k) && r < n && c < n
    ensures v in BoxAround(b, n, k, r, c) <==>
              exists x, y :: 0 <= x < n && 0 <= y < n && SameBox(k, x, y, r, c) && b[x][y] == v
  {
    if v in BoxAround(b, n, k, r, c) {
      BoxMember(b, n, k, r, c, v);
    }
    if exists x, y :: 0 <= x < n && 0 <= y < n && SameBox(k, x, y, r, c) && b[x][y] == v {
      var x, y :| 0 <= x < n && 0 <= y < n && SameBox(k, x, y, r, c) && b[x][y] == v;
      CellInBox(b, n, k, x, y);
    }
  }

  lemma BoxMember(b: Board, n: nat, k: nat, r: nat, c: nat, v: int)
    requires IsGrid(b, n) && Geometry(n, k) && r < n && c < n
    requires v in BoxAround(b, n, k, r, c)
    ensures exists x, y :: 0 <= x < n && 0 <= y < n && SameBox(k, x, y, r, c) && b[x][y] == v
  {
    var cells := BoxAround(b, n, k, r, c);
    DivBelow(r, k);
    DivBelow(c, k);
    var t :| 0 <= t < |cells| && cells[t] == v;
    var bi, bj := r / k, c / k;
    assert bi < k && bj < k && t < k * k;
    var x, y := BoxRow(k, bi, t), BoxCol(k, bj, t);
    assert SameBox(k, x, y, r, c) && b[x][y] == v;
  }

  /** Every cell is in every box around a cell of its box. */
  lemma CellInBox(b: Board, n: nat, k: nat, x: nat, y: nat)
    requires IsGrid(b, n) && Geometry(n, k) && x < n && y < n
    ensures forall r, c :: 0 <= r < n && 0 <= c < n && SameBox(k, x, y, r, c) ==> b[x][y] in BoxAround(b, n, k, r, c)
  {
    BoxIndexOf(k, x, y);
    forall r, c | 0 <= r < n && 0 <= c < n && SameBox(k, x, y, r, c)
      ensures b[x][y] in BoxAround(b, n, k, r, c)
    {
      assert BoxAround(b, n, k, r, c) == BoxAround(b, n, k, x, y);
      assert BoxAround(b, n, k, x, y)[(x % k) * k + y % k] == b[x][y];
    }
  }

  /** The sorted target of every unit: [1, 2, .., n]. */
  function Target(n: nat): (t: seq<int>)
    ensures |t| == n && Sorted(t)
    ensures forall v :: v in t <==> 1 <= v <= n
  {
    RangeMembers(1, n + 1);
    Range(1, n + 1)
  }

  /** `issolved`: every row, every column and every box, sorted, equals [1..n].
      Boxes have side `isqrt(n)`. */
  predicate IsSolved(b: Board, n: nat)
    requires IsGrid(b, n)
  {
    var k := Isqrt(n);
    && (forall r :: 0 <= r < n ==> Sort(b[r]) == Target(n))
    && (forall c :: 0 <= c < n ==> Sort(Column(b, n, c)) == Target(n))
    && (forall bi, bj :: 0 <= bi < k && 0 <= bj < k ==> Sort(BoxCells(b, n, k, bi, bj)) == Target(n))
  }

  /** A unit is complete: it holds 1..n, each exactly once. */
  predicate IsPermutation(s: seq<int>, n: nat)
  {
    multiset(s) == multiset(Target(n))
  }

  /** The board is solved exactly when every row, column and box is a
      permutation of 1..n. */
  lemma SolvedIff(b: Board, n: nat)
    requires IsGrid(b, n)
    ensures IsSolved(b, n) <==>
              var k := Isqrt(n);
              && (forall r :: 0 <= r < n ==> IsPermutation(b[r], n))
              && (forall c :: 0 <= c < n ==> IsPermutation(Column(b, n, c), n))
              && (forall bi, bj :: 0 <= bi < k && 0 <= bj < k ==> IsPermutation(BoxCells(b, n, k, bi, bj), n))
  {
    var k := Isqrt(n);
    forall s: seq<int> ensures Sort(s) == Target(n) <==> IsPermutation(s, n) {
      SortEqualsIff(s, Target(n));
    }
  }

  /** A strictly increasing list holds each value at most once. */
  lemma {:induction false} IncreasingOnce(s: seq<int>, v: int)
    requires Increasing(s)
    ensures multiset(s)[v] <= 1
  {
    if |s| > 0 {
      assert s == [s[0]] + s[1..];
      assert Increasing(s[1..]);
      IncreasingOnce(s[1..], v);
      if s[0] == v {
        assert v !in s[1..];
      }
    }
  }

  /** A list holding a value at two indices holds it at least twice. */
  lemma TwiceAt(s: seq<int>, i: nat, j: nat)
    requires i < j < |s| && s[i] == s[j]
    ensures multiset(s)[s[i]] >= 2
  {
    assert s == s[..j] + s[j..];
    assert s[i] in s[..j];
    assert s[j..][0] == s[j];
    assert multiset(s) == multiset(s[..j]) + multiset(s[j..]);
  }

  /** A permutation of 1..n: its values lie in 1..n, each one occurs, at a single index. */
  lemma PermutationFacts(s: seq<int>, n: nat)
    requires IsPermutation(s, n)
    ensures forall i :: 0 <= i < |s| ==> 1 <= s[i] <= n
    ensures forall v :: 1 <= v <= n ==> v in s
    ensures forall i, j :: 0 <= i < |s| && 0 <= j < |s| && s[i] == s[j] ==> i == j
  {
    forall i | 0 <= i < |s| ensures 1 <= s[i] <= n {
      assert s[i] in multiset(s);
    }
    forall v | 1 <= v <= n ensures v in s {
      assert v in Target(n);
      assert v in multiset(Target(n));
    }
    forall i, j | 0 <= i < |s| && 0 <= j < |s| && s[i] == s[j] ensures i == j {
      if i != j {
        if i < j { TwiceAt(s, i, j); } else { TwiceAt(s, j, i); }
        IncreasingOnce(Target(n), s[i]);
        assert false;
      }
    }
  }

  /** Position of cell (x, y) inside its own box, row-major. */
  function BoxSlot(k: nat, x: nat, y: nat): nat
    requires k >= 1
  {
    (x % k) * k + y % k
  }

  /** The box around (x, y) holds b[x][y] at position BoxSlot(k, x, y). */
  lemma CellAtSlot(b: Board, n: nat, k: nat, x: nat, y: nat)
    requires IsGrid(b, n) && Geometry(n, k) && x < n && y < n
    ensures BoxSlot(k, x, y) < n && BoxAround(b, n, k, x, y)[BoxSlot(k, x, y)] == b[x][y]
  {
    BoxIndexOf(k, x, y);
  }

  /** The cell-level facts of a solved board with box side k: values lie in
      1..n, every value 1..n occurs in each row, column and box, and each
      cell's value is found in its row, column and box at that cell's own
      position, so no value repeats in a unit. The positions are stated with
      `Find`, which keeps these facts out of the way until a proof asks for them. */
  predicate Latin(S: Board, n: nat, k: nat)
    requires IsGrid(S, n) && Geometry(n, k)
  {
    && (forall i, j :: 0 <= i < n && 0 <= j < n ==> 1 <= S[i][j] <= n)
    && (forall i, j {:trigger Find(S[i], S[i][j])} ::
          0 <= i < n && 0 <= j < n ==> Find(S[i], S[i][j]) == j)
    && (forall i, j {:trigger Find(Column(S, n, j), S[i][j])} ::
          0 <= i < n && 0 <= j < n ==> Find(Column(S, n, j), S[i][j]) == i)
    && (forall x, y {:trigger Find(BoxAround(S, n, k, x, y), S[x][y])} ::
          0 <= x < n && 0 <= y < n ==> Find(BoxAround(S, n, k, x, y), S[x][y]) == BoxSlot(k, x, y))
    && (forall i, v :: 0 <= i < n && 1 <= v <= n ==> v in S[i])
    && (forall j, v :: 0 <= j < n && 1 <= v <= n ==> v in Column(S, n, j))
    && (forall r, c, v :: 0 <= r < n && 0 <= c < n && 1 <= v <= n ==> v in BoxAround(S, n, k, r, c))
  }

  /** In a Latin board a value occurs once per row. */
  lemma LatinRowOnce(S: Board, n: nat, k: nat, i: nat, j: nat, j': nat)
    requires IsGrid(S, n) && Geometry(n, k) && Latin(S, n, k)
    requires i < n && j < n && j' < n && S[i][j] == S[i][j']
    ensures j == j'
  {
    assert Find(S[i], S[i][j]) == j;
    assert Find(S[i], S[i][j']) == j';
  }

  /** In a Latin board a value occurs once per column. */
  lemma LatinColumnOnce(S: Board, n: nat, k: nat, i: nat, i': nat, j: nat)
    requires IsGrid(S, n) && Geometry(n, k) && Latin(S, n, k)
    requires i < n && i' < n && j < n && S[i][j] == S[i'][j]
    ensures i == i'
  {
    assert Find(Column(S, n, j), S[i][j]) == i;
    assert Find(Column(S, n, j), S[i'][j]) == i';
  }

  /** In a Latin board a value occurs once per box. */
  lemma LatinBoxOnce(S: Board, n: nat, k: nat, x: nat, y: nat, x': nat, y': nat)
    requires IsGrid(S, n) && Geometry(n, k) && Latin(S, n, k)
    requires x < n && y < n && x' < n && y' < n
    requires SameBox(k, x, y, x', y') && S[x][y] == S[x'][y']
    ensures x == x' && y == y'
  {
    assert BoxAround(S, n, k, x, y) == BoxAround(S, n, k, x', y');
    assert Find(BoxAround(S, n, k, x, y), S[x][y]) == BoxSlot(k, x, y);
    assert Find(BoxAround(S, n, k, x', y'), S[x'][y']) == BoxSlot(k, x', y');
    SlotDetermines(k, x, y, x', y');
  }

  /** Two cells of one box at the same slot are the same cell. */
  lemma SlotDetermines(k: nat, x: nat, y: nat, x': nat, y': nat)
    requires k >= 1 && SameBox(k, x, y, x', y') && BoxSlot(k, x, y) == BoxSlot(k, x', y')
    ensures x == x' && y == y'
  {
    Decompose(x, k);
    Decompose(y, k);
    Decompose(x', k);
    Decompose(y', k);
    DivModSplit(x % k, y % k, k);
    DivModSplit(x' % k, y' % k, k);
  }

  /** A solved board satisfies the cell-level facts. */
  lemma SolvedLatin(S: Board, n: nat, k: nat)
    requires IsGrid(S, n) && Geometry(n, k) && IsSolved(S, n)
    ensures Latin(S, n, k)
  {
    IsqrtOfSquare(k);
    SolvedIff(S, n);
    SolvedRows(S, n);
    SolvedColumns(S, n);
    SolvedBoxes(S, n, k);
  }

  lemma SolvedRows(S: Board, n: nat)
    requires IsGrid(S, n)
    requires forall r :: 0 <= r < n ==> IsPermutation(S[r], n)
    ensures forall i, j :: 0 <= i < n && 0 <= j < n ==> 1 <= S[i][j] <= n
    ensures forall i, j :: 0 <= i < n && 0 <= j < n ==> Find(S[i], S[i][j]) == j
    ensures forall i, v :: 0 <= i < n && 1 <= v <= n ==> v in S[i]
  {
    forall i | 0 <= i < n
      ensures forall j :: 0 <= j < n ==> 1 <= S[i][j] <= n
      ensures forall j :: 0 <= j < n ==> Find(S[i], S[i][j]) == j
      ensures forall v :: 1 <= v <= n ==> v in S[i]
    {
      PermutationFacts(S[i], n);
      forall j | 0 <= j < n ensures Find(S[i], S[i][j]) == j {
        FindOnce(S[i], j);
      }
    }
  }

  lemma SolvedColumns(S: Board, n: nat)
    requires IsGrid(S, n)
    requires forall c :: 0 <= c < n ==> IsPermutation(Column(S, n, c), n)
    ensures forall i, j :: 0 <= i < n && 0 <= j < n ==> Find(Column(S, n, j), S[i][j]) == i
    ensures forall j, v :: 0 <= j < n && 1 <= v <= n ==> v in Column(S, n, j)
  {
    forall j | 0 <= j < n
      ensures forall v :: 1 <= v <= n ==> v in Column(S, n, j)
      ensures forall i :: 0 <= i < n ==> Find(Column(S, n, j), S[i][j]) == i
    {
      var col := Column(S, n, j);
      PermutationFacts(col, n);
      forall i | 0 <= i < n ensures Find(col, S[i][j]) == i {
        assert col[i] == S[i][j];
        FindOnce(col, i);
      }
    }
  }

  lemma SolvedBoxes(S: Board, n: nat, k: nat)
    requires IsGrid(S, n) && Geometry(n, k)
    requires forall bi, bj :: 0 <= bi < k && 0 <= bj < k ==> IsPermutation(BoxCells(S, n, k, bi, bj), n)
    ensures forall x, y :: 0 <= x < n && 0 <= y < n ==> Find(BoxAround(S, n, k, x, y), S[x][y]) == BoxSlot(k, x, y)
    ensures forall r, c, v :: 0 <= r < n && 0 <= c < n && 1 <= v <= n ==> v in BoxAround(S, n, k, r, c)
  {
    forall r, c | 0 <= r < n && 0 <= c < n
      ensures forall v :: 1 <= v <= n ==> v in BoxAround(S, n, k, r, c)
      ensures Find(BoxAround(S, n, k, r, c), S[r][c]) == BoxSlot(k, r, c)
    {
      DivBelow(r, k);
      DivBelow(c, k);
      var cells := BoxAround(S, n, k, r, c);
      assert cells == BoxCells(S, n, k, r / k, c / k);
      PermutationFacts(cells, n);
      CellAtSlot(S, n, k, r, c);
      FindOnce(cells, BoxSlot(k, r, c));
    }
  }

  /** `board[r][c] = v`. */
  function Set(b: Board, n: nat, r: nat, c: nat, v: int): (b': Board)
    requires IsGrid(b, n) && r < n && c < n
    ensures IsGrid(b', n) && b'[r][c] == v
    ensures forall i, j {:trigger b'[i][j]} :: 0 <= i < n && 0 <= j < n && (i != r || j != c) ==> b'[i][j] == b[i][j]
  {
    b[r := b[r][c := v]]
  }

  /** b' extends b: same shape, and every cell that differs was blank in b and
      holds a value in 1..n in b'. Non-blank cells of b are therefore kept. */
  predicate Grows(b: Board, b': Board, n: nat)
  {
    && IsGrid(b, n) && IsGrid(b', n)
    && forall i, j {:trigger b'[i][j]} :: 0 <= i < n && 0 <= j < n && b'[i][j] != b[i][j] ==> b[i][j] == 0 && 1 <= b'[i][j] <= n
  }

  lemma GrowsTrans(b: Board, b': Board, b'': Board, n: nat)
    requires Grows(b, b', n) && Grows(b', b'', n)
    ensures Grows(b, b'', n)
  {
  }

  /** Each of two boards extending the other is the other. */
  lemma GrowsAntisymmetric(b: Board, b': Board, n: nat)
    requires Grows(b, b', n) && Grows(b', b, n)
    ensures b == b'
  {
    BoardsEqual(b, b', n);
  }

  /** Two boards of the same shape are equal when all their cells are. */
  lemma BoardsEqual(b: Board, b': Board, n: nat)
    requires IsGrid(b, n) && IsGrid(b', n)
    requires forall i, j :: 0 <= i < n && 0 <= j < n ==> b[i][j] == b'[i][j]
    ensures b == b'
  {
    forall i | 0 <= i < n ensures b[i] == b'[i] {
    }
  }

  lemma BoardsDiffer(b: Board, b': Board, n: nat)
    requires IsGrid(b, n) && IsGrid(b', n) && b != b'
    ensures exists i, j :: 0 <= i < n && 0 <= j < n && b[i][j] != b'[i][j]
  {
    if forall i, j :: 0 <= i < n && 0 <= j < n ==> b[i][j] == b'[i][j] {
      BoardsEqual(b, b', n);
      assert false;
    }
  }

  /** Number of blank cells in the first m rows. */
  function BlanksIn(b: Board, m: nat): nat
    requires m <= |b|
  {
    if m == 0 then 0 else BlanksIn(b, m - 1) + CountZeros(b[m - 1])
  }

  /** Number of blank cells: n * n minus the filled cells counted by `percent_solved`. */
  function Blanks(b: Board): nat
  {
    BlanksIn(b, |b|)
  }

  /** Filling blanks never adds blanks, and any change removes at least one. */
  lemma GrowsBlanks(b: Board, b': Board, n: nat)
    requires Grows(b, b', n)
    ensures Blanks(b') <= Blanks(b)
    ensures b' != b ==> Blanks(b') < Blanks(b)
  {
    GrowsBlanksIn(b, b', n, n);
    if b' != b {
      var i :| 0 <= i < n && b'[i] != b[i];
      GrowsBlanksStrict(b, b', n, n, i);
    }
  }

  lemma {:induction false} GrowsBlanksIn(b: Board, b': Board, n: nat, m: nat)
    requires Grows(b, b', n) && m <= n
    ensures BlanksIn(b', m) <= BlanksIn(b, m)
  {
    if m > 0 {
      GrowsBlanksIn(b, b', n, m - 1);
      CountZerosFill(b[m - 1], b'[m - 1]);
    }
  }

  lemma {:induction false} GrowsBlanksStrict(b: Board, b': Board, n: nat, m: nat, i: nat)
    requires Grows(b, b', n) && i < m <= n && b'[i] != b[i]
    ensures BlanksIn(b', m) < BlanksIn(b, m)
  {
    CountZerosFill(b[m - 1], b'[m - 1]);
    if i == m - 1 {
      GrowsBlanksIn(b, b', n, m - 1);
    } else {
      GrowsBlanksStrict(b, b', n, m - 1, i);
    }
  }

  /** `given_mask`: the cells that are non-blank at the start of a solve. */
  function GivenMask(b: Board, n: nat): (mask: seq<seq<bool>>)
    requires IsGrid(b, n)
    ensures |mask| == n && forall i :: 0 <= i < n ==> |mask[i]| == n
    ensures forall i, j :: 0 <= i < n && 0 <= j < n ==> (mask[i][j] <==> b[i][j] != 0)
  {
    seq(n, i requires 0 <= i < n => seq(n, j requires 0 <= j < n => b[i][j] != 0))
  }

  /** Cells (x, y) and (x', y') share a row, a column or a box. */
  predicate Peers(k: nat, x: nat, y: nat, x': nat, y': nat)
    requires k >= 1
  {
    x == x' || y == y' || SameBox(k, x, y, x', y')
  }

  /** No row, column or box holds the same non-blank value twice. */
  predicate Consistent(b: Board, n: nat, k: nat)
    requires IsGrid(b, n) && Geometry(n, k)
  {
    forall x, y, x', y' ::
      (0 <= x < n && 0 <= y < n && 0 <= x' < n && 0 <= y' < n
       && (x != x' || y != y') && Peers(k, x, y, x', y') && b[x][y] != 0) ==> b[x][y] != b[x'][y']
  }

  /** b agrees with the full board S wherever b is filled. */
  predicate Below(b: Board, S: Board, n: nat)
  {
    && IsGrid(b, n) && IsGrid(S, n)
    && forall i, j {:trigger b[i][j]} :: 0 <= i < n && 0 <= j < n && b[i][j] != 0 ==> b[i][j] == S[i][j]
  }

  /** A board that agrees with a solved board has no repeated value in any unit. */
  lemma BelowConsistent(b: Board, S: Board, n: nat, k: nat)
    requires Geometry(n, k) && Below(b, S, n) && Latin(S, n, k)
    ensures Consistent(b, n, k)
  {
    forall x, y, x', y' |
        (0 <= x < n && 0 <= y < n && 0 <= x' < n && 0 <= y' < n
         && (x != x' || y != y') && Peers(k, x, y, x', y') && b[x][y] != 0)
      ensures b[x][y] != b[x'][y']
    {
      if b[x][y] == b[x'][y'] {
        if x == x' {
          LatinRowOnce(S, n, k, x, y, y');
        } else if y == y' {
          LatinColumnOnce(S, n, k, x, x', y);
        } else {
          LatinBoxOnce(S, n, k, x, y, x', y');
        }
      }
    }
  }

  /** A solved board agreeing with S is S. */
  lemma SolvedBelowIsSolution(b: Board, S: Board, n: nat, k: nat)
    requires Geometry(n, k) && Below(b, S, n) && IsSolved(b, n)
    ensures b == S
  {
    SolvedLatin(b, n, k);
    BoardsEqual(b, S, n);
  }

  /** Lines of the board run along rows or along columns. */
  datatype Axis = Rows | Cols

  /** The other orientation: the line through a cell that crosses line i. */
  function Cross(a: Axis): Axis
  {
    if a == Rows then Cols else Rows
  }

  /** Board row of position p on line i. */
  function RowOf(a: Axis, i: nat, p: nat): nat
  {
    if a == Rows then i else p
  }

  /** Board column of position p on line i. */
  function ColOf(a: Axis, i: nat, p: nat): nat
  {
    if a == Rows then p else i
  }

  /** Line i along axis a: row i, or column i. */
  function Line(b: Board, n: nat, a: Axis, i: nat): (s: seq<int>)
    requires IsGrid(b, n) && i < n
    ensures |s| == n
    ensures forall p {:trigger s[p]} :: 0 <= p < n ==> s[p] == b[RowOf(a, i, p)][ColOf(a, i, p)]
  {
    if a == Rows then b[i] else Column(b, n, i)
  }
}
