/** The seven deduction rules of one solver cycle. Each rule is a left-to-right
    pass over the board; at every step it decides on at most one write (a
    `Write`), and the pass threads the board and the cycle's `progressed` flag
    through its steps. */
module Rules {
  import opened Optional
  import opened Seqs
  import opened Squares
  import opened Grid

  /** The board after a pass, and whether anything was written so far this cycle. */
  datatype Step = Step(board: Board, progressed: bool)

  /** What every pass guarantees: it only fills blanks, with values 1..n, and it
      reports progress exactly when progress had already been made or it
      changed the board. */
  predicate Advances(b: Board, st: Step, n: nat, progressed: bool)
  {
    Grows(b, st.board, n) && (st.progressed <==> progressed || st.board != b)
  }

  /** Passes compose: a blank filled by the first pass stays filled in the second. */
  lemma AdvancesChain(b: Board, st1: Step, st2: Step, n: nat, progressed: bool)
    requires Advances(b, st1, n, progressed) && Advances(st1.board, st2, n, st1.progressed)
    ensures Advances(b, st2, n, progressed)
  {
    if st1.board != b {
      BoardsDiffer(st1.board, b, n);
      var i, j :| 0 <= i < n && 0 <= j < n && st1.board[i][j] != b[i][j];
      assert st2.board[i][j] != b[i][j];
    }
  }

  /** One decision of a rule: the number v goes into cell (r, c). */
  datatype Write = Write(r: nat, c: nat, v: int)

  /** The write targets a blank cell of b with a number in 1..n. */
  predicate Fills(b: Board, n: nat, w: Write)
  {
    IsGrid(b, n) && w.r < n && w.c < n && b[w.r][w.c] == 0 && 1 <= w.v <= n
  }

  /** `board[r][c] = v` for the write. */
  function Put(b: Board, n: nat, w: Write): Board
    requires IsGrid(b, n) && w.r < n && w.c < n
  {
    Set(b, n, w.r, w.c, w.v)
  }

  /** Writing into a blank fills it and raises the progress flag. */
  lemma PutAdvances(b: Board, n: nat, w: Write, progressed: bool)
    requires Fills(b, n, w)
    ensures Advances(b, Step(Put(b, n, w), true), n, progressed)
  {
    assert Put(b, n, w)[w.r][w.c] != b[w.r][w.c];
  }

  /** A write survives every later pass that only fills blanks, so a pass
      that wrote never ends on the board it started from. */
  lemma WriteSticks(b: Board, n: nat, w: Write, st: Step, progressed: bool)
    requires Fills(b, n, w) && Advances(Put(b, n, w), st, n, progressed)
    ensures st.board != b
  {
    assert st.board[w.r][w.c] != b[w.r][w.c];
  }

  /** The number is in neither the target cell's row, its column nor its box. */
  predicate Legal(b: Board, n: nat, k: nat, w: Write)
    requires IsGrid(b, n) && Geometry(n, k) && w.r < n && w.c < n
  {
    w.v !in b[w.r] && w.v !in Column(b, n, w.c) && w.v !in BoxAround(b, n, k, w.r, w.c)
  }

  /** `set(nums) - set(unit)`: the numbers 1..n absent from a unit. */
  function Missing(unit: seq<int>, n: nat): (m: set<int>)
    ensures forall v :: v in m <==> 1 <= v <= n && v !in unit
  {
    set v | 1 <= v <= n && v !in unit
  }

  /** A unit of n cells with a blank misses some number 1..n, so the element
      taken out of `set(nums) - set(grid)` always exists. */
  lemma MissingNonEmpty(unit: seq<int>, n: nat)
    requires |unit| == n && 0 in unit
    ensures Missing(unit, n) != {}
  {
    Pigeonhole(unit, 0, n + 1);
    var v :| 0 <= v < n + 1 && v !in unit;
    assert v in Missing(unit, n);
  }

  // ---------------------------------------------------------------------
  // Rule 1: a box with a single blank gets the number it misses.
  // The boxes are read from a copy of the board taken when the cycle starts;
  // the write still checks that the live cell is blank.
  // ---------------------------------------------------------------------

  /** Box g, numbered row-major over the k-by-k arrangement of boxes. */
  function BoxNumbered(snap: Board, n: nat, k: nat, g: nat): (cells: seq<int>)
    requires IsGrid(snap, n) && Geometry(n, k) && g < n
    ensures |cells| == n
  {
    DivBelow(g, k);
    BoxCells(snap, n, k, g / k, g % k)
  }

  /** What rule 1 reads off the snapshot for box g: when the box has exactly
      one blank, that cell and some number the box misses (which one is left
      open: the source takes an arbitrary element of a set). */
  ghost function BoxCandidate(snap: Board, n: nat, k: nat, g: nat): (w: Option<Write>)
    requires IsGrid(snap, n) && Geometry(n, k) && g < n
    ensures w.Some? ==> Fills(snap, n, w.value)
    ensures w.Some? ==> BoxAround(snap, n, k, w.value.r, w.value.c) == BoxNumbered(snap, n, k, g)
    ensures w.Some? ==> CountZeros(BoxNumbered(snap, n, k, g)) == 1
    ensures w.Some? ==> w.value.v in Missing(BoxNumbered(snap, n, k, g), n)
    ensures w.None? ==> CountZeros(BoxNumbered(snap, n, k, g)) != 1
  {
    var grid := BoxNumbered(snap, n, k, g);
    if CountZeros(grid) != 1 then None
    else
      CountZerosBound(grid);
      var z := IndexOf(grid, 0);
      MissingNonEmpty(grid, n);
      DivBelow(g, k);
      Decompose(g, k);
      var r, c := BoxRow(k, g / k, z), BoxCol(k, g % k, z);
      assert BoxAround(snap, n, k, r, c) == grid;
      Some(Write(r, c, Pick(Missing(grid, n))))
  }

  /** Rule 1's condition on the snapshot for putting v at (r, c): the cell's
      box has a single blank and misses v. */
  predicate BoxFilled(snap: Board, n: nat, k: nat, r: nat, c: nat, v: int)
    requires IsGrid(snap, n) && Geometry(n, k) && r < n && c < n
  {
    CountZeros(BoxAround(snap, n, k, r, c)) == 1 && v in Missing(BoxAround(snap, n, k, r, c), n)
  }

  /** A write rule 1 may propose: a blank of the snapshot, lying in a box whose
      only blank it is, with a number that box misses. */
  predicate BoxProposal(snap: Board, n: nat, k: nat, w: Write)
    requires IsGrid(snap, n) && Geometry(n, k)
  {
    Fills(snap, n, w) && BoxFilled(snap, n, k, w.r, w.c, w.v)
  }

  /** Every proposal of a plan targets a cell of the board, with a number 1..n. */
  predicate PlanFits(plan: seq<Option<Write>>, n: nat)
  {
    forall g :: 0 <= g < |plan| && plan[g].Some? ==>
      plan[g].value.r < n && plan[g].value.c < n && 1 <= plan[g].value.v <= n
  }

  /** Every proposal of a plan is one rule 1 may make on the snapshot. */
  predicate PlanFrom(snap: Board, n: nat, k: nat, plan: seq<Option<Write>>)
    requires IsGrid(snap, n) && Geometry(n, k)
  {
    forall g :: 0 <= g < |plan| && plan[g].Some? ==> BoxProposal(snap, n, k, plan[g].value)
  }

  /** `grids` as rule 1 uses them: the candidate of every box of the snapshot,
      read once when the cycle starts. */
  ghost function BoxPlan(snap: Board, n: nat, k: nat): (plan: seq<Option<Write>>)
    requires IsGrid(snap, n) && Geometry(n, k)
    ensures |plan| == n && PlanFits(plan, n)
  {
    seq(n, g requires 0 <= g < n => BoxCandidate(snap, n, k, g))
  }

  /** The plan holds exactly the boxes' candidates, and each is a proposal
      rule 1 may make. */
  lemma BoxPlanFrom(snap: Board, n: nat, k: nat)
    requires IsGrid(snap, n) && Geometry(n, k)
    ensures forall g :: 0 <= g < n ==> BoxPlan(snap, n, k)[g] == BoxCandidate(snap, n, k, g)
    ensures PlanFrom(snap, n, k, BoxPlan(snap, n, k))
  {
    var plan := BoxPlan(snap, n, k);
    forall g | 0 <= g < n && plan[g].Some? ensures BoxProposal(snap, n, k, plan[g].value) {
      assert plan[g] == BoxCandidate(snap, n, k, g);
    }
  }

  /** Rule 1's decision for box g: the plan's proposal, provided its cell is
      still blank on the live board. */
  function BoxSpot(plan: seq<Option<Write>>, b: Board, n: nat, g: nat): (w: Option<Write>)
    requires IsGrid(b, n) && PlanFits(plan, n) && g < |plan|
    ensures w.Some? ==> Fills(b, n, w.value) && plan[g] == w
  {
    if plan[g].Some? && b[plan[g].value.r][plan[g].value.c] == 0 then plan[g] else None
  }

  /** Rule 1 over boxes g.. of the plan, writing into b. */
  function BoxSingles(plan: seq<Option<Write>>, b: Board, n: nat, g: nat, progressed: bool): (st: Step)
    requires IsGrid(b, n) && PlanFits(plan, n) && g <= |plan|
    ensures IsGrid(st.board, n)
    decreases |plan| - g
  {
    if g == |plan| then Step(b, progressed)
    else
      match BoxSpot(plan, b, n, g)
      case None => BoxSingles(plan, b, n, g + 1, progressed)
      case Some(w) => BoxSingles(plan, Put(b, n, w), n, g + 1, true)
  }

  /** One box of rule 1. */
  lemma BoxSinglesNext(plan: seq<Option<Write>>, b: Board, n: nat, g: nat, progressed: bool)
    requires IsGrid(b, n) && PlanFits(plan, n) && g < |plan|
    ensures BoxSingles(plan, b, n, g, progressed) ==
              match BoxSpot(plan, b, n, g)
              case None => BoxSingles(plan, b, n, g + 1, progressed)
              case Some(w) => BoxSingles(plan, Put(b, n, w), n, g + 1, true)
  {
  }

  /** Rule 1 only fills blanks, and reports progress exactly when it wrote. */
  lemma {:induction false} BoxSinglesAdvances(plan: seq<Option<Write>>, b: Board, n: nat, g: nat, progressed: bool)
    requires IsGrid(b, n) && PlanFits(plan, n) && g <= |plan|
    ensures Advances(b, BoxSingles(plan, b, n, g, progressed), n, progressed)
    decreases |plan| - g
  {
    if g < |plan| {
      BoxSinglesNext(plan, b, n, g, progressed);
      match BoxSpot(plan, b, n, g)
      case None =>
        BoxSinglesAdvances(plan, b, n, g + 1, progressed);
      case Some(w) =>
        BoxSinglesAdvances(plan, Put(b, n, w), n, g + 1, true);
        PutAdvances(b, n, w, progressed);
        AdvancesChain(b, Step(Put(b, n, w), true), BoxSingles(plan, Put(b, n, w), n, g + 1, true), n, progressed);
    }
  }

  /** When rule 1 ends on the board it started from, no box it visits had a
      proposal whose cell was blank. */
  lemma {:induction false} BoxSinglesFixed(plan: seq<Option<Write>>, b: Board, n: nat, g: nat, progressed: bool)
    requires IsGrid(b, n) && PlanFits(plan, n) && g <= |plan|
    ensures BoxSingles(plan, b, n, g, progressed).board == b ==>
              forall h :: g <= h < |plan| ==> BoxSpot(plan, b, n, h).None?
    decreases |plan| - g
  {
    if g < |plan| {
      BoxSinglesNext(plan, b, n, g, progressed);
      match BoxSpot(plan, b, n, g)
      case None =>
        BoxSinglesFixed(plan, b, n, g + 1, progressed);
      case Some(w) =>
        BoxSinglesAdvances(plan, Put(b, n, w), n, g + 1, true);
        WriteSticks(b, n, w, BoxSingles(plan, Put(b, n, w), n, g + 1, true), true);
    }
  }

  /** Every cell changed between b and b' lies in a box that had exactly one
      blank in the snapshot, and now holds a number that box missed. */
  predicate BoxWrites(snap: Board, b: Board, b': Board, n: nat, k: nat)
    requires IsGrid(snap, n) && IsGrid(b, n) && IsGrid(b', n) && Geometry(n, k)
  {
    forall r, c {:trigger b'[r][c]} :: 0 <= r < n && 0 <= c < n && b'[r][c] != b[r][c] ==>
      BoxFilled(snap, n, k, r, c, b'[r][c])
  }

  /** A rule 1 write into a box with one blank, followed by more such writes. */
  lemma BoxWritesCarry(snap: Board, b: Board, b2: Board, n: nat, k: nat, w: Write)
    requires IsGrid(snap, n) && Geometry(n, k) && Fills(b, n, w) && IsGrid(b2, n)
    requires BoxFilled(snap, n, k, w.r, w.c, w.v)
    requires BoxWrites(snap, Put(b, n, w), b2, n, k)
    ensures BoxWrites(snap, b, b2, n, k)
  {
    var b1 := Put(b, n, w);
    forall r, c | 0 <= r < n && 0 <= c < n && b2[r][c] != b[r][c]
      ensures BoxFilled(snap, n, k, r, c, b2[r][c])
    {
      if b1[r][c] == b[r][c] {
        assert b2[r][c] != b1[r][c];
      }
    }
  }

  /** Rule 1 writes only into boxes that had a single blank in the snapshot,
      and only numbers those boxes missed in the snapshot. */
  lemma {:induction false} BoxSinglesGate(snap: Board, plan: seq<Option<Write>>, b: Board, n: nat, k: nat, g: nat, progressed: bool)
    requires IsGrid(snap, n) && IsGrid(b, n) && Geometry(n, k) && g <= |plan|
    requires PlanFits(plan, n) && PlanFrom(snap, n, k, plan)
    ensures BoxWrites(snap, b, BoxSingles(plan, b, n, g, progressed).board, n, k)
    decreases |plan| - g
  {
    if g < |plan| {
      BoxSinglesNext(plan, b, n, g, progressed);
      match BoxSpot(plan, b, n, g)
      case None =>
        BoxSinglesGate(snap, plan, b, n, k, g + 1, progressed);
      case Some(w) =>
        assert BoxProposal(snap, n, k, plan[g].value);
        BoxSinglesGate(snap, plan, Put(b, n, w), n, k, g + 1, true);
        BoxWritesCarry(snap, b, BoxSingles(plan, Put(b, n, w), n, g + 1, true).board, n, k, w);
    }
  }

  // ---------------------------------------------------------------------
  // Lines: what a pass over rows or columns may change.
  // ---------------------------------------------------------------------

  /** Cell (r, c) lies on line i along axis a. */
  predicate OnLine(a: Axis, i: nat, r: nat, c: nat)
  {
    if a == Rows then r == i else c == i
  }

  /** The line along axis a through cell (r, c). */
  function LineOf(a: Axis, r: nat, c: nat): nat
  {
    if a == Rows then r else c
  }

  /** b' differs from b only on line i. */
  predicate Within(b: Board, b': Board, n: nat, a: Axis, i: nat)
    requires IsGrid(b, n) && IsGrid(b', n)
  {
    forall r, c {:trigger b'[r][c]} :: 0 <= r < n && 0 <= c < n && b'[r][c] != b[r][c] ==> OnLine(a, i, r, c)
  }

  /** A write into line i changes nothing off line i. */
  lemma PutWithin(b: Board, n: nat, w: Write, a: Axis, i: nat)
    requires IsGrid(b, n) && w.r < n && w.c < n && OnLine(a, i, w.r, w.c)
    ensures Within(b, Put(b, n, w), n, a, i)
  {
  }

  /** Changes confined to line i compose. */
  lemma WithinTrans(b: Board, b1: Board, b2: Board, n: nat, a: Axis, i: nat)
    requires IsGrid(b, n) && IsGrid(b1, n) && IsGrid(b2, n)
    requires Within(b, b1, n, a, i) && Within(b1, b2, n, a, i)
    ensures Within(b, b2, n, a, i)
  {
    forall r, c | 0 <= r < n && 0 <= c < n && b2[r][c] != b[r][c] ensures OnLine(a, i, r, c) {
      if b1[r][c] == b[r][c] {
        assert b2[r][c] != b1[r][c];
      }
    }
  }

  /** Writing on line i leaves every other line along the same axis as it was. */
  lemma LineUntouched(b: Board, b': Board, n: nat, a: Axis, i: nat, j: nat)
    requires IsGrid(b, n) && IsGrid(b', n) && i < n && j < n && i != j
    requires Within(b, b', n, a, i)
    ensures Line(b', n, a, j) == Line(b, n, a, j)
  {
    forall p | 0 <= p < n ensures Line(b', n, a, j)[p] == Line(b, n, a, j)[p] {
      assert b'[RowOf(a, j, p)][ColOf(a, j, p)] == b[RowOf(a, j, p)][ColOf(a, j, p)];
    }
  }

  /** Position p of line i is blank; false for a position off the board. */
  predicate Blank(b: Board, n: nat, a: Axis, i: nat, p: int)
    requires IsGrid(b, n) && i < n
  {
    0 <= p < n && b[RowOf(a, i, p)][ColOf(a, i, p)] == 0
  }

  /** Every cell changed between b and b' lies on a line j >= i along a whose
      blank count in b was between lo and hi. */
  predicate WritesIn(b: Board, b': Board, n: nat, a: Axis, i: nat, lo: nat, hi: nat)
    requires IsGrid(b, n) && IsGrid(b', n)
  {
    forall r, c {:trigger b'[r][c]} :: 0 <= r < n && 0 <= c < n && b'[r][c] != b[r][c] ==>
      i <= LineOf(a, r, c) < n && lo <= CountZeros(Line(b, n, a, LineOf(a, r, c))) <= hi
  }

  /** A pass that writes only on line i, taken when that line's count was in
      range, followed by passes over the later lines. */
  lemma WritesCarry(b: Board, b1: Board, b2: Board, n: nat, a: Axis, i: nat, lo: nat, hi: nat)
    requires IsGrid(b, n) && IsGrid(b1, n) && IsGrid(b2, n) && i < n
    requires Within(b, b1, n, a, i)
    requires b1 != b ==> lo <= CountZeros(Line(b, n, a, i)) <= hi
    requires WritesIn(b1, b2, n, a, i + 1, lo, hi)
    ensures WritesIn(b, b2, n, a, i, lo, hi)
  {
    forall r, c | 0 <= r < n && 0 <= c < n && b2[r][c] != b[r][c]
      ensures i <= LineOf(a, r, c) < n && lo <= CountZeros(Line(b, n, a, LineOf(a, r, c))) <= hi
    {
      if b1[r][c] != b[r][c] {
        assert OnLine(a, i, r, c);
      } else {
        assert b2[r][c] != b1[r][c];
        LineUntouched(b, b1, n, a, i, LineOf(a, r, c));
      }
    }
  }

  // ---------------------------------------------------------------------
  // Rules 2 to 5 each run a rule on the lines 0, 1, ..., n-1 in turn, every
  // line seeing the board the previous lines left.
  // ---------------------------------------------------------------------

  /** A rule on single lines of n-by-n boards: it applies to every board and
      line, and gives back an n-by-n board. */
  ghost predicate LineRule(line: (Board, nat, bool) --> Step, n: nat)
  {
    forall b, i: nat, progressed: bool :: IsGrid(b, n) && i < n ==>
      line.requires(b, i, progressed) && IsGrid(line(b, i, progressed).board, n)
  }

  /** The rule on lines i, i+1, ..., n-1, carrying the progress flag along. */
  function Sweep(line: (Board, nat, bool) --> Step, b: Board, n: nat, i: nat, progressed: bool): (st: Step)
    requires LineRule(line, n) && IsGrid(b, n) && i <= n
    ensures IsGrid(st.board, n)
    decreases n - i
  {
    if i == n then Step(b, progressed)
    else
      var st := line(b, i, progressed);
      Sweep(line, st.board, n, i + 1, st.progressed)
  }

  /** On every line the rule only fills blanks and reports progress exactly when it wrote. */
  ghost predicate LinesAdvance(line: (Board, nat, bool) --> Step, n: nat)
    requires LineRule(line, n)
  {
    forall b, i: nat, progressed: bool :: IsGrid(b, n) && i < n ==> Advances(b, line(b, i, progressed), n, progressed)
  }

  /** A sweep of such a rule only fills blanks and reports progress exactly when it wrote. */
  lemma {:induction false} SweepAdvances(line: (Board, nat, bool) --> Step, b: Board, n: nat, i: nat, progressed: bool)
    requires LineRule(line, n) && LinesAdvance(line, n) && IsGrid(b, n) && i <= n
    ensures Advances(b, Sweep(line, b, n, i, progressed), n, progressed)
    decreases n - i
  {
    if i < n {
      var st := line(b, i, progressed);
      SweepAdvances(line, st.board, n, i + 1, st.progressed);
      AdvancesChain(b, st, Sweep(line, st.board, n, i + 1, st.progressed), n, progressed);
    }
  }

  /** On every line the rule writes only on that line, and only when the
      line's blank count lies between lo and hi. */
  ghost predicate LinesConfined(line: (Board, nat, bool) --> Step, n: nat, a: Axis, lo: nat, hi: nat)
    requires LineRule(line, n)
  {
    forall b, i: nat, progressed: bool :: IsGrid(b, n) && i < n ==>
      Within(b, line(b, i, progressed).board, n, a, i) &&
      (line(b, i, progressed).board != b ==> lo <= CountZeros(Line(b, n, a, i)) <= hi)
  }

  /** A sweep of such a rule writes only on lines whose blank count, when the
      sweep began, lay between lo and hi: a line is as the sweep found it
      until its own turn. */
  lemma {:induction false} SweepGate(line: (Board, nat, bool) --> Step, b: Board, n: nat, a: Axis, i: nat, lo: nat, hi: nat, progressed: bool)
    requires LineRule(line, n) && LinesConfined(line, n, a, lo, hi) && IsGrid(b, n) && i <= n
    ensures WritesIn(b, Sweep(line, b, n, i, progressed).board, n, a, i, lo, hi)
    decreases n - i
  {
    if i < n {
      var st := line(b, i, progressed);
      SweepGate(line, st.board, n, a, i + 1, lo, hi, st.progressed);
      WritesCarry(b, st.board, Sweep(line, st.board, n, i + 1, st.progressed).board, n, a, i, lo, hi);
    }
  }

  /** A rule's decision for entry j of one line, lo <= j < hi (a number, or an
      index into a list of numbers): at most one blank to fill, with a number
      in 1..n. */
  ghost predicate SpotRule(spot: (Board, nat) --> Option<Write>, n: nat, lo: nat, hi: nat)
  {
    forall b, j: nat :: IsGrid(b, n) && lo <= j < hi ==>
      spot.requires(b, j) && (spot(b, j).Some? ==> Fills(b, n, spot(b, j).value))
  }

  /** The pass over entries j, j+1, ..., hi-1 of one line, each decided on the
      board the previous entries left. */
  function Pass(spot: (Board, nat) --> Option<Write>, b: Board, n: nat, lo: nat, j: nat, hi: nat, progressed: bool): (st: Step)
    requires SpotRule(spot, n, lo, hi) && IsGrid(b, n) && lo <= j <= hi
    ensures IsGrid(st.board, n)
    decreases hi - j
  {
    if j == hi then Step(b, progressed)
    else
      match spot(b, j)
      case None => Pass(spot, b, n, lo, j + 1, hi, progressed)
      case Some(w) => Pass(spot, Put(b, n, w), n, lo, j + 1, hi, true)
  }

  /** A pass only fills blanks, and reports progress exactly when it wrote. */
  lemma {:induction false} PassAdvances(spot: (Board, nat) --> Option<Write>, b: Board, n: nat, lo: nat, j: nat, hi: nat, progressed: bool)
    requires SpotRule(spot, n, lo, hi) && IsGrid(b, n) && lo <= j <= hi
    ensures Advances(b, Pass(spot, b, n, lo, j, hi, progressed), n, progressed)
    decreases hi - j
  {
    if j < hi {
      match spot(b, j)
      case None =>
        PassAdvances(spot, b, n, lo, j + 1, hi, progressed);
      case Some(w) =>
        PassAdvances(spot, Put(b, n, w), n, lo, j + 1, hi, true);
        PutAdvances(b, n, w, progressed);
        AdvancesChain(b, Step(Put(b, n, w), true), Pass(spot, Put(b, n, w), n, lo, j + 1, hi, true), n, progressed);
    }
  }

  /** Every decision writes on line i. */
  ghost predicate SpotsOnLine(spot: (Board, nat) --> Option<Write>, n: nat, lo: nat, hi: nat, a: Axis, i: nat)
    requires SpotRule(spot, n, lo, hi)
  {
    forall b, j: nat :: IsGrid(b, n) && lo <= j < hi && spot(b, j).Some? ==> OnLine(a, i, spot(b, j).value.r, spot(b, j).value.c)
  }

  /** A pass whose decisions all write on line i changes nothing off line i. */
  lemma {:induction false} PassLocal(spot: (Board, nat) --> Option<Write>, b: Board, n: nat, lo: nat, j: nat, hi: nat, a: Axis, i: nat, progressed: bool)
    requires SpotRule(spot, n, lo, hi) && SpotsOnLine(spot, n, lo, hi, a, i) && IsGrid(b, n) && lo <= j <= hi
    ensures Within(b, Pass(spot, b, n, lo, j, hi, progressed).board, n, a, i)
    decreases hi - j
  {
    if j < hi {
      match spot(b, j)
      case None =>
        PassLocal(spot, b, n, lo, j + 1, hi, a, i, progressed);
      case Some(w) =>
        PassLocal(spot, Put(b, n, w), n, lo, j + 1, hi, a, i, true);
        PutWithin(b, n, w, a, i);
        WithinTrans(b, Put(b, n, w), Pass(spot, Put(b, n, w), n, lo, j + 1, hi, true).board, n, a, i);
    }
  }

  // ---------------------------------------------------------------------
  // Rules 2 and 3: hidden singles. In a line with at least two blanks, a
  // number absent from the line that fits at exactly one blank position
  // (not in that cell's box, not in the crossing line) is placed there.
  // Rows are read live; a column is read from a copy taken before its pass.
  // ---------------------------------------------------------------------

  /** What a hidden-single pass consults for "the number is already in the
      line" and "this position is blank". */
  datatype View = Live | Copy(cells: seq<int>)

  predicate ViewOk(view: View, n: nat)
  {
    view.Copy? ==> |view.cells| == n
  }

  function Seen(b: Board, n: nat, a: Axis, i: nat, view: View): (s: seq<int>)
    requires IsGrid(b, n) && i < n && ViewOk(view, n)
    ensures |s| == n
  {
    match view
    case Live => Line(b, n, a, i)
    case Copy(cells) => cells
  }

  /** v is neither in the box nor in the crossing line of position p of line i. */
  predicate Fits(b: Board, n: nat, k: nat, a: Axis, i: nat, p: nat, v: int)
    requires IsGrid(b, n) && Geometry(n, k) && i < n && p < n
  {
    v !in BoxAround(b, n, k, RowOf(a, i, p), ColOf(a, i, p)) && v !in Line(b, n, Cross(a), p)
  }

  /** `possible_positions`: the positions, blank as seen, where v fits. */
  function Positions(b: Board, n: nat, k: nat, a: Axis, i: nat, seen: seq<int>, v: int): seq<int>
    requires IsGrid(b, n) && Geometry(n, k) && i < n && |seen| == n
  {
    PositionsFrom(b, n, k, a, i, seen, v, 0)
  }

  /** The possible positions from p on, in ascending order. */
  function PositionsFrom(b: Board, n: nat, k: nat, a: Axis, i: nat, seen: seq<int>, v: int, p: nat): seq<int>
    requires IsGrid(b, n) && Geometry(n, k) && i < n && |seen| == n && p <= n
    decreases n - p
  {
    if p == n then []
    else if seen[p] == 0 && Fits(b, n, k, a, i, p, v) then [p] + PositionsFrom(b, n, k, a, i, seen, v, p + 1)
    else PositionsFrom(b, n, k, a, i, seen, v, p + 1)
  }

  lemma {:induction false} PositionsFromMembers(b: Board, n: nat, k: nat, a: Axis, i: nat, seen: seq<int>, v: int, p: nat)
    requires IsGrid(b, n) && Geometry(n, k) && i < n && |seen| == n && p <= n
    ensures forall q :: q in PositionsFrom(b, n, k, a, i, seen, v, p) <==> p <= q < n && seen[q] == 0 && Fits(b, n, k, a, i, q, v)
    decreases n - p
  {
    if p < n {
      PositionsFromMembers(b, n, k, a, i, seen, v, p + 1);
    }
  }

  /** A position is possible exactly when it is blank as seen and v fits there. */
  lemma PositionsMembers(b: Board, n: nat, k: nat, a: Axis, i: nat, seen: seq<int>, v: int)
    requires IsGrid(b, n) && Geometry(n, k) && i < n && |seen| == n
    ensures forall p :: p in Positions(b, n, k, a, i, seen, v) <==> 0 <= p < n && seen[p] == 0 && Fits(b, n, k, a, i, p, v)
  {
    PositionsFromMembers(b, n, k, a, i, seen, v, 0);
  }

  /** The decision for number v on line i: v is not seen on the line, it fits
      at exactly one position blank as seen, and that cell is blank on the
      live board. */
  function HiddenSpot(b: Board, n: nat, k: nat, a: Axis, i: nat, view: View, v: nat): (w: Option<Write>)
    requires IsGrid(b, n) && Geometry(n, k) && i < n && 1 <= v <= n && ViewOk(view, n)
    ensures w.Some? ==> Fills(b, n, w.value) && w.value.v == v && OnLine(a, i, w.value.r, w.value.c)
    ensures w.Some? ==> v !in Seen(b, n, a, i, view)
    ensures w.Some? ==> var ps := Positions(b, n, k, a, i, Seen(b, n, a, i, view), v);
                        |ps| == 1 && ps[0] == LineOf(Cross(a), w.value.r, w.value.c)
    ensures var ps := Positions(b, n, k, a, i, Seen(b, n, a, i, view), v);
            v !in Seen(b, n, a, i, view) && |ps| == 1 && Blank(b, n, a, i, ps[0]) ==> w.Some?
  {
    var seen := Seen(b, n, a, i, view);
    if v in seen then None
    else
      var ps := Positions(b, n, k, a, i, seen, v);
      if |ps| == 1 && Blank(b, n, a, i, ps[0]) then Some(Write(RowOf(a, i, ps[0]), ColOf(a, i, ps[0]), v))
      else None
  }

  /** The hidden-single decisions of line i, one per number 1..n. */
  function HiddenSpots(n: nat, k: nat, a: Axis, i: nat, view: View): (spot: (Board, nat) --> Option<Write>)
    requires Geometry(n, k) && i < n && ViewOk(view, n)
    ensures SpotRule(spot, n, 1, n + 1) && SpotsOnLine(spot, n, 1, n + 1, a, i)
  {
    (b: Board, v: nat) requires IsGrid(b, n) && Geometry(n, k) && i < n && ViewOk(view, n) && 1 <= v <= n =>
      HiddenSpot(b, n, k, a, i, view, v)
  }

  /** The pass over numbers v..n for line i. */
  function HiddenPass(b: Board, n: nat, k: nat, a: Axis, i: nat, view: View, v: nat, progressed: bool): (st: Step)
    requires IsGrid(b, n) && Geometry(n, k) && i < n && 1 <= v <= n + 1 && ViewOk(view, n)
    ensures IsGrid(st.board, n)
  {
    Pass(HiddenSpots(n, k, a, i, view), b, n, 1, v, n + 1, progressed)
  }

  /** A copied line differs from the live line only where the copy was blank
      and a number below v has been written since. */
  predicate Stale(b: Board, n: nat, a: Axis, i: nat, view: View, v: int)
    requires IsGrid(b, n) && i < n
  {
    match view
    case Live => true
    case Copy(cells) =>
      |cells| == n &&
      forall p :: 0 <= p < n && Line(b, n, a, i)[p] != cells[p] ==>
        cells[p] == 0 && 1 <= Line(b, n, a, i)[p] < v
  }

  /** Writing v on the line where the copy saw a blank keeps the copy stale
      only in numbers up to v. */
  lemma StaleAfterPut(b: Board, n: nat, a: Axis, i: nat, view: View, v: nat, w: Write)
    requires IsGrid(b, n) && i < n && ViewOk(view, n) && Stale(b, n, a, i, view, v)
    requires Fills(b, n, w) && w.v == v && OnLine(a, i, w.r, w.c)
    requires Seen(b, n, a, i, view)[LineOf(Cross(a), w.r, w.c)] == 0
    ensures Stale(Put(b, n, w), n, a, i, view, v + 1)
  {
    var b1 := Put(b, n, w);
    if view.Copy? {
      forall p | 0 <= p < n && Line(b1, n, a, i)[p] != view.cells[p]
        ensures view.cells[p] == 0 && 1 <= Line(b1, n, a, i)[p] < v + 1
      {
        if Line(b1, n, a, i)[p] == Line(b, n, a, i)[p] {
          assert Line(b, n, a, i)[p] != view.cells[p];
        }
      }
    }
  }

  /** One number of a hidden-single pass whose copy is stale only below v:
      a write puts a number that is in neither the cell's row, column nor box
      of the live board, and the copy stays stale only below v + 1. */
  lemma HiddenStepLegal(b: Board, n: nat, k: nat, a: Axis, i: nat, view: View, v: nat)
    requires IsGrid(b, n) && Geometry(n, k) && i < n && 1 <= v <= n && ViewOk(view, n)
    requires Stale(b, n, a, i, view, v)
    ensures match HiddenSpot(b, n, k, a, i, view, v)
            case None => Stale(b, n, a, i, view, v + 1)
            case Some(w) => Legal(b, n, k, w) && Stale(Put(b, n, w), n, a, i, view, v + 1)
  {
    match HiddenSpot(b, n, k, a, i, view, v)
    case None =>
    case Some(w) =>
      var seen := Seen(b, n, a, i, view);
      var ps := Positions(b, n, k, a, i, seen, v);
      PositionsMembers(b, n, k, a, i, seen, v);
      assert ps[0] in ps;
      var live := Line(b, n, a, i);
      forall q | 0 <= q < n ensures live[q] != v {
        assert seen[q] in seen;
      }
      if a == Rows {
        assert b[w.r] == live;
      } else {
        assert Column(b, n, w.c) == live;
      }
      StaleAfterPut(b, n, a, i, view, v, w);
  }

  /** The view a line's pass uses: rows live, columns through a copy taken
      when the pass begins, so it starts out equal to the live line. */
  function ViewFor(b: Board, n: nat, a: Axis, i: nat): (view: View)
    requires IsGrid(b, n) && i < n
    ensures ViewOk(view, n) && Stale(b, n, a, i, view, 1)
    ensures view.Copy? ==> view.cells == Line(b, n, a, i)
  {
    if a == Rows then Live else Copy(Line(b, n, a, i))
  }

  /** Rule 2 or 3 on line i: the pass runs only when the line has two or more blanks. */
  function HiddenLine(b: Board, n: nat, k: nat, a: Axis, i: nat, progressed: bool): (st: Step)
    requires IsGrid(b, n) && Geometry(n, k) && i < n
    ensures IsGrid(st.board, n)
  {
    if CountZeros(Line(b, n, a, i)) > 1 then HiddenPass(b, n, k, a, i, ViewFor(b, n, a, i), 1, progressed)
    else Step(b, progressed)
  }

  /** Rule 2 or 3 as a rule on single lines. */
  function HiddenLines(n: nat, k: nat, a: Axis): (line: (Board, nat, bool) --> Step)
    requires Geometry(n, k)
    ensures LineRule(line, n)
  {
    (b: Board, i: nat, progressed: bool) requires IsGrid(b, n) && Geometry(n, k) && i < n => HiddenLine(b, n, k, a, i, progressed)
  }

  /** Rule 2 (a = Rows) or rule 3 (a = Cols) over lines i.. . */
  function HiddenSingles(b: Board, n: nat, k: nat, a: Axis, i: nat, progressed: bool): (st: Step)
    requires IsGrid(b, n) && Geometry(n, k) && i <= n
    ensures IsGrid(st.board, n)
  {
    Sweep(HiddenLines(n, k, a), b, n, i, progressed)
  }

  /** Rule 2 or 3 on one line only fills blanks, and reports progress exactly when it wrote. */
  lemma HiddenLineAdvances(b: Board, n: nat, k: nat, a: Axis, i: nat, progressed: bool)
    requires IsGrid(b, n) && Geometry(n, k) && i < n
    ensures Advances(b, HiddenLine(b, n, k, a, i, progressed), n, progressed)
  {
    if CountZeros(Line(b, n, a, i)) > 1 {
      PassAdvances(HiddenSpots(n, k, a, i, ViewFor(b, n, a, i)), b, n, 1, 1, n + 1, progressed);
    }
  }

  /** Rules 2 and 3 only fill blanks, and report progress exactly when they wrote. */
  lemma HiddenSinglesAdvances(b: Board, n: nat, k: nat, a: Axis, i: nat, progressed: bool)
    requires IsGrid(b, n) && Geometry(n, k) && i <= n
    ensures Advances(b, HiddenSingles(b, n, k, a, i, progressed), n, progressed)
  {
    var line := HiddenLines(n, k, a);
    forall b', i': nat, progressed': bool | IsGrid(b', n) && i' < n
      ensures Advances(b', line(b', i', progressed'), n, progressed')
    {
      HiddenLineAdvances(b', n, k, a, i', progressed');
    }
    SweepAdvances(line, b, n, i, progressed);
  }

  /** Rule 2 or 3 on one line writes only on that line, and only when it had
      at least two blanks. */
  lemma HiddenLineLocal(b: Board, n: nat, k: nat, a: Axis, i: nat, progressed: bool)
    requires IsGrid(b, n) && Geometry(n, k) && i < n
    ensures Within(b, HiddenLine(b, n, k, a, i, progressed).board, n, a, i)
    ensures HiddenLine(b, n, k, a, i, progressed).board != b ==> 2 <= CountZeros(Line(b, n, a, i)) <= n
  {
    CountZerosBound(Line(b, n, a, i));
    if CountZeros(Line(b, n, a, i)) > 1 {
      PassLocal(HiddenSpots(n, k, a, i, ViewFor(b, n, a, i)), b, n, 1, 1, n + 1, a, i, progressed);
    }
  }

  /** Rules 2 and 3 write only on lines that had at least two blanks when
      the sweep began: each pass writes only on its own line, so a line is
      as in b when its turn comes. */
  lemma HiddenSinglesGate(b: Board, n: nat, k: nat, a: Axis, i: nat, progressed: bool)
    requires IsGrid(b, n) && Geometry(n, k) && i <= n
    ensures WritesIn(b, HiddenSingles(b, n, k, a, i, progressed).board, n, a, i, 2, n)
  {
    var line := HiddenLines(n, k, a);
    forall b', i': nat, progressed': bool | IsGrid(b', n) && i' < n
      ensures Within(b', line(b', i', progressed').board, n, a, i') &&
              (line(b', i', progressed').board != b' ==> 2 <= CountZeros(Line(b', n, a, i')) <= n)
    {
      HiddenLineLocal(b', n, k, a, i', progressed');
    }
    SweepGate(line, b, n, a, i, 2, n, progressed);
  }

  // ---------------------------------------------------------------------
  // Rules 4 and 5: in a line with two to five blanks, a missing number that
  // is absent from exactly one blank position's crossing line goes there.
  // The blank positions and missing numbers are taken once per line; the box
  // is not consulted.
  // ---------------------------------------------------------------------

  /** `zero_indices`: the blank positions of a line, ascending. */
  function BlankPositions(line: seq<int>): (zs: seq<int>)
    ensures |zs| == CountZeros(line)
  {
    if |line| == 0 then []
    else
      var last := |line| - 1;
      BlankPositions(line[..last]) + (if line[last] == 0 then [last] else [])
  }

  /** The listed positions are exactly the blank ones. */
  lemma {:induction false} BlankPositionsMembers(line: seq<int>)
    ensures forall p :: p in BlankPositions(line) <==> 0 <= p < |line| && line[p] == 0
  {
    if |line| > 0 {
      var last := |line| - 1;
      BlankPositionsMembers(line[..last]);
    }
  }

  /** `missing_numbers`: the numbers 1..n absent from a unit, ascending. */
  function MissingList(unit: seq<int>, n: nat): seq<int>
  {
    Select(1, n + 1, v => v !in unit)
  }

  /** The listed numbers are exactly the numbers 1..n absent from the unit, ascending. */
  lemma MissingListMembers(unit: seq<int>, n: nat)
    ensures forall v :: v in MissingList(unit, n) <==> 1 <= v <= n && v !in unit
    ensures Increasing(MissingList(unit, n))
  {
    SelectMembers(1, n + 1, v => v !in unit);
    SelectIncreasing(1, n + 1, v => v !in unit);
  }

  /** The ascending list and the set of missing numbers have the same size. */
  lemma MissingListSize(unit: seq<int>, n: nat)
    ensures |MissingList(unit, n)| == |Missing(unit, n)|
  {
    MissingListMembers(unit, n);
    assert Elems(MissingList(unit, n)) == Missing(unit, n);
    ElemsIncreasing(MissingList(unit, n));
  }

  /** Each listed missing number lies in 1..n. */
  lemma MissingListRange(unit: seq<int>, n: nat, m: nat)
    requires m < |MissingList(unit, n)|
    ensures 1 <= MissingList(unit, n)[m] <= n
  {
    MissingListMembers(unit, n);
    assert MissingList(unit, n)[m] in MissingList(unit, n);
  }

  /** `candidates`: the listed blank positions whose crossing line lacks v. */
  function Clear(b: Board, n: nat, a: Axis, zeros: seq<int>, v: int): seq<int>
    requires IsGrid(b, n)
  {
    Keep(zeros, p => 0 <= p < n && v !in Line(b, n, Cross(a), p))
  }

  /** A listed position is kept exactly when its crossing line lacks v. */
  lemma ClearMembers(b: Board, n: nat, a: Axis, zeros: seq<int>, v: int)
    requires IsGrid(b, n)
    ensures forall p :: p in Clear(b, n, a, zeros, v) <==> p in zeros && 0 <= p < n && v !in Line(b, n, Cross(a), p)
  {
    KeepMembers(zeros, p => 0 <= p < n && v !in Line(b, n, Cross(a), p));
  }

  /** The decision for missing number v on line i: exactly one listed blank
      position has a crossing line without v, and that cell is still blank. */
  function PointingSpot(b: Board, n: nat, a: Axis, i: nat, zeros: seq<int>, v: int): (w: Option<Write>)
    requires IsGrid(b, n) && i < n && 1 <= v <= n
    ensures w.Some? ==> Fills(b, n, w.value) && w.value.v == v && OnLine(a, i, w.value.r, w.value.c)
    ensures w.Some? ==> var cs := Clear(b, n, a, zeros, v);
                        |cs| == 1 && cs[0] == LineOf(Cross(a), w.value.r, w.value.c)
    ensures var cs := Clear(b, n, a, zeros, v);
            |cs| == 1 && Blank(b, n, a, i, cs[0]) ==> w.Some?
  {
    var cs := Clear(b, n, a, zeros, v);
    if |cs| == 1 && Blank(b, n, a, i, cs[0]) then Some(Write(RowOf(a, i, cs[0]), ColOf(a, i, cs[0]), v))
    else None
  }

  /** Every listed missing number lies in 1..n. */
  lemma MissingListBounds(unit: seq<int>, n: nat)
    ensures forall m :: 0 <= m < |MissingList(unit, n)| ==> 1 <= MissingList(unit, n)[m] <= n
  {
    forall m | 0 <= m < |MissingList(unit, n)| ensures 1 <= MissingList(unit, n)[m] <= n {
      MissingListRange(unit, n, m);
    }
  }

  /** The pointing decisions of line i, one per number missing from `line0`,
      the line as it was when its pass began. */
  function PointingSpots(n: nat, a: Axis, i: nat, line0: seq<int>): (spot: (Board, nat) --> Option<Write>)
    requires i < n
    ensures SpotRule(spot, n, 0, |MissingList(line0, n)|) && SpotsOnLine(spot, n, 0, |MissingList(line0, n)|, a, i)
  {
    MissingListBounds(line0, n);
    (b: Board, m: nat) requires IsGrid(b, n) && i < n && m < |MissingList(line0, n)| && 1 <= MissingList(line0, n)[m] <= n =>
      PointingSpot(b, n, a, i, BlankPositions(line0), MissingList(line0, n)[m])
  }

  /** The pass for line i over its missing numbers from the m-th on. The
      blank positions and the missing numbers are those of `line0`. */
  function PointingPass(b: Board, n: nat, a: Axis, i: nat, line0: seq<int>, m: nat, progressed: bool): (st: Step)
    requires IsGrid(b, n) && i < n && m <= |MissingList(line0, n)|
    ensures IsGrid(st.board, n)
  {
    Pass(PointingSpots(n, a, i, line0), b, n, 0, m, |MissingList(line0, n)|, progressed)
  }

  /** Rule 4 or 5 on line i: the pass runs only when the line has two to five
      blanks, that is, when its list of blank positions has that length. */
  function PointingLine(b: Board, n: nat, a: Axis, i: nat, progressed: bool): (st: Step)
    requires IsGrid(b, n) && i < n
    ensures IsGrid(st.board, n)
  {
    if 2 <= CountZeros(Line(b, n, a, i)) <= 5 then PointingPass(b, n, a, i, Line(b, n, a, i), 0, progressed)
    else Step(b, progressed)
  }

  /** Rule 4 or 5 as a rule on single lines. */
  function PointingLines(n: nat, a: Axis): (line: (Board, nat, bool) --> Step)
    ensures LineRule(line, n)
  {
    (b: Board, i: nat, progressed: bool) requires IsGrid(b, n) && i < n => PointingLine(b, n, a, i, progressed)
  }

  /** Rule 4 (a = Rows) or rule 5 (a = Cols) over lines i.. . */
  function PointingSingles(b: Board, n: nat, a: Axis, i: nat, progressed: bool): (st: Step)
    requires IsGrid(b, n) && i <= n
    ensures IsGrid(st.board, n)
  {
    Sweep(PointingLines(n, a), b, n, i, progressed)
  }

  /** Rule 4 or 5 on one line only fills blanks, and reports progress exactly when it wrote. */
  lemma PointingLineAdvances(b: Board, n: nat, a: Axis, i: nat, progressed: bool)
    requires IsGrid(b, n) && i < n
    ensures Advances(b, PointingLine(b, n, a, i, progressed), n, progressed)
  {
    if 2 <= CountZeros(Line(b, n, a, i)) <= 5 {
      PassAdvances(PointingSpots(n, a, i, Line(b, n, a, i)), b, n, 0, 0, |MissingList(Line(b, n, a, i), n)|, progressed);
    }
  }

  /** Rules 4 and 5 only fill blanks, and report progress exactly when they wrote. */
  lemma PointingSinglesAdvances(b: Board, n: nat, a: Axis, i: nat, progressed: bool)
    requires IsGrid(b, n) && i <= n
    ensures Advances(b, PointingSingles(b, n, a, i, progressed), n, progressed)
  {
    var line := PointingLines(n, a);
    forall b', i': nat, progressed': bool | IsGrid(b', n) && i' < n
      ensures Advances(b', line(b', i', progressed'), n, progressed')
    {
      PointingLineAdvances(b', n, a, i', progressed');
    }
    SweepAdvances(line, b, n, i, progressed);
  }

  /** Rule 4 or 5 on one line writes only on that line, and only when it had
      two to five blanks. */
  lemma PointingLineLocal(b: Board, n: nat, a: Axis, i: nat, progressed: bool)
    requires IsGrid(b, n) && i < n
    ensures Within(b, PointingLine(b, n, a, i, progressed).board, n, a, i)
    ensures PointingLine(b, n, a, i, progressed).board != b ==> 2 <= CountZeros(Line(b, n, a, i)) <= 5
  {
    if 2 <= CountZeros(Line(b, n, a, i)) <= 5 {
      PassLocal(PointingSpots(n, a, i, Line(b, n, a, i)), b, n, 0, 0, |MissingList(Line(b, n, a, i), n)|, a, i, progressed);
    }
  }

  /** Rules 4 and 5 write only on lines that had two to five blanks when the
      sweep began. */
  lemma PointingSinglesGate(b: Board, n: nat, a: Axis, i: nat, progressed: bool)
    requires IsGrid(b, n) && i <= n
    ensures WritesIn(b, PointingSingles(b, n, a, i, progressed).board, n, a, i, 2, 5)
  {
    var line := PointingLines(n, a);
    forall b', i': nat, progressed': bool | IsGrid(b', n) && i' < n
      ensures Within(b', line(b', i', progressed').board, n, a, i') &&
              (line(b', i', progressed').board != b' ==> 2 <= CountZeros(Line(b', n, a, i')) <= 5)
    {
      PointingLineLocal(b', n, a, i', progressed');
    }
    SweepGate(line, b, n, a, i, 2, 5, progressed);
  }

  // ---------------------------------------------------------------------
  // Rule 6: a row with a single blank gets the number it misses, when that
  // number is in neither the blank's column nor its box. The number is
  // obtained by unpacking a set that must hold exactly one element; when it
  // does not, the source raises, and the cycle ends with None.
  // ---------------------------------------------------------------------

  /** When exactly one number is missing, the list of missing numbers holds it alone. */
  lemma MissingListSingle(unit: seq<int>, n: nat)
    requires |Missing(unit, n)| == 1
    ensures |MissingList(unit, n)| == 1 && Missing(unit, n) == {MissingList(unit, n)[0]}
  {
    MissingListSize(unit, n);
    MissingListMembers(unit, n);
    var v := MissingList(unit, n)[0];
    assert v in MissingList(unit, n);
    forall u | u in Missing(unit, n) ensures u == v {
      assert u in MissingList(unit, n);
    }
  }

  /** `missing_number, = set(nums) - set(row)` raises for this row. */
  predicate UnpackFails(row: seq<int>, n: nat)
  {
    CountZeros(row) == 1 && |Missing(row, n)| != 1
  }

  /** The decision for row i once the unpacking has succeeded: its single
      blank gets its single missing number, unless the blank's column or box
      already holds that number. */
  function RowSpot(b: Board, n: nat, k: nat, i: nat): (w: Option<Write>)
    requires IsGrid(b, n) && Geometry(n, k) && i < n && !UnpackFails(b[i], n)
    ensures w.Some? ==> Fills(b, n, w.value) && w.value.r == i
    ensures w.Some? ==> CountZeros(b[i]) == 1 && Missing(b[i], n) == {w.value.v}
    ensures w.Some? ==> w.value.v !in Column(b, n, w.value.c) && w.value.v !in BoxAround(b, n, k, i, w.value.c)
  {
    var row := b[i];
    if CountZeros(row) != 1 then None
    else
      MissingListSingle(row, n);
      var v := MissingList(row, n)[0];
      CountZerosBound(row);
      var c := IndexOf(row, 0);
      if v !in Column(b, n, c) && v !in BoxAround(b, n, k, i, c) then Some(Write(i, c, v)) else None
  }

  /** A rule 6 write puts a number that is in neither the cell's row, column
      nor box. */
  lemma RowSpotLegal(b: Board, n: nat, k: nat, i: nat)
    requires IsGrid(b, n) && Geometry(n, k) && i < n && !UnpackFails(b[i], n)
    ensures RowSpot(b, n, k, i).Some? ==> Legal(b, n, k, RowSpot(b, n, k, i).value)
  {
    if RowSpot(b, n, k, i).Some? {
      var w := RowSpot(b, n, k, i).value;
      assert w.v in Missing(b[i], n);
    }
  }

  /** Rule 6 fires on every row whose single blank can take the row's single
      missing number: it writes that number there. */
  lemma RowSpotFires(b: Board, n: nat, k: nat, i: nat, c: nat, v: int)
    requires IsGrid(b, n) && Geometry(n, k) && i < n && c < n
    ensures b[i][c] == 0 && CountZeros(b[i]) == 1 && Missing(b[i], n) == {v} &&
            v !in Column(b, n, c) && v !in BoxAround(b, n, k, i, c) ==>
              !UnpackFails(b[i], n) && RowSpot(b, n, k, i) == Some(Write(i, c, v))
  {
    if b[i][c] == 0 && CountZeros(b[i]) == 1 && Missing(b[i], n) == {v} {
      MissingListSingle(b[i], n);
      CountZerosBound(b[i]);
      SingleZero(b[i], c);
    }
  }

  /** A write on row i leaves the later rows as they were. */
  lemma RowFillRest(b: Board, b1: Board, n: nat, i: nat)
    requires IsGrid(b, n) && IsGrid(b1, n) && i < n
    requires Within(b, b1, n, Rows, i)
    ensures forall j :: i < j < n ==> b1[j] == b[j]
  {
    forall j | i < j < n ensures b1[j] == b[j] {
      LineUntouched(b, b1, n, Rows, i, j);
    }
  }

  /** Rule 6 over rows i.. . It fails exactly when one of these rows, which no
      earlier iteration touches, has a single blank but not exactly one
      missing number. */
  function RowFill(b: Board, n: nat, k: nat, i: nat, progressed: bool): (res: Option<Step>)
    requires IsGrid(b, n) && Geometry(n, k) && i <= n
    ensures res.Some? ==> IsGrid(res.value.board, n)
    decreases n - i
  {
    if i == n then Some(Step(b, progressed))
    else if UnpackFails(b[i], n) then None
    else
      match RowSpot(b, n, k, i)
      case None => RowFill(b, n, k, i + 1, progressed)
      case Some(w) => RowFill(Put(b, n, w), n, k, i + 1, true)
  }

  /** One row of rule 6, when the unpacking succeeds. */
  lemma RowFillNext(b: Board, n: nat, k: nat, i: nat, progressed: bool)
    requires IsGrid(b, n) && Geometry(n, k) && i < n && !UnpackFails(b[i], n)
    ensures RowFill(b, n, k, i, progressed) ==
              match RowSpot(b, n, k, i)
              case None => RowFill(b, n, k, i + 1, progressed)
              case Some(w) => RowFill(Put(b, n, w), n, k, i + 1, true)
  {
  }

  /** Rule 6 fails exactly when one of rows i.. , which no earlier iteration
      touches, has a single blank but not exactly one missing number; when it
      does not fail, it only fills blanks and reports progress exactly when it
      wrote. */
  lemma {:induction false} RowFillAdvances(b: Board, n: nat, k: nat, i: nat, progressed: bool)
    requires IsGrid(b, n) && Geometry(n, k) && i <= n
    ensures RowFill(b, n, k, i, progressed).None? <==> exists j :: i <= j < n && UnpackFails(b[j], n)
    ensures RowFill(b, n, k, i, progressed).Some? ==> Advances(b, RowFill(b, n, k, i, progressed).value, n, progressed)
    decreases n - i
  {
    if i < n && !UnpackFails(b[i], n) {
      RowFillNext(b, n, k, i, progressed);
      match RowSpot(b, n, k, i)
      case None =>
        RowFillAdvances(b, n, k, i + 1, progressed);
      case Some(w) =>
        var b1 := Put(b, n, w);
        RowFillAdvances(b1, n, k, i + 1, true);
        PutAdvances(b, n, w, progressed);
        PutWithin(b, n, w, Rows, i);
        RowFillRest(b, b1, n, i);
        var res := RowFill(b1, n, k, i + 1, true);
        if res.Some? {
          AdvancesChain(b, Step(b1, true), res.value, n, progressed);
        }
    }
  }

  /** Rule 6 writes only on rows that had exactly one blank when their turn came. */
  lemma {:induction false} RowFillGate(b: Board, n: nat, k: nat, i: nat, progressed: bool)
    requires IsGrid(b, n) && Geometry(n, k) && i <= n
    ensures var res := RowFill(b, n, k, i, progressed);
            res.Some? ==> WritesIn(b, res.value.board, n, Rows, i, 1, 1)
    decreases n - i
  {
    if i < n && !UnpackFails(b[i], n) {
      RowFillNext(b, n, k, i, progressed);
      match RowSpot(b, n, k, i)
      case None =>
        RowFillGate(b, n, k, i + 1, progressed);
        var res := RowFill(b, n, k, i + 1, progressed);
        if res.Some? {
          WritesCarry(b, b, res.value.board, n, Rows, i, 1, 1);
        }
      case Some(w) =>
        var b1 := Put(b, n, w);
        RowFillGate(b1, n, k, i + 1, true);
        PutWithin(b, n, w, Rows, i);
        var res := RowFill(b1, n, k, i + 1, true);
        if res.Some? {
          assert Line(b, n, Rows, i) == b[i];
          WritesCarry(b, b1, res.value.board, n, Rows, i, 1, 1);
        }
    }
  }

  // ---------------------------------------------------------------------
  // Rule 7: a blank cell with exactly one candidate (a number in neither its
  // row, its column nor its box) gets it. Cells are visited box by box, each
  // box row by row.
  // ---------------------------------------------------------------------

  /** When rule 6 ends on the board it started from, none of rows i.. makes
      it raise or write. */
  lemma {:induction false} RowFillFixed(b: Board, n: nat, k: nat, i: nat, progressed: bool)
    requires IsGrid(b, n) && Geometry(n, k) && i <= n
    ensures var res := RowFill(b, n, k, i, progressed);
            res.Some? && res.value.board == b ==>
              forall j :: i <= j < n ==> !UnpackFails(b[j], n) && RowSpot(b, n, k, j).None?
    decreases n - i
  {
    RowFillAdvances(b, n, k, i, progressed);
    if i < n && !UnpackFails(b[i], n) {
      RowFillNext(b, n, k, i, progressed);
      match RowSpot(b, n, k, i)
      case None =>
        RowFillFixed(b, n, k, i + 1, progressed);
      case Some(w) =>
        var res := RowFill(Put(b, n, w), n, k, i + 1, true);
        RowFillAdvances(Put(b, n, w), n, k, i + 1, true);
        if res.Some? {
          WriteSticks(b, n, w, res.value, true);
        }
    }
  }

  /** `list(set(nums) - used)` for `used` the union of three units, ascending. */
  function Unused(row: seq<int>, col: seq<int>, box: seq<int>, n: nat): seq<int>
  {
    Select(1, n + 1, v => v !in row && v !in col && v !in box)
  }

  /** `candidates` of cell (r, c), ascending. */
  function Candidates(b: Board, n: nat, k: nat, r: nat, c: nat): seq<int>
    requires IsGrid(b, n) && Geometry(n, k) && r < n && c < n
  {
    Unused(b[r], Column(b, n, c), BoxAround(b, n, k, r, c), n)
  }

  /** The candidates of a cell are exactly the numbers 1..n in none of its units. */
  lemma CandidatesMembers(b: Board, n: nat, k: nat, r: nat, c: nat)
    requires IsGrid(b, n) && Geometry(n, k) && r < n && c < n
    ensures forall v :: v in Candidates(b, n, k, r, c) <==>
              1 <= v <= n && v !in b[r] && v !in Column(b, n, c) && v !in BoxAround(b, n, k, r, c)
  {
    var row, col, box := b[r], Column(b, n, c), BoxAround(b, n, k, r, c);
    SelectMembers(1, n + 1, v => v !in row && v !in col && v !in box);
  }

  /** A single candidate lies in 1..n. */
  lemma SoleCandidateRange(b: Board, n: nat, k: nat, r: nat, c: nat)
    requires IsGrid(b, n) && Geometry(n, k) && r < n && c < n && |Candidates(b, n, k, r, c)| == 1
    ensures 1 <= Candidates(b, n, k, r, c)[0] <= n
  {
    CandidatesMembers(b, n, k, r, c);
    assert Candidates(b, n, k, r, c)[0] in Candidates(b, n, k, r, c);
  }

  /** The decision for cell t of box g: a blank with a single candidate gets it. */
  function SoleSpot(b: Board, n: nat, k: nat, g: nat, t: nat): (w: Option<Write>)
    requires IsGrid(b, n) && Geometry(n, k) && g < n && t < n
    ensures w.Some? ==> Fills(b, n, w.value) && Candidates(b, n, k, w.value.r, w.value.c) == [w.value.v]
    ensures w.Some? ==> w.value.r == SlotRow(k, g, t) && w.value.c == SlotCol(k, g, t)
  {
    var r, c := SlotRow(k, g, t), SlotCol(k, g, t);
    if b[r][c] == 0 && |Candidates(b, n, k, r, c)| == 1 then
      SoleCandidateRange(b, n, k, r, c);
      Some(Write(r, c, Candidates(b, n, k, r, c)[0]))
    else None
  }

  /** A rule 7 write puts a number that is in neither the cell's row, column
      nor box. */
  lemma SoleSpotLegal(b: Board, n: nat, k: nat, g: nat, t: nat)
    requires IsGrid(b, n) && Geometry(n, k) && g < n && t < n
    ensures SoleSpot(b, n, k, g, t).Some? ==> Legal(b, n, k, SoleSpot(b, n, k, g, t).value)
  {
    if SoleSpot(b, n, k, g, t).Some? {
      var w := SoleSpot(b, n, k, g, t).value;
      CandidatesMembers(b, n, k, w.r, w.c);
      assert w.v in Candidates(b, n, k, w.r, w.c);
    }
  }

  /** Rule 7 fires on every blank cell with a single candidate: scanning the
      cell's box, it reaches the cell at its slot and writes that candidate. */
  lemma SoleCellFires(b: Board, n: nat, k: nat, r: nat, c: nat)
    requires IsGrid(b, n) && Geometry(n, k) && r < n && c < n
    ensures b[r][c] == 0 && |Candidates(b, n, k, r, c)| == 1 ==>
              var g, t := BoxNumber(k, r, c), BoxSlot(k, r, c);
              g < n && t < n && SoleSpot(b, n, k, g, t) == Some(Write(r, c, Candidates(b, n, k, r, c)[0]))
  {
    BoxNumberOf(k, r, c);
  }

  /** Rule 7 on box g, from its cell t on. */
  function SoleBox(b: Board, n: nat, k: nat, g: nat, t: nat, progressed: bool): (st: Step)
    requires IsGrid(b, n) && Geometry(n, k) && g < n && t <= n
    ensures IsGrid(st.board, n)
    decreases n - t
  {
    if t == n then Step(b, progressed)
    else
      match SoleSpot(b, n, k, g, t)
      case None => SoleBox(b, n, k, g, t + 1, progressed)
      case Some(w) => SoleBox(Put(b, n, w), n, k, g, t + 1, true)
  }

  /** One cell of rule 7. */
  lemma SoleBoxNext(b: Board, n: nat, k: nat, g: nat, t: nat, progressed: bool)
    requires IsGrid(b, n) && Geometry(n, k) && g < n && t < n
    ensures SoleBox(b, n, k, g, t, progressed) ==
              match SoleSpot(b, n, k, g, t)
              case None => SoleBox(b, n, k, g, t + 1, progressed)
              case Some(w) => SoleBox(Put(b, n, w), n, k, g, t + 1, true)
  {
  }

  /** Rule 7 from box g on. */
  function SoleCandidates(b: Board, n: nat, k: nat, g: nat, progressed: bool): (st: Step)
    requires IsGrid(b, n) && Geometry(n, k) && g <= n
    ensures IsGrid(st.board, n)
    decreases n - g
  {
    if g == n then Step(b, progressed)
    else
      var st := SoleBox(b, n, k, g, 0, progressed);
      SoleCandidates(st.board, n, k, g + 1, st.progressed)
  }

  /** One box of rule 7. */
  lemma SoleCandidatesNext(b: Board, n: nat, k: nat, g: nat, progressed: bool)
    requires IsGrid(b, n) && Geometry(n, k) && g < n
    ensures var st := SoleBox(b, n, k, g, 0, progressed);
            SoleCandidates(b, n, k, g, progressed) == SoleCandidates(st.board, n, k, g + 1, st.progressed)
  {
  }

  /** Rule 7 on one box only fills blanks, and reports progress exactly when it wrote. */
  lemma {:induction false} SoleBoxAdvances(b: Board, n: nat, k: nat, g: nat, t: nat, progressed: bool)
    requires IsGrid(b, n) && Geometry(n, k) && g < n && t <= n
    ensures Advances(b, SoleBox(b, n, k, g, t, progressed), n, progressed)
    decreases n - t
  {
    if t < n {
      SoleBoxNext(b, n, k, g, t, progressed);
      match SoleSpot(b, n, k, g, t)
      case None =>
        SoleBoxAdvances(b, n, k, g, t + 1, progressed);
      case Some(w) =>
        SoleBoxAdvances(Put(b, n, w), n, k, g, t + 1, true);
        PutAdvances(b, n, w, progressed);
        AdvancesChain(b, Step(Put(b, n, w), true), SoleBox(Put(b, n, w), n, k, g, t + 1, true), n, progressed);
    }
  }

  /** Rule 7 only fills blanks, and reports progress exactly when it wrote. */
  lemma {:induction false} SoleCandidatesAdvances(b: Board, n: nat, k: nat, g: nat, progressed: bool)
    requires IsGrid(b, n) && Geometry(n, k) && g <= n
    ensures Advances(b, SoleCandidates(b, n, k, g, progressed), n, progressed)
    decreases n - g
  {
    if g < n {
      SoleCandidatesNext(b, n, k, g, progressed);
      var st := SoleBox(b, n, k, g, 0, progressed);
      SoleBoxAdvances(b, n, k, g, 0, progressed);
      SoleCandidatesAdvances(st.board, n, k, g + 1, st.progressed);
      AdvancesChain(b, st, SoleCandidates(st.board, n, k, g + 1, st.progressed), n, progressed);
    }
  }

  /** When rule 7 ends a box on the board it started from, no cell t.. of
      that box got a write. */
  lemma {:induction false} SoleBoxFixed(b: Board, n: nat, k: nat, g: nat, t: nat, progressed: bool)
    requires IsGrid(b, n) && Geometry(n, k) && g < n && t <= n
    ensures SoleBox(b, n, k, g, t, progressed).board == b ==>
              forall u :: t <= u < n ==> SoleSpot(b, n, k, g, u).None?
    decreases n - t
  {
    if t < n {
      SoleBoxNext(b, n, k, g, t, progressed);
      match SoleSpot(b, n, k, g, t)
      case None =>
        SoleBoxFixed(b, n, k, g, t + 1, progressed);
      case Some(w) =>
        SoleBoxAdvances(Put(b, n, w), n, k, g, t + 1, true);
        WriteSticks(b, n, w, SoleBox(Put(b, n, w), n, k, g, t + 1, true), true);
    }
  }

  /** When rule 7 ends on the board it started from, no cell of boxes g..
      got a write. */
  lemma {:induction false} SoleCandidatesFixed(b: Board, n: nat, k: nat, g: nat, progressed: bool)
    requires IsGrid(b, n) && Geometry(n, k) && g <= n
    ensures SoleCandidates(b, n, k, g, progressed).board == b ==>
              forall h, t :: g <= h < n && 0 <= t < n ==> SoleSpot(b, n, k, h, t).None?
    decreases n - g
  {
    if g < n {
      SoleCandidatesNext(b, n, k, g, progressed);
      var st := SoleBox(b, n, k, g, 0, progressed);
      SoleBoxAdvances(b, n, k, g, 0, progressed);
      SoleCandidatesAdvances(st.board, n, k, g + 1, st.progressed);
      if SoleCandidates(b, n, k, g, progressed).board == b {
        GrowsAntisymmetric(b, st.board, n);
        SoleBoxFixed(b, n, k, g, 0, progressed);
        SoleCandidatesFixed(b, n, k, g + 1, st.progressed);
      }
    }
  }

  // ---------------------------------------------------------------------
  // One cycle: the seven rules in order. Rule 1 reads the board as it was
  // when the cycle began.
  // ---------------------------------------------------------------------

  /** The body of the solver loop; None when rule 6 raises. */
  ghost function Cycle(b: Board, n: nat, k: nat): (res: Option<Step>)
    requires IsGrid(b, n) && Geometry(n, k)
    ensures res.Some? ==> IsGrid(res.value.board, n)
  {
    var s1 := BoxSingles(BoxPlan(b, n, k), b, n, 0, false);
    var s2 := HiddenSingles(s1.board, n, k, Rows, 0, s1.progressed);
    var s3 := HiddenSingles(s2.board, n, k, Cols, 0, s2.progressed);
    var s4 := PointingSingles(s3.board, n, Rows, 0, s3.progressed);
    var s5 := PointingSingles(s4.board, n, Cols, 0, s4.progressed);
    match RowFill(s5.board, n, k, 0, s5.progressed)
    case None => None
    case Some(s6) => Some(SoleCandidates(s6.board, n, k, 0, s6.progressed))
  }

  /** A cycle only fills blanks, with numbers 1..n, and reports progress
      exactly when the board changed. */
  lemma CycleAdvances(b: Board, n: nat, k: nat)
    requires IsGrid(b, n) && Geometry(n, k)
    ensures Cycle(b, n, k).Some? ==> Advances(b, Cycle(b, n, k).value, n, false)
  {
    var s1 := BoxSingles(BoxPlan(b, n, k), b, n, 0, false);
    BoxSinglesAdvances(BoxPlan(b, n, k), b, n, 0, false);
    var s2 := HiddenSingles(s1.board, n, k, Rows, 0, s1.progressed);
    HiddenSinglesAdvances(s1.board, n, k, Rows, 0, s1.progressed);
    AdvancesChain(b, s1, s2, n, false);
    var s3 := HiddenSingles(s2.board, n, k, Cols, 0, s2.progressed);
    HiddenSinglesAdvances(s2.board, n, k, Cols, 0, s2.progressed);
    AdvancesChain(b, s2, s3, n, false);
    var s4 := PointingSingles(s3.board, n, Rows, 0, s3.progressed);
    PointingSinglesAdvances(s3.board, n, Rows, 0, s3.progressed);
    AdvancesChain(b, s3, s4, n, false);
    var s5 := PointingSingles(s4.board, n, Cols, 0, s4.progressed);
    PointingSinglesAdvances(s4.board, n, Cols, 0, s4.progressed);
    AdvancesChain(b, s4, s5, n, false);
    RowFillAdvances(s5.board, n, k, 0, s5.progressed);
    match RowFill(s5.board, n, k, 0, s5.progressed)
    case None =>
    case Some(s6) =>
      AdvancesChain(b, s5, s6, n, false);
      SoleCandidatesAdvances(s6.board, n, k, 0, s6.progressed);
      AdvancesChain(b, s6, SoleCandidates(s6.board, n, k, 0, s6.progressed), n, false);
  }

  /** Every rule, run alone on a board the whole cycle leaves unchanged, leaves
      it unchanged too and reports no progress. */
  lemma CycleFixed(b: Board, n: nat, k: nat)
    requires IsGrid(b, n) && Geometry(n, k)
    ensures Cycle(b, n, k) == Some(Step(b, false)) ==>
              && BoxSingles(BoxPlan(b, n, k), b, n, 0, false) == Step(b, false)
              && HiddenSingles(b, n, k, Rows, 0, false) == Step(b, false)
              && HiddenSingles(b, n, k, Cols, 0, false) == Step(b, false)
              && PointingSingles(b, n, Rows, 0, false) == Step(b, false)
              && PointingSingles(b, n, Cols, 0, false) == Step(b, false)
              && RowFill(b, n, k, 0, false) == Some(Step(b, false))
              && SoleCandidates(b, n, k, 0, false) == Step(b, false)
  {
    var s1 := BoxSingles(BoxPlan(b, n, k), b, n, 0, false);
    BoxSinglesAdvances(BoxPlan(b, n, k), b, n, 0, false);
    var s2 := HiddenSingles(s1.board, n, k, Rows, 0, s1.progressed);
    HiddenSinglesAdvances(s1.board, n, k, Rows, 0, s1.progressed);
    var s3 := HiddenSingles(s2.board, n, k, Cols, 0, s2.progressed);
    HiddenSinglesAdvances(s2.board, n, k, Cols, 0, s2.progressed);
    var s4 := PointingSingles(s3.board, n, Rows, 0, s3.progressed);
    PointingSinglesAdvances(s3.board, n, Rows, 0, s3.progressed);
    var s5 := PointingSingles(s4.board, n, Cols, 0, s4.progressed);
    PointingSinglesAdvances(s4.board, n, Cols, 0, s4.progressed);
    RowFillAdvances(s5.board, n, k, 0, s5.progressed);
    match RowFill(s5.board, n, k, 0, s5.progressed)
    case None =>
    case Some(s6) =>
      var s7 := SoleCandidates(s6.board, n, k, 0, s6.progressed);
      SoleCandidatesAdvances(s6.board, n, k, 0, s6.progressed);
      if s7 == Step(b, false) {
        GrowsAntisymmetric(b, s1.board, n);
        GrowsAntisymmetric(s1.board, s2.board, n);
        GrowsAntisymmetric(s2.board, s3.board, n);
        GrowsAntisymmetric(s3.board, s4.board, n);
        GrowsAntisymmetric(s4.board, s5.board, n);
        GrowsAntisymmetric(s5.board, s6.board, n);
      }
  }

  /** What rules 1, 6 and 7 see on a board no rule changes: no box has a
      single blank; no row makes rule 6 raise, and a row with a single blank
      misses a number its blank's column or box already holds; no blank cell
      has a single candidate. */
  predicate Stuck(b: Board, n: nat, k: nat)
    requires IsGrid(b, n) && Geometry(n, k)
  {
    && (forall g :: 0 <= g < n ==> CountZeros(BoxNumbered(b, n, k, g)) != 1)
    && (forall i :: 0 <= i < n ==> !UnpackFails(b[i], n))
    && (forall i, c, v :: 0 <= i < n && 0 <= c < n && b[i][c] == 0 && CountZeros(b[i]) == 1 && v in Missing(b[i], n) ==>
          v in Column(b, n, c) || v in BoxAround(b, n, k, i, c))
    && (forall r, c :: 0 <= r < n && 0 <= c < n && b[r][c] == 0 ==> |Candidates(b, n, k, r, c)| != 1)
  }

  /** A board a whole cycle leaves unchanged is stuck. */
  lemma CycleStuck(b: Board, n: nat, k: nat)
    requires IsGrid(b, n) && Geometry(n, k)
    ensures Cycle(b, n, k) == Some(Step(b, false)) ==> Stuck(b, n, k)
  {
    if Cycle(b, n, k) == Some(Step(b, false)) {
      CycleFixed(b, n, k);
      BoxSinglesStuck(b, n, k);
      RowFillStuck(b, n, k);
      SoleCandidatesStuck(b, n, k);
    }
  }

  /** Rule 1 changing nothing means no box has a single blank. */
  lemma BoxSinglesStuck(b: Board, n: nat, k: nat)
    requires IsGrid(b, n) && Geometry(n, k)
    ensures BoxSingles(BoxPlan(b, n, k), b, n, 0, false).board == b ==>
              forall g :: 0 <= g < n ==> CountZeros(BoxNumbered(b, n, k, g)) != 1
  {
    var plan := BoxPlan(b, n, k);
    BoxSinglesFixed(plan, b, n, 0, false);
    BoxPlanFrom(b, n, k);
    forall g | 0 <= g < n && BoxSingles(plan, b, n, 0, false).board == b
      ensures CountZeros(BoxNumbered(b, n, k, g)) != 1
    {
      assert BoxSpot(plan, b, n, g).None?;
      assert plan[g] == BoxCandidate(b, n, k, g);
    }
  }

  /** Rule 6 changing nothing means no row raises and every row with a
      single blank is blocked by that blank's column or box. */
  lemma RowFillStuck(b: Board, n: nat, k: nat)
    requires IsGrid(b, n) && Geometry(n, k)
    ensures RowFill(b, n, k, 0, false) == Some(Step(b, false)) ==>
              && (forall i :: 0 <= i < n ==> !UnpackFails(b[i], n))
              && (forall i, c, v :: 0 <= i < n && 0 <= c < n && b[i][c] == 0 && CountZeros(b[i]) == 1 && v in Missing(b[i], n) ==>
                    v in Column(b, n, c) || v in BoxAround(b, n, k, i, c))
  {
    RowFillFixed(b, n, k, 0, false);
    forall i, c, v | 0 <= i < n && 0 <= c < n && b[i][c] == 0 && CountZeros(b[i]) == 1 && v in Missing(b[i], n) &&
                     RowFill(b, n, k, 0, false) == Some(Step(b, false))
      ensures v in Column(b, n, c) || v in BoxAround(b, n, k, i, c)
    {
      assert !UnpackFails(b[i], n) && RowSpot(b, n, k, i).None?;
      Singleton(Missing(b[i], n), v);
      RowSpotFires(b, n, k, i, c, v);
    }
  }

  /** Rule 7 changing nothing means no blank cell has a single candidate. */
  lemma SoleCandidatesStuck(b: Board, n: nat, k: nat)
    requires IsGrid(b, n) && Geometry(n, k)
    ensures SoleCandidates(b, n, k, 0, false).board == b ==>
              forall r, c :: 0 <= r < n && 0 <= c < n && b[r][c] == 0 ==> |Candidates(b, n, k, r, c)| != 1
  {
    SoleCandidatesFixed(b, n, k, 0, false);
    forall r, c | 0 <= r < n && 0 <= c < n && b[r][c] == 0 && SoleCandidates(b, n, k, 0, false).board == b
      ensures |Candidates(b, n, k, r, c)| != 1
    {
      SoleCellFires(b, n, k, r, c);
    }
  }
}
