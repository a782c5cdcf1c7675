/** The solver loop of `solve_board`: cycles of the seven rules until the board
    is solved, a cycle raises, or six cycles in a row make no progress. The
    loop is stated for any cycle that keeps the contract `Cycles`; `SolveBoard`
    runs it with the seven rules. */
module Engine {
  import opened Optional
  import opened Squares
  import opened Grid
  import opened Rules

  datatype Status = Solved | Stalled | Crashed

  /** The board when the loop stops, the number of cycles started, and why it
      stopped. A crashed run reports the board as it was when the raising
      cycle began. */
  datatype Outcome = Outcome(board: Board, cycles: nat, status: Status)

  /** The loop gives up once more than this many cycles in a row made no progress. */
  const StallLimit: nat := 5

  /** What the loop relies on from one cycle on n-by-n boards: it applies to
      every board, and unless it raises (None) it only fills blanks, with
      numbers 1..n, reporting progress exactly when it changed the board. */
  ghost predicate Cycles(cycle: Board --> Option<Step>, n: nat)
  {
    forall b :: IsGrid(b, n) ==> cycle.requires(b) && (cycle(b).Some? ==> Advances(b, cycle(b).value, n, false))
  }

  /** A cycle that does not raise either leaves the board as it was and reports
      no progress, or fills at least one blank and reports progress. */
  lemma CycleShrinks(cycle: Board --> Option<Step>, b: Board, n: nat)
    requires IsGrid(b, n) && Cycles(cycle, n)
    ensures cycle(b).Some? ==>
              var st := cycle(b).value;
              IsGrid(st.board, n) && (st.progressed <==> st.board != b) &&
              (st.progressed ==> Blanks(st.board) < Blanks(b))
  {
    if cycle(b).Some? {
      GrowsBlanks(b, cycle(b).value.board, n);
    }
  }

  /** The loop from a board with `cycles` cycles done and `stall` consecutive
      cycles without progress. */
  ghost function Run(cycle: Board --> Option<Step>, b: Board, n: nat, cycles: nat, stall: nat): (o: Outcome)
    requires IsGrid(b, n) && Cycles(cycle, n) && stall <= StallLimit
    ensures IsGrid(o.board, n)
    decreases Blanks(b), StallLimit - stall
  {
    if IsSolved(b, n) then Outcome(b, cycles, Solved)
    else
      match cycle(b)
      case None => Outcome(b, cycles + 1, Crashed)
      case Some(st) =>
        CycleShrinks(cycle, b, n);
        var stall' := if st.progressed then 0 else stall + 1;
        if stall' > StallLimit then Outcome(st.board, cycles + 1, Stalled)
        else Run(cycle, st.board, n, cycles + 1, stall')
  }

  /** One turn of the loop on an unsolved board. */
  lemma RunNext(cycle: Board --> Option<Step>, b: Board, n: nat, cycles: nat, stall: nat)
    requires IsGrid(b, n) && Cycles(cycle, n) && stall <= StallLimit && !IsSolved(b, n)
    ensures cycle(b).Some? ==> IsGrid(cycle(b).value.board, n)
    ensures Run(cycle, b, n, cycles, stall) ==
              match cycle(b)
              case None => Outcome(b, cycles + 1, Crashed)
              case Some(st) =>
                var stall' := if st.progressed then 0 else stall + 1;
                if stall' > StallLimit then Outcome(st.board, cycles + 1, Stalled)
                else Run(cycle, st.board, n, cycles + 1, stall')
  {
    CycleShrinks(cycle, b, n);
  }

  /** The loop only fills blanks, with numbers 1..n. */
  lemma {:induction false} RunGrows(cycle: Board --> Option<Step>, b: Board, n: nat, cycles: nat, stall: nat)
    requires IsGrid(b, n) && Cycles(cycle, n) && stall <= StallLimit
    ensures Grows(b, Run(cycle, b, n, cycles, stall).board, n)
    decreases Blanks(b), StallLimit - stall
  {
    if !IsSolved(b, n) {
      RunNext(cycle, b, n, cycles, stall);
      CycleShrinks(cycle, b, n);
      match cycle(b)
      case None =>
      case Some(st) =>
        var stall' := if st.progressed then 0 else stall + 1;
        if stall' <= StallLimit {
          RunGrows(cycle, st.board, n, cycles + 1, stall');
          GrowsTrans(b, st.board, Run(cycle, st.board, n, cycles + 1, stall').board, n);
        }
    }
  }

  /** The loop counts every cycle it starts, and stops as solved exactly when
      the final board is solved. */
  lemma {:induction false} RunSolved(cycle: Board --> Option<Step>, b: Board, n: nat, cycles: nat, stall: nat)
    requires IsGrid(b, n) && Cycles(cycle, n) && stall <= StallLimit
    ensures var o := Run(cycle, b, n, cycles, stall);
            o.cycles >= cycles && (o.status == Solved <==> IsSolved(o.board, n))
    decreases Blanks(b), StallLimit - stall
  {
    if !IsSolved(b, n) {
      RunNext(cycle, b, n, cycles, stall);
      CycleShrinks(cycle, b, n);
      match cycle(b)
      case None =>
      case Some(st) =>
        var stall' := if st.progressed then 0 else stall + 1;
        if stall' <= StallLimit {
          RunSolved(cycle, st.board, n, cycles + 1, stall');
        }
    }
  }

  /** The loop stops as stalled only on a board the cycle leaves unchanged,
      and as crashed only on a board whose cycle raises. */
  lemma {:induction false} RunStops(cycle: Board --> Option<Step>, b: Board, n: nat, cycles: nat, stall: nat)
    requires IsGrid(b, n) && Cycles(cycle, n) && stall <= StallLimit
    ensures var o := Run(cycle, b, n, cycles, stall);
            && (o.status == Stalled ==> cycle(o.board) == Some(Step(o.board, false)))
            && (o.status == Crashed ==> cycle(o.board).None?)
    decreases Blanks(b), StallLimit - stall
  {
    if !IsSolved(b, n) {
      RunNext(cycle, b, n, cycles, stall);
      CycleShrinks(cycle, b, n);
      match cycle(b)
      case None =>
      case Some(st) =>
        var stall' := if st.progressed then 0 else stall + 1;
        if stall' <= StallLimit {
          RunStops(cycle, st.board, n, cycles + 1, stall');
        }
    }
  }

  /** Once a cycle leaves the board unchanged, every later cycle does the same:
      the loop runs out its remaining patience and stops with that board. */
  lemma {:induction false} StallRepeats(cycle: Board --> Option<Step>, b: Board, n: nat, cycles: nat, stall: nat)
    requires IsGrid(b, n) && Cycles(cycle, n) && stall <= StallLimit
    requires !IsSolved(b, n) && cycle(b) == Some(Step(b, false))
    ensures Run(cycle, b, n, cycles, stall) == Outcome(b, cycles + StallLimit + 1 - stall, Stalled)
    decreases StallLimit - stall
  {
    RunNext(cycle, b, n, cycles, stall);
    if stall < StallLimit {
      StallRepeats(cycle, b, n, cycles + 1, stall + 1);
    }
  }

  /** The loop stops as stalled only after six consecutive cycles without
      progress: counting the `stall` such cycles already behind it, at least
      StallLimit + 1 - stall more cycles run. */
  lemma {:induction false} StalledAfterSix(cycle: Board --> Option<Step>, b: Board, n: nat, cycles: nat, stall: nat)
    requires IsGrid(b, n) && Cycles(cycle, n) && stall <= StallLimit
    ensures var o := Run(cycle, b, n, cycles, stall);
            o.status == Stalled ==> o.cycles >= cycles + StallLimit + 1 - stall
    decreases Blanks(b), StallLimit - stall
  {
    if !IsSolved(b, n) {
      RunNext(cycle, b, n, cycles, stall);
      CycleShrinks(cycle, b, n);
      match cycle(b)
      case None =>
      case Some(st) =>
        var stall' := if st.progressed then 0 else stall + 1;
        if stall' <= StallLimit {
          StalledAfterSix(cycle, st.board, n, cycles + 1, stall');
        }
    }
  }

  /** Every cycle with progress fills a blank, and the first cycle without
      progress is followed only by such cycles, so the loop runs at most
      blanks + 6 cycles. */
  lemma {:induction false} CycleCount(cycle: Board --> Option<Step>, b: Board, n: nat, cycles: nat, stall: nat)
    requires IsGrid(b, n) && Cycles(cycle, n) && stall <= StallLimit
    requires stall > 0 ==> cycle(b) == Some(Step(b, false))
    ensures Run(cycle, b, n, cycles, stall).cycles <= cycles + Blanks(b) + StallLimit + 1 - stall
    decreases Blanks(b), StallLimit - stall
  {
    if !IsSolved(b, n) {
      RunNext(cycle, b, n, cycles, stall);
      CycleShrinks(cycle, b, n);
      match cycle(b)
      case None =>
      case Some(st) =>
        if st.progressed {
          CycleCount(cycle, st.board, n, cycles + 1, 0);
        } else if stall < StallLimit {
          CycleCount(cycle, b, n, cycles + 1, stall + 1);
        }
    }
  }

  /** The seven rules keep the loop's contract. */
  lemma RulesCycle(n: nat, k: nat)
    requires Geometry(n, k)
    ensures forall b :: IsGrid(b, n) ==> (Cycle(b, n, k).Some? ==> Advances(b, Cycle(b, n, k).value, n, false))
  {
    forall b | IsGrid(b, n) ensures Cycle(b, n, k).Some? ==> Advances(b, Cycle(b, n, k).value, n, false) {
      CycleAdvances(b, n, k);
    }
  }

  /** One cycle of the seven rules on n-by-n boards with boxes of side k. */
  ghost function RuleCycle(n: nat, k: nat): (cycle: Board --> Option<Step>)
    requires Geometry(n, k)
    ensures Cycles(cycle, n)
  {
    RulesCycle(n, k);
    b requires IsGrid(b, n) && Geometry(n, k) => Cycle(b, n, k)
  }

  /** The box side of an n-by-n board, n a positive perfect square. */
  function BoxSide(n: nat): (k: nat)
    requires 1 <= n && IsPerfectSquare(n)
    ensures Geometry(n, k)
  {
    var m: nat :| Square(m) == n;
    IsqrtOfSquare(m);
    Isqrt(n)
  }

  /** `solve_board` on a board of positive perfect-square side n. */
  ghost function SolveBoard(b: Board, n: nat): (o: Outcome)
    requires 1 <= n && IsPerfectSquare(n) && IsGrid(b, n)
    ensures Grows(b, o.board, n)
    ensures o.status == Solved <==> IsSolved(o.board, n)
    ensures IsSolved(b, n) ==> o == Outcome(b, 0, Solved)
    ensures o.cycles <= Blanks(b) + StallLimit + 1
  {
    var k := BoxSide(n);
    var cycle := RuleCycle(n, k);
    RunGrows(cycle, b, n, 0, 0);
    RunSolved(cycle, b, n, 0, 0);
    CycleCount(cycle, b, n, 0, 0);
    Run(cycle, b, n, 0, 0)
  }

  /** The cells `given_mask` marks keep their numbers through a solve, the
      cells it leaves unmarked are the only ones that may gain a number 1..n,
      and the filled-cell count never drops. */
  lemma SolveBoardKeepsGivens(b: Board, n: nat)
    requires 1 <= n && IsPerfectSquare(n) && IsGrid(b, n)
    ensures var o := SolveBoard(b, n);
            var mask := GivenMask(b, n);
            && (forall i, j :: 0 <= i < n && 0 <= j < n && mask[i][j] ==> o.board[i][j] == b[i][j])
            && (forall i, j :: 0 <= i < n && 0 <= j < n && o.board[i][j] != b[i][j] ==> !mask[i][j] && 1 <= o.board[i][j] <= n)
            && Blanks(o.board) <= Blanks(b)
  {
    GrowsBlanks(b, SolveBoard(b, n).board, n);
  }

  /** `solve_board` gives up only on a board one more cycle of the rules would
      leave unchanged, and crashes only on a board whose cycle raises. */
  lemma SolveBoardStops(b: Board, n: nat)
    requires 1 <= n && IsPerfectSquare(n) && IsGrid(b, n)
    ensures var o := SolveBoard(b, n);
            && (o.status == Stalled ==> Cycle(o.board, n, BoxSide(n)) == Some(Step(o.board, false)))
            && (o.status == Crashed ==> Cycle(o.board, n, BoxSide(n)).None?)
  {
    var k := BoxSide(n);
    RunStops(RuleCycle(n, k), b, n, 0, 0);
  }

  /** When `solve_board` gives up, at least six cycles ran and the final board
      is stuck: no box has a single blank, every row with a single blank is
      blocked by that blank's column or box, and no blank cell has a single
      candidate. */
  lemma SolveBoardStalls(b: Board, n: nat)
    requires 1 <= n && IsPerfectSquare(n) && IsGrid(b, n)
    ensures var o := SolveBoard(b, n);
            o.status == Stalled ==> o.cycles >= StallLimit + 1 && Stuck(o.board, n, BoxSide(n))
  {
    var k := BoxSide(n);
    RunStops(RuleCycle(n, k), b, n, 0, 0);
    StalledAfterSix(RuleCycle(n, k), b, n, 0, 0);
    CycleStuck(SolveBoard(b, n).board, n, k);
  }
}
