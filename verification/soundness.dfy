/** What the rules do to a board that agrees with some solved board S on its
    filled cells: every number written is S's number for that cell, the tuple
    unpacking of rule 6 never raises, and a run that reports success ends on S. */
module Soundness {
  import opened Optional
  import opened Seqs
  import opened Squares
  import opened Grid
  import opened Rules
  import opened Engine

  /** The number S holds at a blank cell of b is in none of b's units through it. */
  lemma PeerValues(b: Board, S: Board, n: nat, k: nat, r: nat, c: nat)
    requires Geometry(n, k) && Below(b, S, n) && Latin(S, n, k) && r < n && c < n && b[r][c] == 0
    ensures S[r][c] !in b[r] && S[r][c] !in Column(b, n, c) && S[r][c] !in BoxAround(b, n, k, r, c)
  {
    var v := S[r][c];
    forall y | 0 <= y < n ensures b[r][y] != v {
      if b[r][y] == v {
        LatinRowOnce(S, n, k, r, y, c);
      }
    }
    forall x | 0 <= x < n ensures Column(b, n, c)[x] != v {
      if b[x][c] == v {
        LatinColumnOnce(S, n, k, x, r, c);
      }
    }
    forall x, y | 0 <= x < n && 0 <= y < n && SameBox(k, x, y, r, c) ensures b[x][y] != v {
      if b[x][y] == v {
        LatinBoxOnce(S, n, k, x, y, r, c);
      }
    }
    InBoxAround(b, n, k, r, c, v);
  }

  /** Some position of every line of S holds v. */
  lemma LineHas(S: Board, n: nat, k: nat, a: Axis, i: nat, v: int) returns (p: nat)
    requires IsGrid(S, n) && Geometry(n, k) && Latin(S, n, k) && i < n && 1 <= v <= n
    ensures p < n && S[RowOf(a, i, p)][ColOf(a, i, p)] == v
  {
    assert v in Line(S, n, a, i);
    var q :| 0 <= q < n && Line(S, n, a, i)[q] == v;
    p := q;
  }

  /** The number S holds at a blank cell is absent from the crossing line. */
  lemma CrossClear(b: Board, S: Board, n: nat, k: nat, a: Axis, i: nat, p: nat)
    requires Geometry(n, k) && Below(b, S, n) && Latin(S, n, k) && i < n && p < n
    requires b[RowOf(a, i, p)][ColOf(a, i, p)] == 0
    ensures Fits(b, n, k, a, i, p, S[RowOf(a, i, p)][ColOf(a, i, p)])
  {
    PeerValues(b, S, n, k, RowOf(a, i, p), ColOf(a, i, p));
  }

  /** Writing S's number into a cell keeps agreement with S. */
  lemma PutBelow(b: Board, S: Board, n: nat, w: Write)
    requires Below(b, S, n) && w.r < n && w.c < n && w.v == S[w.r][w.c]
    ensures Below(Put(b, n, w), S, n)
  {
  }

  // ----- rule 1 -----

  /** A sweep of a line rule that keeps every board agreeing with S in
      agreement keeps the board agreeing with S. */
  lemma {:induction false} SweepBelow(line: (Board, nat, bool) --> Step, b: Board, S: Board, n: nat, i: nat, progressed: bool)
    requires LineRule(line, n) && Below(b, S, n) && i <= n
    requires forall b', i': nat, progressed': bool :: Below(b', S, n) && i' < n ==> Below(line(b', i', progressed').board, S, n)
    ensures Below(Sweep(line, b, n, i, progressed).board, S, n)
    decreases n - i
  {
    if i < n {
      var st := line(b, i, progressed);
      SweepBelow(line, st.board, S, n, i + 1, st.progressed);
    }
  }

  /** Each decision of a pass keeps a board agreeing with S in agreement, and
      carries the invariant `inv` from one entry to the next. */
  ghost predicate StepsKeep(spot: (Board, nat) --> Option<Write>, inv: (Board, nat) -> bool, S: Board, n: nat, lo: nat, hi: nat)
    requires SpotRule(spot, n, lo, hi)
  {
    forall b, j: nat {:trigger spot(b, j)} :: Below(b, S, n) && lo <= j < hi && inv(b, j) ==>
      match spot(b, j)
      case None => inv(b, j + 1)
      case Some(w) => Below(Put(b, n, w), S, n) && inv(Put(b, n, w), j + 1)
  }

  /** A pass whose decisions keep agreement keeps the board agreeing with S. */
  lemma {:induction false} PassBelow(spot: (Board, nat) --> Option<Write>, inv: (Board, nat) -> bool, b: Board, S: Board, n: nat, lo: nat, j: nat, hi: nat, progressed: bool)
    requires SpotRule(spot, n, lo, hi) && StepsKeep(spot, inv, S, n, lo, hi)
    requires Below(b, S, n) && lo <= j <= hi && inv(b, j)
    ensures Below(Pass(spot, b, n, lo, j, hi, progressed).board, S, n)
    decreases hi - j
  {
    if j < hi {
      match spot(b, j)
      case None =>
        PassBelow(spot, inv, b, S, n, lo, j + 1, hi, progressed);
      case Some(w) =>
        PassBelow(spot, inv, Put(b, n, w), S, n, lo, j + 1, hi, true);
    }
  }

  /** A box with one blank, agreeing with S, misses exactly S's number for the blank. */
  lemma BoxMissingIsSolution(snap: Board, S: Board, n: nat, k: nat, r: nat, c: nat)
    requires Geometry(n, k) && Below(snap, S, n) && Latin(S, n, k) && r < n && c < n
    requires CountZeros(BoxAround(snap, n, k, r, c)) == 1 && snap[r][c] == 0
    ensures Missing(BoxAround(snap, n, k, r, c), n) == {S[r][c]}
  {
    PeerValues(snap, S, n, k, r, c);
    forall v | 1 <= v <= n && v != S[r][c] ensures v in BoxAround(snap, n, k, r, c) {
      BoxHasOthers(snap, S, n, k, r, c, v);
    }
  }

  /** In a box whose only blank is (r, c), every other number S places in that
      box is already filled in. */
  lemma BoxHasOthers(snap: Board, S: Board, n: nat, k: nat, r: nat, c: nat, v: int)
    requires Geometry(n, k) && Below(snap, S, n) && Latin(S, n, k) && r < n && c < n
    requires CountZeros(BoxAround(snap, n, k, r, c)) == 1 && snap[r][c] == 0
    requires 1 <= v <= n && v != S[r][c]
    ensures v in BoxAround(snap, n, k, r, c)
  {
    var box := BoxAround(snap, n, k, r, c);
    InBoxAround(S, n, k, r, c, v);
    var x, y :| 0 <= x < n && 0 <= y < n && SameBox(k, x, y, r, c) && S[x][y] == v;
    assert box == BoxAround(snap, n, k, x, y);
    CellAtSlot(snap, n, k, r, c);
    CellAtSlot(snap, n, k, x, y);
    var z, t := BoxSlot(k, r, c), BoxSlot(k, x, y);
    if t == z {
      SlotDetermines(k, x, y, r, c);
    }
    SingleZero(box, z);
    assert box[t] == v;
  }

  /** Every write rule 1 may propose on a snapshot agreeing with S writes S's number. */
  lemma BoxProposalSound(snap: Board, S: Board, n: nat, k: nat, w: Write)
    requires Geometry(n, k) && Below(snap, S, n) && Latin(S, n, k)
    requires BoxProposal(snap, n, k, w)
    ensures w.v == S[w.r][w.c]
  {
    BoxMissingIsSolution(snap, S, n, k, w.r, w.c);
  }

  /** Rule 1, walking a plan read off a snapshot that agrees with S, keeps the
      live board agreeing with S. */
  lemma {:induction false} BoxSinglesSound(snap: Board, plan: seq<Option<Write>>, b: Board, S: Board, n: nat, k: nat, g: nat, progressed: bool)
    requires IsGrid(snap, n) && IsGrid(b, n) && Geometry(n, k) && g <= |plan|
    requires PlanFits(plan, n) && PlanFrom(snap, n, k, plan)
    requires Below(snap, S, n) && Below(b, S, n) && Latin(S, n, k)
    ensures Below(BoxSingles(plan, b, n, g, progressed).board, S, n)
    decreases |plan| - g
  {
    if g < |plan| {
      BoxSinglesNext(plan, b, n, g, progressed);
      match BoxSpot(plan, b, n, g)
      case None =>
        BoxSinglesSound(snap, plan, b, S, n, k, g + 1, progressed);
      case Some(w) =>
        assert BoxProposal(snap, n, k, plan[g].value);
        BoxProposalSound(snap, S, n, k, w);
        PutBelow(b, S, n, w);
        BoxSinglesSound(snap, plan, Put(b, n, w), S, n, k, g + 1, true);
    }
  }

  // ----- rules 2 and 3 -----

  /** When v is not seen on the line, the position where S holds v is among
      the possible positions. */
  lemma HiddenTarget(b: Board, S: Board, n: nat, k: nat, a: Axis, i: nat, view: View, v: nat, p: nat)
    requires Geometry(n, k) && Below(b, S, n) && Latin(S, n, k) && i < n && 1 <= v <= n
    requires ViewOk(view, n) && Stale(b, n, a, i, view, v)
    requires v !in Seen(b, n, a, i, view)
    requires p < n && S[RowOf(a, i, p)][ColOf(a, i, p)] == v
    ensures p in Positions(b, n, k, a, i, Seen(b, n, a, i, view), v)
    ensures b[RowOf(a, i, p)][ColOf(a, i, p)] == 0 && Seen(b, n, a, i, view)[p] == 0
  {
    var live := Line(b, n, a, i);
    var seen := Seen(b, n, a, i, view);
    assert seen[p] in seen;
    assert live[p] == 0;
    CrossClear(b, S, n, k, a, i, p);
    PositionsMembers(b, n, k, a, i, seen, v);
  }

  /** A hidden single found on a board agreeing with S is S's number, and it
      goes where the view saw a blank. */
  lemma HiddenSpotSound(b: Board, S: Board, n: nat, k: nat, a: Axis, i: nat, view: View, v: nat)
    requires Geometry(n, k) && Below(b, S, n) && Latin(S, n, k) && i < n && 1 <= v <= n
    requires ViewOk(view, n) && Stale(b, n, a, i, view, v)
    ensures var w := HiddenSpot(b, n, k, a, i, view, v);
            w.Some? ==> w.value.v == S[w.value.r][w.value.c] &&
                        Seen(b, n, a, i, view)[LineOf(Cross(a), w.value.r, w.value.c)] == 0
  {
    var w := HiddenSpot(b, n, k, a, i, view, v);
    if w.Some? {
      var seen := Seen(b, n, a, i, view);
      var ps := Positions(b, n, k, a, i, seen, v);
      var p := LineHas(S, n, k, a, i, v);
      HiddenTarget(b, S, n, k, a, i, view, v, p);
      assert p == ps[0];
    }
  }

  /** One number of a hidden-single pass on a board agreeing with S: the
      write, if any, keeps agreement, and the copy stays stale only in numbers
      up to v. */
  lemma HiddenStepSound(b: Board, S: Board, n: nat, k: nat, a: Axis, i: nat, view: View, v: nat)
    requires Geometry(n, k) && Below(b, S, n) && Latin(S, n, k) && i < n && 1 <= v <= n
    requires ViewOk(view, n) && Stale(b, n, a, i, view, v)
    ensures match HiddenSpot(b, n, k, a, i, view, v)
            case None => Stale(b, n, a, i, view, v + 1)
            case Some(w) => Below(Put(b, n, w), S, n) && Stale(Put(b, n, w), n, a, i, view, v + 1)
  {
    HiddenSpotSound(b, S, n, k, a, i, view, v);
    match HiddenSpot(b, n, k, a, i, view, v)
    case None =>
    case Some(w) =>
      PutBelow(b, S, n, w);
      StaleAfterPut(b, n, a, i, view, v, w);
  }

  /** A hidden-single pass from number v, on a board agreeing with S whose
      copy is stale only below v, keeps the board agreeing with S. */
  lemma HiddenPassSound(b: Board, S: Board, n: nat, k: nat, a: Axis, i: nat, view: View, v: nat, progressed: bool)
    requires IsGrid(b, n) && Geometry(n, k) && i < n && 1 <= v <= n + 1 && ViewOk(view, n)
    requires Below(b, S, n) && Latin(S, n, k) && Stale(b, n, a, i, view, v)
    ensures Below(HiddenPass(b, n, k, a, i, view, v, progressed).board, S, n)
  {
    var spot := HiddenSpots(n, k, a, i, view);
    var inv := (b': Board, v': nat) => IsGrid(b', n) && i < n && Stale(b', n, a, i, view, v');
    forall b', v': nat {:trigger spot(b', v')} | Below(b', S, n) && 1 <= v' < n + 1 && inv(b', v')
      ensures match spot(b', v')
              case None => inv(b', v' + 1)
              case Some(w) => Below(Put(b', n, w), S, n) && inv(Put(b', n, w), v' + 1)
    {
      HiddenStepSound(b', S, n, k, a, i, view, v');
    }
    PassBelow(spot, inv, b, S, n, 1, v, n + 1, progressed);
  }

  /** Rule 2 or 3 on one line keeps the board agreeing with S. */
  lemma HiddenLineSound(b: Board, S: Board, n: nat, k: nat, a: Axis, i: nat, progressed: bool)
    requires IsGrid(b, n) && Geometry(n, k) && i < n
    requires Below(b, S, n) && Latin(S, n, k)
    ensures Below(HiddenLine(b, n, k, a, i, progressed).board, S, n)
  {
    if CountZeros(Line(b, n, a, i)) > 1 {
      HiddenPassSound(b, S, n, k, a, i, ViewFor(b, n, a, i), 1, progressed);
    }
  }

  /** Rule 2 or 3 over lines i.. keeps the board agreeing with S. */
  lemma HiddenSinglesSound(b: Board, S: Board, n: nat, k: nat, a: Axis, i: nat, progressed: bool)
    requires IsGrid(b, n) && Geometry(n, k) && i <= n
    requires Below(b, S, n) && Latin(S, n, k)
    ensures Below(HiddenSingles(b, n, k, a, i, progressed).board, S, n)
  {
    var line := HiddenLines(n, k, a);
    forall b', i': nat, progressed': bool | Below(b', S, n) && i' < n
      ensures Below(line(b', i', progressed').board, S, n)
    {
      HiddenLineSound(b', S, n, k, a, i', progressed');
    }
    SweepBelow(line, b, S, n, i, progressed);
  }

  // ----- rules 4 and 5 -----

  /** The live line differs from the copy taken before the pass only where the
      copy was blank and one of the numbers already handled was written. */
  predicate Handled(b: Board, n: nat, a: Axis, i: nat, line0: seq<int>, done: seq<int>)
    requires IsGrid(b, n) && i < n && |line0| == n
  {
    forall p :: 0 <= p < n && Line(b, n, a, i)[p] != line0[p] ==>
      line0[p] == 0 && Line(b, n, a, i)[p] in done
  }

  /** The position where S holds the m-th missing number is still blank, and
      is a candidate for that number. */
  lemma PointingTarget(b: Board, S: Board, n: nat, k: nat, a: Axis, i: nat, line0: seq<int>, m: nat, p: nat)
    requires Geometry(n, k) && Below(b, S, n) && Latin(S, n, k) && i < n && |line0| == n
    requires m < |MissingList(line0, n)|
    requires Handled(b, n, a, i, line0, MissingList(line0, n)[..m])
    requires p < n && S[RowOf(a, i, p)][ColOf(a, i, p)] == MissingList(line0, n)[m]
    ensures p in Clear(b, n, a, BlankPositions(line0), MissingList(line0, n)[m])
    ensures b[RowOf(a, i, p)][ColOf(a, i, p)] == 0 && line0[p] == 0
  {
    var missing := MissingList(line0, n);
    var v := missing[m];
    MissingListMembers(line0, n);
    assert v in missing;
    assert v !in missing[..m] by {
      forall q | 0 <= q < m ensures missing[..m][q] != v {
        assert missing[q] < missing[m];
      }
    }
    var live := Line(b, n, a, i);
    assert live[p] == 0;
    assert line0[p] == 0;
    CrossClear(b, S, n, k, a, i, p);
    BlankPositionsMembers(line0);
    ClearMembers(b, n, a, BlankPositions(line0), v);
  }

  /** A pointing single found on a board agreeing with S is S's number, and it
      goes where the line was blank when its pass began. */
  lemma PointingSpotSound(b: Board, S: Board, n: nat, k: nat, a: Axis, i: nat, line0: seq<int>, m: nat)
    requires Geometry(n, k) && Below(b, S, n) && Latin(S, n, k) && i < n && |line0| == n
    requires m < |MissingList(line0, n)|
    requires Handled(b, n, a, i, line0, MissingList(line0, n)[..m])
    ensures 1 <= MissingList(line0, n)[m] <= n
    ensures var w := PointingSpot(b, n, a, i, BlankPositions(line0), MissingList(line0, n)[m]);
            w.Some? ==> w.value.v == S[w.value.r][w.value.c] && line0[LineOf(Cross(a), w.value.r, w.value.c)] == 0
  {
    MissingListRange(line0, n, m);
    var v := MissingList(line0, n)[m];
    var w := PointingSpot(b, n, a, i, BlankPositions(line0), v);
    if w.Some? {
      var cs := Clear(b, n, a, BlankPositions(line0), v);
      var p := LineHas(S, n, k, a, i, v);
      PointingTarget(b, S, n, k, a, i, line0, m, p);
      assert p == cs[0];
    }
  }

  /** One missing number of a pointing pass on a board agreeing with S: the
      write, if any, keeps agreement, and the line differs from its copy
      only in the numbers handled so far. */
  lemma PointingStepSound(b: Board, S: Board, n: nat, k: nat, a: Axis, i: nat, line0: seq<int>, m: nat)
    requires Geometry(n, k) && Below(b, S, n) && Latin(S, n, k) && i < n && |line0| == n
    requires m < |MissingList(line0, n)|
    requires Handled(b, n, a, i, line0, MissingList(line0, n)[..m])
    ensures 1 <= MissingList(line0, n)[m] <= n
    ensures var missing := MissingList(line0, n);
            match PointingSpot(b, n, a, i, BlankPositions(line0), missing[m])
            case None => Handled(b, n, a, i, line0, missing[..m + 1])
            case Some(w) => Below(Put(b, n, w), S, n) && Handled(Put(b, n, w), n, a, i, line0, missing[..m + 1])
  {
    var missing := MissingList(line0, n);
    PointingSpotSound(b, S, n, k, a, i, line0, m);
    assert missing[..m + 1] == missing[..m] + [missing[m]];
    match PointingSpot(b, n, a, i, BlankPositions(line0), missing[m])
    case None =>
    case Some(w) =>
      PutBelow(b, S, n, w);
      var b1 := Put(b, n, w);
      forall p | 0 <= p < n && Line(b1, n, a, i)[p] != line0[p]
        ensures line0[p] == 0 && Line(b1, n, a, i)[p] in missing[..m + 1]
      {
        if Line(b1, n, a, i)[p] == Line(b, n, a, i)[p] {
          assert Line(b, n, a, i)[p] != line0[p];
        }
      }
  }

  /** A pointing pass from the m-th missing number, on a board that differs
      from `line0` only in the numbers before it, keeps the board agreeing
      with S. */
  lemma PointingPassSound(b: Board, S: Board, n: nat, k: nat, a: Axis, i: nat, line0: seq<int>, m: nat, progressed: bool)
    requires IsGrid(b, n) && Geometry(n, k) && i < n && |line0| == n && m <= |MissingList(line0, n)|
    requires Below(b, S, n) && Latin(S, n, k)
    requires Handled(b, n, a, i, line0, MissingList(line0, n)[..m])
    ensures Below(PointingPass(b, n, a, i, line0, m, progressed).board, S, n)
  {
    var missing := MissingList(line0, n);
    var spot := PointingSpots(n, a, i, line0);
    var inv := (b': Board, m': nat) => IsGrid(b', n) && i < n && |line0| == n && m' <= |missing| && Handled(b', n, a, i, line0, missing[..m']);
    forall b', m': nat {:trigger spot(b', m')} | Below(b', S, n) && 0 <= m' < |missing| && inv(b', m')
      ensures match spot(b', m')
              case None => inv(b', m' + 1)
              case Some(w) => Below(Put(b', n, w), S, n) && inv(Put(b', n, w), m' + 1)
    {
      PointingStepSound(b', S, n, k, a, i, line0, m');
    }
    PassBelow(spot, inv, b, S, n, 0, m, |missing|, progressed);
  }

  /** Rule 4 or 5 on one line keeps the board agreeing with S. */
  lemma PointingLineSound(b: Board, S: Board, n: nat, k: nat, a: Axis, i: nat, progressed: bool)
    requires IsGrid(b, n) && Geometry(n, k) && i < n
    requires Below(b, S, n) && Latin(S, n, k)
    ensures Below(PointingLine(b, n, a, i, progressed).board, S, n)
  {
    if 2 <= CountZeros(Line(b, n, a, i)) <= 5 {
      PointingPassSound(b, S, n, k, a, i, Line(b, n, a, i), 0, progressed);
    }
  }

  /** Rule 4 or 5 over lines i.. keeps the board agreeing with S. */
  lemma PointingSinglesSound(b: Board, S: Board, n: nat, k: nat, a: Axis, i: nat, progressed: bool)
    requires IsGrid(b, n) && Geometry(n, k) && i <= n
    requires Below(b, S, n) && Latin(S, n, k)
    ensures Below(PointingSingles(b, n, a, i, progressed).board, S, n)
  {
    var line := PointingLines(n, a);
    forall b', i': nat, progressed': bool | Below(b', S, n) && i' < n
      ensures Below(line(b', i', progressed').board, S, n)
    {
      PointingLineSound(b', S, n, k, a, i', progressed');
    }
    SweepBelow(line, b, S, n, i, progressed);
  }

  // ----- rule 6 -----

  /** A row with one blank, agreeing with S, misses exactly S's number for the blank. */
  lemma RowMissingIsSolution(b: Board, S: Board, n: nat, k: nat, r: nat, c: nat)
    requires Geometry(n, k) && Below(b, S, n) && Latin(S, n, k) && r < n && c < n
    requires CountZeros(b[r]) == 1 && b[r][c] == 0
    ensures Missing(b[r], n) == {S[r][c]}
  {
    SingleZero(b[r], c);
    PeerValues(b, S, n, k, r, c);
    forall v | 1 <= v <= n && v != S[r][c] ensures v in b[r] {
      assert v in S[r];
      var y :| 0 <= y < n && S[r][y] == v;
      assert b[r][y] == v;
    }
  }

  /** On a board agreeing with S, no row makes the unpacking raise. */
  lemma NoUnpackFailure(b: Board, S: Board, n: nat, k: nat)
    requires Geometry(n, k) && Below(b, S, n) && Latin(S, n, k)
    ensures forall j :: 0 <= j < n ==> !UnpackFails(b[j], n)
  {
    forall j | 0 <= j < n && CountZeros(b[j]) == 1 ensures |Missing(b[j], n)| == 1 {
      CountZerosBound(b[j]);
      var c := IndexOf(b[j], 0);
      RowMissingIsSolution(b, S, n, k, j, c);
    }
  }

  /** Rule 6's write on a board agreeing with S is S's number. */
  lemma RowSpotSound(b: Board, S: Board, n: nat, k: nat, i: nat)
    requires Geometry(n, k) && Below(b, S, n) && Latin(S, n, k) && i < n
    ensures !UnpackFails(b[i], n)
    ensures var w := RowSpot(b, n, k, i);
            w.Some? ==> w.value.v == S[w.value.r][w.value.c]
  {
    NoUnpackFailure(b, S, n, k);
    var w := RowSpot(b, n, k, i);
    if w.Some? {
      RowMissingIsSolution(b, S, n, k, i, w.value.c);
    }
  }

  /** Rule 6 on a board agreeing with S does not raise and keeps it agreeing with S. */
  lemma {:induction false} RowFillSound(b: Board, S: Board, n: nat, k: nat, i: nat, progressed: bool)
    requires IsGrid(b, n) && Geometry(n, k) && i <= n
    requires Below(b, S, n) && Latin(S, n, k)
    ensures RowFill(b, n, k, i, progressed).Some?
    ensures Below(RowFill(b, n, k, i, progressed).value.board, S, n)
    decreases n - i
  {
    if i < n {
      RowSpotSound(b, S, n, k, i);
      RowFillNext(b, n, k, i, progressed);
      match RowSpot(b, n, k, i)
      case None =>
        RowFillSound(b, S, n, k, i + 1, progressed);
      case Some(w) =>
        PutBelow(b, S, n, w);
        RowFillSound(Put(b, n, w), S, n, k, i + 1, true);
    }
  }

  // ----- rule 7 -----

  /** Rule 7's write on a board agreeing with S is S's number. */
  lemma SoleSpotSound(b: Board, S: Board, n: nat, k: nat, g: nat, t: nat)
    requires Geometry(n, k) && Below(b, S, n) && Latin(S, n, k) && g < n && t < n
    ensures var w := SoleSpot(b, n, k, g, t);
            w.Some? ==> w.value.v == S[w.value.r][w.value.c] && Below(Put(b, n, w.value), S, n)
  {
    var w := SoleSpot(b, n, k, g, t);
    if w.Some? {
      var r, c := w.value.r, w.value.c;
      PeerValues(b, S, n, k, r, c);
      CandidatesMembers(b, n, k, r, c);
      assert S[r][c] in Candidates(b, n, k, r, c);
      PutBelow(b, S, n, w.value);
    }
  }

  lemma {:induction false} SoleBoxSound(b: Board, S: Board, n: nat, k: nat, g: nat, t: nat, progressed: bool)
    requires IsGrid(b, n) && Geometry(n, k) && g < n && t <= n
    requires Below(b, S, n) && Latin(S, n, k)
    ensures Below(SoleBox(b, n, k, g, t, progressed).board, S, n)
    decreases n - t
  {
    if t < n {
      SoleBoxNext(b, n, k, g, t, progressed);
      SoleSpotSound(b, S, n, k, g, t);
      match SoleSpot(b, n, k, g, t)
      case None =>
        SoleBoxSound(b, S, n, k, g, t + 1, progressed);
      case Some(w) =>
        SoleBoxSound(Put(b, n, w), S, n, k, g, t + 1, true);
    }
  }

  lemma {:induction false} SoleCandidatesSound(b: Board, S: Board, n: nat, k: nat, g: nat, progressed: bool)
    requires IsGrid(b, n) && Geometry(n, k) && g <= n
    requires Below(b, S, n) && Latin(S, n, k)
    ensures Below(SoleCandidates(b, n, k, g, progressed).board, S, n)
    decreases n - g
  {
    if g < n {
      SoleCandidatesNext(b, n, k, g, progressed);
      var st := SoleBox(b, n, k, g, 0, progressed);
      SoleBoxSound(b, S, n, k, g, 0, progressed);
      SoleCandidatesSound(st.board, S, n, k, g + 1, st.progressed);
    }
  }

  // ----- the cycle and the loop -----

  /** A cycle on a board agreeing with S does not raise and keeps agreeing with S. */
  lemma CycleSound(b: Board, S: Board, n: nat, k: nat)
    requires IsGrid(b, n) && Geometry(n, k) && Below(b, S, n) && Latin(S, n, k)
    ensures Cycle(b, n, k).Some? && Below(Cycle(b, n, k).value.board, S, n)
  {
    var plan := BoxPlan(b, n, k);
    BoxPlanFrom(b, n, k);
    BoxSinglesSound(b, plan, b, S, n, k, 0, false);
    var s1 := BoxSingles(plan, b, n, 0, false);
    HiddenSinglesSound(s1.board, S, n, k, Rows, 0, s1.progressed);
    var s2 := HiddenSingles(s1.board, n, k, Rows, 0, s1.progressed);
    HiddenSinglesSound(s2.board, S, n, k, Cols, 0, s2.progressed);
    var s3 := HiddenSingles(s2.board, n, k, Cols, 0, s2.progressed);
    PointingSinglesSound(s3.board, S, n, k, Rows, 0, s3.progressed);
    var s4 := PointingSingles(s3.board, n, Rows, 0, s3.progressed);
    PointingSinglesSound(s4.board, S, n, k, Cols, 0, s4.progressed);
    var s5 := PointingSingles(s4.board, n, Cols, 0, s4.progressed);
    RowFillSound(s5.board, S, n, k, 0, s5.progressed);
    var s6 := RowFill(s5.board, n, k, 0, s5.progressed).value;
    SoleCandidatesSound(s6.board, S, n, k, 0, s6.progressed);
  }

  /** A cycle that, from every board agreeing with S, does not raise and keeps
      agreeing with S. */
  ghost predicate KeepsBelow(cycle: Board --> Option<Step>, S: Board, n: nat)
  {
    forall b :: Below(b, S, n) ==> cycle.requires(b) && cycle(b).Some? && Below(cycle(b).value.board, S, n)
  }

  /** The seven rules keep every board agreeing with a solved board S. */
  lemma RuleCycleSound(S: Board, n: nat, k: nat)
    requires IsGrid(S, n) && Geometry(n, k) && Latin(S, n, k)
    ensures KeepsBelow(RuleCycle(n, k), S, n)
  {
    forall b | Below(b, S, n)
      ensures RuleCycle(n, k).requires(b) && RuleCycle(n, k)(b).Some? && Below(RuleCycle(n, k)(b).value.board, S, n)
    {
      CycleSound(b, S, n, k);
    }
  }

  /** A run from a board agreeing with S, with a cycle that keeps agreement,
      never raises, keeps agreeing with S, and reports success only on S. */
  lemma {:induction false} RunSound(cycle: Board --> Option<Step>, b: Board, S: Board, n: nat, k: nat, cycles: nat, stall: nat)
    requires Geometry(n, k) && Cycles(cycle, n) && KeepsBelow(cycle, S, n)
    requires Below(b, S, n) && stall <= StallLimit
    ensures var o := Run(cycle, b, n, cycles, stall);
            && o.status != Crashed && Below(o.board, S, n)
            && (o.status == Solved ==> o.board == S)
    decreases Blanks(b), StallLimit - stall
  {
    if IsSolved(b, n) {
      SolvedBelowIsSolution(b, S, n, k);
    } else {
      RunNext(cycle, b, n, cycles, stall);
      CycleShrinks(cycle, b, n);
      var st := cycle(b).value;
      var stall' := if st.progressed then 0 else stall + 1;
      if stall' <= StallLimit {
        RunSound(cycle, st.board, S, n, k, cycles + 1, stall');
      }
    }
  }

  /** `solve_board` on a puzzle whose givens agree with a solved board S never
      raises, and when it reports success its board is S. */
  lemma SolveBoardSound(b: Board, S: Board, n: nat)
    requires 1 <= n && IsPerfectSquare(n) && IsGrid(b, n) && IsGrid(S, n)
    requires IsSolved(S, n) && Below(b, S, n)
    ensures var o := SolveBoard(b, n);
            && o.status != Crashed && Below(o.board, S, n)
            && (o.status == Solved ==> o.board == S)
  {
    var k := BoxSide(n);
    SolvedLatin(S, n, k);
    RuleCycleSound(S, n, k);
    RunSound(RuleCycle(n, k), b, S, n, k, 0, 0);
  }
}
