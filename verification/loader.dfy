/** The line grouping of `load_sudokus`: the file is a sequence of raw lines
    (each with its line terminator); a puzzle is `size` consecutive accepted
    lines, an accepted line being one with at least `size` accepted symbols. */
module Loader {
  import opened Optional
  import opened Codec

  type Row = seq<int>
  type Puzzle = seq<Row>

  predicate RowOk(row: Row, size: nat)
  {
    |row| == size && forall i :: 0 <= i < size ==> 0 <= row[i] <= size
  }

  predicate PuzzleOk(p: Puzzle, size: nat)
  {
    |p| == size && forall j :: 0 <= j < size ==> RowOk(p[j], size)
  }

  /** The values of a line's kept symbols; a symbol without a value would read as 0. */
  function ReadRow(symbols: string, size: nat): (row: Row)
    requires size <= 35
    requires forall i :: 0 <= i < |symbols| ==> symbols[i] in AllowedSymbols(size)
    ensures |row| == |symbols|
    ensures forall i :: 0 <= i < |row| ==> 0 <= row[i] <= size && Some(row[i]) == CharToVal(symbols[i])
  {
    forall i | 0 <= i < |symbols|
      ensures CharToVal(symbols[i]).Some? && CharToVal(symbols[i]).value <= size
    {
      AllowedSymbolsExactly(size, symbols[i]);
    }
    seq(|symbols|, i requires 0 <= i < |symbols| =>
      match CharToVal(symbols[i])
      case Some(v) => v
      case None => 0)
  }

  /** What the loop of `load_sudokus` makes of one raw line on its own: blank
      after stripping, a `#` comment, too few accepted symbols, or a row read
      from its first `size` accepted symbols. */
  datatype LineKind = Empty | Comment | Short | Accepted(row: Row)

  predicate KindsOk(kinds: seq<LineKind>, size: nat)
  {
    forall i :: 0 <= i < |kinds| && kinds[i].Accepted? ==> RowOk(kinds[i].row, size)
  }

  /** The per-line decision of `load_sudokus`; which of the skipped kinds a
      line has matters only for a blank line, which may close a puzzle. */
  function Classify(raw: string, size: nat): (kind: LineKind)
    requires size <= 35
    ensures kind.Accepted? ==> RowOk(kind.row, size)
    ensures kind == Empty <==> forall i :: 0 <= i < |raw| ==> IsSpace(raw[i])
  {
    var line := Strip(raw);
    if line == "" then Empty
    else if line[0] == '#' then Comment
    else
      var kept := FilterChars(raw, AllowedSymbols(size));
      if |kept| < size then Short else Accepted(ReadRow(kept[..size], size))
  }

  function Classes(lines: seq<string>, size: nat): (kinds: seq<LineKind>)
    requires size <= 35
    ensures |kinds| == |lines| && KindsOk(kinds, size)
  {
    seq(|lines|, i requires 0 <= i < |lines| => Classify(lines[i], size))
  }

  /** The grouping loop of `load_sudokus` over classified lines, with `current`
      the rows gathered so far for the puzzle being read: a row line adds its
      row and closes the puzzle at its size-th row, a blank line closes a
      puzzle that already has size rows, and the end of the file closes one
      too. */
  function Group(kinds: seq<LineKind>, size: nat, current: seq<Row>): (ps: seq<Puzzle>)
    requires KindsOk(kinds, size)
    requires forall j :: 0 <= j < |current| ==> RowOk(current[j], size)
    ensures forall q :: 0 <= q < |ps| ==> PuzzleOk(ps[q], size)
    decreases |kinds|
  {
    if |kinds| == 0 then
      if |current| == size then [current] else []
    else
      match kinds[0]
      case Empty =>
        if |current| == size then [current] + Group(kinds[1..], size, [])
        else Group(kinds[1..], size, current)
      case Comment => Group(kinds[1..], size, current)
      case Short => Group(kinds[1..], size, current)
      case Accepted(row) =>
        var cur := current + [row];
        if |cur| == size then [cur] + Group(kinds[1..], size, [])
        else Group(kinds[1..], size, cur)
  }

  /** The loop of `load_sudokus` from the given line on. */
  function LoadFrom(lines: seq<string>, size: nat, current: seq<Row>): (ps: seq<Puzzle>)
    requires size <= 35
    requires forall j :: 0 <= j < |current| ==> RowOk(current[j], size)
    ensures forall q :: 0 <= q < |ps| ==> PuzzleOk(ps[q], size)
  {
    Group(Classes(lines, size), size, current)
  }

  /** `load_sudokus` on an opened file. */
  function LoadSudokus(lines: seq<string>, size: nat): (ps: seq<Puzzle>)
    requires size <= 35
    ensures forall q :: 0 <= q < |ps| ==> PuzzleOk(ps[q], size)
  {
    LoadFrom(lines, size, [])
  }

  lemma ClassesConcat(a: seq<string>, b: seq<string>, size: nat)
    requires size <= 35
    ensures Classes(a + b, size) == Classes(a, size) + Classes(b, size)
  {
    var l, r := Classes(a + b, size), Classes(a, size) + Classes(b, size);
    forall i | 0 <= i < |l| ensures l[i] == r[i] {
      if i >= |a| {
        assert (a + b)[i] == b[i - |a|];
      }
    }
  }

  /** A blank line does not close an unfinished puzzle: it is skipped, and the
      rows gathered so far are completed by the lines that follow. */
  lemma BlankLineSkipped(line: string, rest: seq<string>, size: nat, current: seq<Row>)
    requires 1 <= size <= 35 && |current| < size
    requires forall j :: 0 <= j < |current| ==> RowOk(current[j], size)
    requires forall i :: 0 <= i < |line| ==> IsSpace(line[i])
    ensures LoadFrom([line] + rest, size, current) == LoadFrom(rest, size, current)
  {
    ClassesConcat([line], rest, size);
    var kinds := Classes([line] + rest, size);
    assert kinds[0] == Empty;
    assert kinds[1..] == Classes(rest, size);
  }

  /** A puzzle row as a file line: '.' for blank, otherwise the value's symbol. */
  function FileRow(row: Row): (s: string)
    requires forall i :: 0 <= i < |row| ==> 0 <= row[i] <= 35
    ensures |s| == |row|
  {
    seq(|row|, i requires 0 <= i < |row| => if row[i] == 0 then '.' else ValToChar(row[i]))
  }

  function RowLines(rows: seq<Row>): (lines: seq<string>)
    requires forall j :: 0 <= j < |rows| ==> forall i :: 0 <= i < |rows[j]| ==> 0 <= rows[j][i] <= 35
    ensures |lines| == |rows|
  {
    seq(|rows|, j requires 0 <= j < |rows| => FileRow(rows[j]) + "\n")
  }

  /** A puzzles file: each puzzle's rows, then a blank line. */
  function FileLines(ps: seq<Puzzle>, size: nat): seq<string>
    requires size <= 35
    requires forall q :: 0 <= q < |ps| ==> PuzzleOk(ps[q], size)
  {
    if |ps| == 0 then []
    else
      assert PuzzleOk(ps[0], size);
      RowLines(ps[0]) + ["\n"] + FileLines(ps[1..], size)
  }

  /** One row line is accepted and reads back as the row. */
  lemma ReadFileRow(row: Row, size: nat)
    requires 1 <= size <= 35 && RowOk(row, size)
    ensures Classify(FileRow(row) + "\n", size) == Accepted(row)
  {
    var s := FileRow(row);
    var syms := AllowedSymbols(size);
    forall i | 0 <= i < |s| ensures s[i] in syms && CharToVal(s[i]) == Some(row[i]) {
      AllowedSymbolsExactly(size, s[i]);
      if row[i] != 0 { CharRoundTrip(row[i]); }
    }
    AllowedSymbolsExactly(size, '#');
    AllowedSymbolsExactly(size, '\n');
    FilterAllKept(s, syms);
    FilterConcat(s, "\n", syms);
    assert FilterChars("\n", syms) == [];
    var kept := FilterChars(s + "\n", syms);
    assert kept == s && kept[..size] == s;
    StripKeepsHead(s + "\n");
    var line := Strip(s + "\n");
    assert line != "" && line[0] == s[0] != '#';
    assert ReadRow(s, size) == row;
  }

  /** A row line adds its row to the puzzle being read, and closes the puzzle
      when that was its last row. */
  lemma ReadRowLine(row: Row, rest: seq<string>, size: nat, current: seq<Row>)
    requires 1 <= size <= 35 && RowOk(row, size) && |current| < size
    requires forall j :: 0 <= j < |current| ==> RowOk(current[j], size)
    ensures LoadFrom([FileRow(row) + "\n"] + rest, size, current) ==
              if |current| + 1 == size then [current + [row]] + LoadFrom(rest, size, [])
              else LoadFrom(rest, size, current + [row])
  {
    var line := FileRow(row) + "\n";
    ReadFileRow(row, size);
    ClassesConcat([line], rest, size);
    assert Classes([line], size) == [Accepted(row)];
    assert Classes([line] + rest, size) == [Accepted(row)] + Classes(rest, size);
  }

  /** The classified lines of written rows: each one a row line. */
  function RowKinds(rows: seq<Row>): (kinds: seq<LineKind>)
    ensures |kinds| == |rows|
  {
    seq(|rows|, j requires 0 <= j < |rows| => Accepted(rows[j]))
  }

  /** The classified lines of a written puzzles file. */
  function FileKinds(ps: seq<Puzzle>): seq<LineKind>
  {
    if |ps| == 0 then [] else RowKinds(ps[0]) + [Empty] + FileKinds(ps[1..])
  }

  /** Every written row line is accepted as its row. */
  lemma RowLinesClasses(p: Puzzle, size: nat)
    requires 1 <= size <= 35 && PuzzleOk(p, size)
    ensures Classes(RowLines(p), size) == RowKinds(p)
  {
    forall j | 0 <= j < |p| ensures Classes(RowLines(p), size)[j] == Accepted(p[j]) {
      ReadFileRow(p[j], size);
    }
  }

  /** A written file classifies line by line as its puzzles' rows, each puzzle
      followed by a blank line. */
  lemma {:induction false} FileClasses(ps: seq<Puzzle>, size: nat)
    requires 1 <= size <= 35
    requires forall q :: 0 <= q < |ps| ==> PuzzleOk(ps[q], size)
    ensures Classes(FileLines(ps, size), size) == FileKinds(ps)
  {
    if |ps| > 0 {
      assert PuzzleOk(ps[0], size);
      var a, b, c := RowLines(ps[0]), ["\n"], FileLines(ps[1..], size);
      assert FileLines(ps, size) == a + b + c;
      RowLinesClasses(ps[0], size);
      ClassesConcat(a, b, size);
      ClassesConcat(a + b, c, size);
      assert Classes(b, size) == [Empty] by {
        assert Classes(b, size)[0] == Classify("\n", size);
      }
      FileClasses(ps[1..], size);
    }
  }

  /** The rows j.. of a puzzle, with rows ..j already gathered, complete the
      puzzle and append it. */
  lemma {:induction false} ReadPuzzleRows(p: Puzzle, j: nat, rest: seq<LineKind>, size: nat)
    requires 1 <= size <= 35 && PuzzleOk(p, size) && j < size && KindsOk(rest, size)
    ensures KindsOk(RowKinds(p[j..]) + rest, size)
    ensures Group(RowKinds(p[j..]) + rest, size, p[..j]) == [p] + Group(rest, size, [])
    decreases size - j
  {
    var kinds := RowKinds(p[j..]) + rest;
    assert kinds[0] == Accepted(p[j]);
    assert p[..j] + [p[j]] == p[..j + 1];
    if j + 1 == size {
      assert p[..j + 1] == p;
      assert kinds[1..] == rest;
    } else {
      assert kinds[1..] == RowKinds(p[j + 1..]) + rest;
      ReadPuzzleRows(p, j + 1, rest, size);
    }
  }

  /** Loading a written puzzles file gives back the puzzles written. */
  lemma {:induction false} LoadFileLines(ps: seq<Puzzle>, size: nat)
    requires 1 <= size <= 35
    requires forall q :: 0 <= q < |ps| ==> PuzzleOk(ps[q], size)
    ensures LoadSudokus(FileLines(ps, size), size) == ps
  {
    FileClasses(ps, size);
    GroupFile(ps, size);
  }

  /** Grouping the classified lines of a written file gives back its puzzles. */
  lemma {:induction false} GroupFile(ps: seq<Puzzle>, size: nat)
    requires 1 <= size <= 35
    requires forall q :: 0 <= q < |ps| ==> PuzzleOk(ps[q], size)
    ensures KindsOk(FileKinds(ps), size) && Group(FileKinds(ps), size, []) == ps
  {
    if |ps| > 0 {
      GroupFile(ps[1..], size);
      var rest := [Empty] + FileKinds(ps[1..]);
      assert FileKinds(ps) == RowKinds(ps[0][0..]) + rest by {
        assert ps[0][0..] == ps[0];
      }
      assert ps[0][..0] == [];
      ReadPuzzleRows(ps[0], 0, rest, size);
      assert rest[1..] == FileKinds(ps[1..]);
      assert ps == [ps[0]] + ps[1..];
    }
  }
}
