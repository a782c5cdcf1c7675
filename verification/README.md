# Sudoku deduction engine, modelled in Dafny

This project models the deduction-only sudoku solver of `sudoku.py`. The solver works on an
N-by-N board, N a positive perfect square, with boxes of side k = √N. 0 stands for a blank cell.

The model covers:

- `solve_board`: seven placement rules, run in a fixed order on a board mutated in place,
  repeated until the board is solved or six cycles in a row place nothing;
- `issolved`;
- the symbol codec (`val_to_char`, `char_to_val`, `allowed_symbols`, `token_to_val`,
  `parse_row_input`, `is_perfect_square`);
- the line grouping of `load_sudokus`.

Modules, one per file:

- `Optional` (option.dfy): the `Option` result type.
- `Squares` (squares.dfy): integer square root, perfect squares, and the box arithmetic.
- `Seqs` (seqs.dfy): the list idioms the solver uses: `range`, filtered comprehensions,
  `count(0)`, `index(0)`, `sorted`, and an arbitrary element of a set.
- `Codec` (codec.dfy): the symbol codec and the two-mode row parser, including the `re.split`
  tokenizer.
- `Loader` (loader.dfy): `load_sudokus` on a file given as its sequence of lines. Each line is
  classified on its own (blank, comment, short, or a row), and a fold groups the classified lines
  into puzzles.
- `Grid` (grid.dfy): boards, rows, columns and boxes, and `issolved`. It also defines when a
  board grows into another (only blanks filled, with 1..N) and when it agrees with a solved
  board.
- `Rules` (rules.dfy): the seven rules as pure folds in the source's scan order. Each fold
  carries the live board, the snapshots the source reads, and the `progressed` flag. The
  snapshots are:
  - rule 1 reads a box plan built from the cycle-start board;
  - rule 2 reads the live row;
  - rules 3 and 5 read a per-column copy;
  - rule 4 reads the blank positions and missing numbers taken once per row.

  Rules 2/3 share one fold, and so do rules 4/5.
- `Engine` (engine.dfy): one cycle of the seven rules and the solver loop with its stall
  counter. The loop is a recursive function whose measure is (blanks, 5 − stall).
- `Soundness` (soundness.dfy): what the rules do on a puzzle whose givens agree with some solved
  board S. Every rule keeps the board agreeing with S, rule 6 never raises, and a solve that
  reports success has produced S.

Facts about the code that the model follows:

- Not every rule checks the row, column and box before writing. Rule 1 writes after checking
  only that the cell is blank (sudoku.py:144-145), and rules 4 and 5 check only the crossing
  column or row (sudoku.py:206, 225), never the box. Only rules 2, 3, 6 and 7 are proved
  locally legal.
- Not every rule reads the live board. Rule 1 reads the boxes copied at the start of the cycle
  (sudoku.py:129-134), rules 3 and 5 read a column copy (sudoku.py:175, 217), and rule 4 reads
  the blank positions and missing numbers listed once per row (sudoku.py:199-201).
- The loop can end in a third way besides solved and stalled. Rule 6's
  `missing_number, = set(nums) - set(row)` (sudoku.py:237) raises when a row with one blank
  misses more than one number. The model gives this as the outcome `Crashed`.
- Blank lines do not separate puzzles in the loader, although the docstring of `load_sudokus`
  (sudoku.py:67) says they do. A blank line closes a puzzle only when it already has `size`
  rows (sudoku.py:77-79), but the `size`-th accepted row closes it first (sudoku.py:92-94), so
  for size ≥ 1 that branch never applies. Blank lines and comments are skipped, and a puzzle is
  every `size` consecutive accepted lines (`Loader.BlankLineSkipped`, `Loader.Group`).
- Neither the loader nor `solve_board` checks that the givens are consistent (sudoku.py:81-94,
  101-124), and rules 1, 4 and 5 can write a number that its unit already holds. A number
  repeats in no row, column or box only on boards that agree with a solved board
  (`Grid.BelowConsistent` with `Soundness.SolveBoardSound`).

## Model

| member | source | states |
|---|---|---|
| Squares.Isqrt | sudoku.py:7 | `math.isqrt(n)` is the s with s² ≤ n < (s+1)² |
| Squares.IsqrtUnique | sudoku.py:7 | any s with s² ≤ n < (s+1)² is the integer root, so the root is unique |
| Squares.IsPerfectSquare | sudoku.py:6-8 | `is_perfect_square(n)` holds exactly when n is the square of some natural number |
| Codec.ValToChar | sudoku.py:10-16 | a value maps to ' ' exactly when 0, to a non-zero digit exactly when 1..9, and to an upper-case letter exactly when 10 or more |
| Codec.CharToVal | sudoku.py:18-27 | a character has a value exactly when it is ' ', '.' or ASCII alphanumeric; that value is in 0..35; it is 0 exactly for ' ', '0' and '.' |
| Codec.CharRoundTrip | sudoku.py:10-27 | `char_to_val(val_to_char(v)) == v` for every v in 0..35 |
| Codec.CharInverse | sudoku.py:10-27 | re-encoding a decoded character gives ' ' for blanks and the character's upper-case form otherwise |
| Codec.CaseInsensitive | sudoku.py:24-26 | a lower-case letter decodes like its upper-case form, to a value in 10..35 |
| Codec.AllowedSymbols | sudoku.py:29-37 | definition of `allowed_symbols`: '0', '.', the digits 1..min(size, 9), and the first size − 9 letters in both cases; see Codec.AllowedSymbolsExactly |
| Codec.AllowedSymbolsExactly | sudoku.py:29-38 | for size ≤ 35, the accepted symbols are exactly the non-space characters whose value lies in 0..size |
| Codec.Strip | sudoku.py:75 | the stripped string sits in the line with only whitespace before and after it, and it neither starts nor ends with whitespace; an all-whitespace line strips to "" |
| Codec.StripUnique | sudoku.py:75 | any slice of the line with only whitespace around it and none at its own ends is the stripped line, so the contract above leaves `str.strip()` one possible result |
| Codec.DecimalRoundTrip | sudoku.py:312-313 | `int(str(v)) == v` for every natural v |
| Codec.TokenToVal | sudoku.py:308-319 | an accepted token has a value in 0..size |
| Codec.SymbolToken | sudoku.py:308-319 | a one-character token is read as the same character is read in a fixed-width row, and refused when the value exceeds size |
| Codec.NumeralToken | sudoku.py:312-314 | the decimal numeral of any v ≤ size is read back as v |
| Codec.TokensFrom | sudoku.py:334 | every token is a non-empty run of ASCII letters and digits, so the empty pieces `re.split` leaves are dropped; see Codec.TokensAbsorbWord and Codec.TokensOfJoin |
| Codec.Tokens | sudoku.py:334 | the tokens of a whole line are non-empty runs of ASCII letters and digits; see Codec.TokensOfJoin |
| Codec.TokensOfJoin | sudoku.py:334 | splitting alphanumeric words joined by a non-alphanumeric separator gives the words back |
| Codec.DecodeSymbols | sudoku.py:326-332 | the fixed-width decoding, when it succeeds, has one value in 0..size per symbol |
| Codec.DecodeTokens | sudoku.py:337-343 | the token decoding, when it succeeds, has one value in 0..size per token |
| Codec.ParseRowInput | sudoku.py:321-343 | `parse_row_input` gives either None or exactly size values, each in 0..size |
| Codec.SymbolsAlwaysDecode | sudoku.py:321-332 | every symbol the fixed-width branch keeps decodes to its `char_to_val` value within 0..size, so that branch never returns None |
| Codec.ParseRenderedRow | sudoku.py:321-332 | a row written one symbol per cell parses back to the same row |
| Codec.ParseNumeralRow | sudoku.py:333-343 | a row of 2..35 values typed as numerals separated by spaces or dots parses back to the same row, through the token branch |
| Loader.ReadRow | sudoku.py:84-90 | each kept symbol becomes its `char_to_val` value, which lies in 0..size |
| Loader.Classify | sudoku.py:74-90 | a line counts as blank exactly when it is all whitespace, and an accepted line yields size values in 0..size |
| Loader.Classes | sudoku.py:74-90 | each line of the file is classified on its own, one kind per line; see Loader.FileClasses |
| Loader.Group | sudoku.py:74-96 | every puzzle the loop appends has exactly size rows of size values in 0..size |
| Loader.LoadFrom | sudoku.py:74-96 | every puzzle appended has exactly size rows of size values in 0..size |
| Loader.LoadSudokus | sudoku.py:69-99 | every puzzle returned has exactly size rows of size values in 0..size |
| Loader.BlankLineSkipped | sudoku.py:76-80 | a blank line in the middle of a puzzle is skipped, and the rows gathered so far are kept |
| Loader.ReadFileRow | sudoku.py:75-90 | a written row line is accepted, being neither blank, nor a comment, nor short of symbols, and reads back as exactly that row |
| Loader.ReadRowLine | sudoku.py:81-94 | a row line adds its row to the current puzzle, and closes the puzzle when that row was the size-th |
| Loader.ReadPuzzleRows | sudoku.py:81-94 | after j rows of a puzzle are gathered, the row lines of its other rows complete it and append exactly that puzzle |
| Loader.RowLinesClasses | sudoku.py:75-90 | every written row line is accepted as its own row |
| Loader.FileClasses | sudoku.py:74-90 | a written puzzles file classifies as each puzzle's row lines followed by one blank line |
| Loader.GroupFile | sudoku.py:74-96 | grouping the lines of a written file gives back exactly the puzzles written, in order |
| Loader.LoadFileLines | sudoku.py:69-99 | loading a file of puzzles, each followed by a blank line, gives back exactly those puzzles in order |
| Seqs.SortEqualsIff | sudoku.py:44 | `sorted(s) == target`, for a sorted target, holds exactly when s and target have the same multiset of elements |
| Grid.IsSolved | sudoku.py:40-60 | definition of `issolved`: every row, column and box sorts to 1..N; see Grid.SolvedIff and Grid.SolvedLatin |
| Grid.SolvedIff | sudoku.py:40-60 | `issolved` holds exactly when every row, every column and every box is a permutation of 1..N |
| Grid.SolvedLatin | sudoku.py:40-60 | on a solved board every cell holds 1..N, every row, column and box holds each of 1..N, and each cell is the only place of its number in its row, column and box |
| Grid.BelowConsistent | sudoku.py:124-288 | a board whose filled cells agree with a solved board repeats no number in any row, column or box |
| Grid.SolvedBelowIsSolution | sudoku.py:124 | a solved board whose filled cells agree with a solved board S is S |
| Rules.MissingNonEmpty | sudoku.py:139 | a box with a blank always misses a number, so `list(set(nums) - set(grid))[0]` exists |
| Rules.BoxCandidate | sudoku.py:137-143 | rule 1 proposes a write for a box exactly when the snapshot box has one blank; the write fills that blank with a number the box misses |
| Rules.BoxSingles | sudoku.py:137-147 | rule 1 as a fold over the boxes, keeping the board a grid; see Rules.BoxSinglesAdvances, Rules.BoxSinglesGate and Rules.BoxSinglesFixed |
| Rules.BoxSinglesAdvances | sudoku.py:137-147 | rule 1 fills only cells that are blank at write time, with 1..N, and raises `progressed` exactly when it wrote |
| Rules.BoxSinglesGate | sudoku.py:137-147 | every cell rule 1 changes lies in a box with exactly one blank in the cycle-start snapshot, and gets a number that box lacked there |
| Rules.BoxSinglesFixed | sudoku.py:137-147 | when rule 1 ends on the board it started from, no box it reached had a proposal whose cell was blank |
| Rules.PositionsMembers | sudoku.py:154-165 | `possible_positions` holds exactly the positions blank as read where the number is in neither the box nor the crossing line |
| Rules.HiddenSpot | sudoku.py:150-195 | a hidden single writes exactly when the number it examines is absent from the row or column as read, has exactly one possible position, and that cell is still blank; the write puts that number there |
| Rules.StaleAfterPut | sudoku.py:174-195 | after rule 3 writes number v, the column copy still differs from the live column only at cells that were blank in the copy and now hold numbers up to v |
| Rules.HiddenStepLegal | sudoku.py:150-195 | while the copy is stale only below v, a rule 2 or 3 write puts a number absent from the live row, column and box; afterwards the copy is stale only below v + 1 |
| Rules.HiddenLine | sudoku.py:150-195 | one line of rule 2 or 3, run only when the line has more than one blank, keeping the board a grid; see Rules.HiddenSpot and Rules.HiddenSinglesGate |
| Rules.HiddenSingles | sudoku.py:150-195 | rule 2 (rows) or rule 3 (columns) as a fold over the lines, keeping the board a grid; see Rules.HiddenSinglesAdvances and Soundness.HiddenSinglesSound |
| Rules.HiddenSinglesAdvances | sudoku.py:150-195 | rules 2 and 3 fill only blank cells, with 1..N, and raise `progressed` exactly when they wrote |
| Rules.HiddenSinglesGate | sudoku.py:150-195 | rules 2 and 3 write only on lines with at least two blanks when their turn came |
| Rules.BlankPositions | sudoku.py:199 | `zero_indices` has one entry per blank of the line |
| Rules.BlankPositionsMembers | sudoku.py:199 | a position is in `zero_indices` exactly when it is a blank of the line |
| Rules.MissingListMembers | sudoku.py:201 | `missing_numbers` lists exactly the numbers 1..N absent from the line, ascending |
| Rules.PointingSpot | sudoku.py:202-213 | a pointing single writes exactly when exactly one listed blank's crossing line lacks the number and that cell is still blank; the write puts the number there |
| Rules.PointingLine | sudoku.py:198-232 | one line of rule 4 or 5, run only when the line has two to five blanks, keeping the board a grid; see Rules.PointingSpot and Rules.PointingSinglesGate |
| Rules.PointingSingles | sudoku.py:198-232 | rule 4 (rows) or rule 5 (columns) as a fold over the lines, keeping the board a grid; see Rules.PointingSinglesAdvances and Soundness.PointingSinglesSound |
| Rules.PointingSinglesAdvances | sudoku.py:198-232 | rules 4 and 5 fill only blank cells, with 1..N, and raise `progressed` exactly when they wrote |
| Rules.PointingSinglesGate | sudoku.py:198-232 | rules 4 and 5 write only on lines with two to five blanks when their turn came |
| Rules.RowSpot | sudoku.py:235-248 | rule 6 writes into a row whose single blank it fills with the row's single missing number, and only when that number is absent from the column and the box |
| Rules.RowSpotLegal | sudoku.py:235-248 | a rule 6 write puts a number absent from the cell's row, column and box |
| Rules.RowSpotFires | sudoku.py:235-248 | conversely, whenever a row's single blank can take the row's single missing number, that number being in neither the blank's column nor its box, rule 6 writes it there |
| Rules.RowFill | sudoku.py:235-248 | rule 6 as a fold over the rows that either raises or keeps the board a grid; see Rules.RowFillAdvances and Rules.RowFillFixed |
| Rules.RowFillAdvances | sudoku.py:235-248 | rule 6 raises exactly when some row it reaches has one blank but not exactly one missing number; otherwise it fills only blanks, with 1..N, and raises `progressed` exactly when it wrote |
| Rules.RowFillGate | sudoku.py:235-248 | rule 6 writes only on rows that had exactly one blank when their turn came |
| Rules.RowFillFixed | sudoku.py:235-248 | when rule 6 ends on the board it started from, no row it reached raises or gets a write |
| Rules.CandidatesMembers | sudoku.py:255-267 | a cell's candidates are exactly the numbers 1..N absent from its row, its column and its box |
| Rules.SoleSpot | sudoku.py:255-272 | rule 7's visit to cell t of box g (row-major) writes only into that cell, only when it is blank with exactly one candidate, and writes that candidate |
| Rules.SoleSpotLegal | sudoku.py:251-272 | a rule 7 write puts a number absent from the cell's row, column and box |
| Rules.SoleCellFires | sudoku.py:251-272 | whenever a blank cell has exactly one candidate, rule 7's scan of the cell's box reaches it and writes that candidate |
| Rules.SoleCandidates | sudoku.py:251-272 | rule 7 as a fold over the boxes, keeping the board a grid; see Rules.SoleCandidatesAdvances and Rules.SoleCellFires |
| Rules.SoleCandidatesAdvances | sudoku.py:251-272 | rule 7 fills only blank cells, with 1..N, and raises `progressed` exactly when it wrote |
| Rules.SoleBoxFixed | sudoku.py:253-272 | when rule 7 ends a box on the board it started from, no cell of that box it reached got a write |
| Rules.SoleCandidatesFixed | sudoku.py:251-272 | when rule 7 ends on the board it started from, no cell of any box it reached got a write |
| Rules.Cycle | sudoku.py:126-272 | one pass of the `while` body, rules 1 to 7 in order, that either raises in rule 6 or keeps the board a grid; see Rules.CycleAdvances, Rules.CycleFixed and Rules.CycleStuck |
| Rules.CycleAdvances | sudoku.py:126-277 | a cycle that does not raise fills only blanks, with 1..N, and reports progress exactly when the board changed |
| Rules.CycleFixed | sudoku.py:126-272 | on a board a whole cycle leaves unchanged without progress, each of the seven rules run alone also leaves it unchanged without progress |
| Rules.BoxSinglesStuck | sudoku.py:128-147 | when rule 1 changes nothing, no box has exactly one blank |
| Rules.RowFillStuck | sudoku.py:234-248 | when rule 6 changes nothing, no row raises, and every row with one blank misses a number its blank's column or box already holds |
| Rules.SoleCandidatesStuck | sudoku.py:250-272 | when rule 7 changes nothing, no blank cell has exactly one candidate |
| Rules.CycleStuck | sudoku.py:126-277 | a board a whole cycle leaves unchanged has no box with one blank, no row whose single missing number fits its blank, and no blank cell with a single candidate |
| Engine.CycleShrinks | sudoku.py:274-277 | a cycle either reports no progress and leaves the board as it was, or reports progress and has fewer blanks |
| Engine.Run | sudoku.py:124-288 | the `while` loop always ends, since every cycle fills a blank or brings the stall count nearer its limit of six, and leaves a grid; see Engine.RunGrows, Engine.RunSolved and Engine.RunStops |
| Engine.RunGrows | sudoku.py:124-288 | the loop changes only blank cells, and only to 1..N |
| Engine.RunSolved | sudoku.py:124-125 | the cycle count only grows, and the loop reports Solved exactly when the final board is solved |
| Engine.RunStops | sudoku.py:274-288 | the loop stalls only on a board one more cycle would leave unchanged, and crashes only on a board whose cycle raises |
| Engine.StallRepeats | sudoku.py:274-288 | once a cycle changes nothing, the loop stops as stalled with that board after exactly the remaining 6 − stall cycles |
| Engine.StalledAfterSix | sudoku.py:274-288 | the loop stops as stalled only after six consecutive cycles without progress: at least 6 − stall further cycles run |
| Engine.CycleCount | sudoku.py:115-288 | the loop runs at most blanks + 6 cycles |
| Engine.BoxSide | sudoku.py:103 | the box side `isqrt(size)` of a perfect square size satisfies k · k = size |
| Engine.SolveBoard | sudoku.py:101-288 | `solve_board` only fills blanks; it reports Solved exactly when its board is solved; a solved input returns after 0 cycles unchanged; it runs at most blanks + 6 cycles |
| Engine.SolveBoardStops | sudoku.py:274-288 | `solve_board` gives up only on a board one more cycle would leave unchanged, and crashes only when the cycle starting from the reported board raises in rule 6 |
| Engine.SolveBoardStalls | sudoku.py:124-288 | when `solve_board` gives up, at least six cycles ran and the final board has no box with one blank, no row whose single missing number fits its blank, and no blank cell with a single candidate |
| Engine.SolveBoardKeepsGivens | sudoku.py:105 | cells `given_mask` marks keep their numbers; every changed cell is unmarked and holds 1..N; the number of blanks never grows |
| Soundness.BoxProposalSound | sudoku.py:137-147 | on a snapshot agreeing with solved S, a write rule 1 may propose is S's number |
| Soundness.BoxSinglesSound | sudoku.py:137-147 | rule 1 keeps a board agreeing with solved S |
| Soundness.HiddenSpotSound | sudoku.py:150-195 | on a board agreeing with solved S, a hidden single writes S's number, into a cell blank as read |
| Soundness.HiddenSinglesSound | sudoku.py:150-195 | rules 2 and 3 keep a board agreeing with solved S |
| Soundness.PointingSpotSound | sudoku.py:198-232 | on a board agreeing with solved S, a pointing single writes S's number, into a cell that was blank in the snapshot |
| Soundness.PointingSinglesSound | sudoku.py:198-232 | rules 4 and 5 keep a board agreeing with solved S |
| Soundness.NoUnpackFailure | sudoku.py:237 | on a board agreeing with solved S, no row makes rule 6's unpacking raise |
| Soundness.RowSpotSound | sudoku.py:235-248 | on a board agreeing with solved S, rule 6 writes S's number |
| Soundness.RowFillSound | sudoku.py:235-248 | on a board agreeing with solved S, rule 6 does not raise and keeps the board agreeing with S |
| Soundness.SoleSpotSound | sudoku.py:251-272 | on a board agreeing with solved S, rule 7 writes S's number |
| Soundness.SoleCandidatesSound | sudoku.py:251-272 | rule 7 keeps a board agreeing with solved S |
| Soundness.CycleSound | sudoku.py:128-272 | on a board agreeing with solved S, a cycle does not raise and keeps the board agreeing with S |
| Soundness.RuleCycleSound | sudoku.py:128-272 | the seven-rule cycle keeps every board that agrees with solved S agreeing with it |
| Soundness.RunSound | sudoku.py:124-288 | from a board agreeing with S, the loop never crashes, keeps agreeing with S, and reports Solved only with the board S |
| Soundness.SolveBoardSound | sudoku.py:101-288 | `solve_board` on a puzzle whose givens agree with a solved board S never raises, stays in agreement with S, and when it reports success its board is S |

## Left out

- The `exec`-built per-number matrices `board_{i}s` (sudoku.py:107-113 and the `exec` line after each write): they are written, never read, and do not affect the board.
- Console output: `percent_solved`, the progress colours, the cycle lines, the final rendering and the solved/unsolved messages. They only print.
- Elapsed time (`time.time()`) is left out because it is a clock.
- Opening the puzzles file and the `FileNotFoundError` message: the file is a parameter given as its sequence of lines, each with its line terminator.
- The interactive `__main__` loop is left out because it is user prompts and I/O around the functions above.
- Rules 1, 4 and 5 are not locally legal in the source, so the model has no legality lemma for them. Rule 1 checks neither the row nor the column; rules 4 and 5 do not check the box.
- Rules.BoxCandidate: the number rule 1 takes with `list(set(nums) - set(grid))[0]` is any number the box misses, not CPython's set iteration order. This matters only when the box already repeats a number, and it makes rule 1, `Cycle`, `Run` and `SolveBoard` ghost definitions.
- Engine.Run: a cycle that raises in rule 6 ends the run as `Crashed` and reports the board as it was when that cycle began. The in-place writes the first rules made before the exception are not part of the outcome.
- Codec.CharToVal: characters are classified by their ASCII behaviour. Unicode digits, letters and upper-casing beyond ASCII are not modelled.
- Codec.Strip: whitespace is the ASCII set `str.isspace` accepts; other Unicode whitespace is not modelled.
- Codec.TokensFrom: `re.split(r'[^A-Za-z0-9]+', s)` with the empty pieces dropped is modelled as the maximal runs of ASCII letters and digits, not through a regular-expression engine.
- Codec.ParseRowInput: sizes above 35, where letters would run past 'Z', are excluded by a precondition. The same bound applies to `val_to_char` (values up to 35, as sudoku.py:11 states), `allowed_symbols` and `load_sudokus`.
- Grid.BelowConsistent: a number is proved to repeat in no row, column or box only on boards that agree with a solved board. The source does not validate givens, and rules 1, 4 and 5 can create repeats on inconsistent input.
