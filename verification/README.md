# solpoku: the Sudoku encoding layer, in Dafny

solpoku solves a Sudoku by handing an integer program to an optimisation
library. This project models the part of `SudokuProblem` that builds and
reads that program:

- the variable space: one 0/1 variable `v{r}{c}{n}` per triple
  (row, column, digit) in [1,9]^3;
- `_build_constraints`: the 324 equalities "sum of nine variables = 1" in
  four blocks of 81, in the order cells, columns, rows and 3x3 sectors;
- clue injection: `set_objective`, and the name lists of `input_sudoku` and
  of `from_csv`. Clues become a maximised sum over the named variables, never
  constraints;
- `_build_sudoku_matrix`: the solver's values read back into a 9x9 matrix.

The modules follow that structure:

- `Variables` (variables.dfy): triples, the f-string names, the
  character-by-character decoding of a name, and the dictionary of solpoku.py:35.
- `Decimal` (decimal.dfy): Python's `str()` of an integer and `int()` of one
  character.
- `Constraints` (constraints.dfy): the constraint list as a specification
  function, and the builder loops as methods proved against it. It also
  holds the exact-cover lemmas.
- `Grids` (grids.dfy): the 9x9 grid and what a solved Sudoku is.
- `Extraction` (extraction.dfy): the decoding loop as a fold over the
  variable names.
- `Clues` (clues.dfy): the objective and the clue name lists, both as
  written and as evidently intended.
- `Encoding` (encoding.dfy): what the program means. The feasible 0/1
  assignments are exactly the indicators of solved grids, decoding gives
  the grid back, and the clue objective is maximal exactly on solutions
  that keep the clues.
- `Solpoku` (solpoku.dfy): the class `SudokuProblem`, with its variables,
  constraints and objective as fields, and its methods.

The optimiser is not modelled. Its result is a parameter
`primal: string -> int`, the value of each variable by name. The order in
which the library lists the model's variables is not known either. It is
the parameter `order` of the constructor, and it may be any order that holds
each of the 729 variables once (`Permutes`).

## Model

| member | source | states |
|---|---|---|
| Variables.NameRoundTrip | solpoku.py:35 | The name of every triple in [1,9]^3 has four characters, 'v' and the three digits, and the decoding of solpoku.py:118 gives the triple back |
| Variables.ParseInverse | solpoku.py:117-120 | Every name the four-character match and `int()` accept is the name of the triple they return |
| Variables.VarNameMatches | solpoku.py:35 | An f-string `v{x}{y}{z}` names a model variable exactly when x, y and z all lie in [1,9], and then it decodes to (x, y, z) |
| Variables.NameInjective | solpoku.py:35 | Two triples of [1,9]^3 have the same name, or the same variable, exactly when they are equal |
| Variables.NameDetermines | solpoku.py:35 | A name of a triple in [1,9]^3 is the name of no other triple, in range or not |
| Variables.TripleIndex | solpoku.py:35 | Positions 0..728 of `it.product(range(1, 10), repeat=3)` and the triples of [1,9]^3 correspond one to one |
| Variables.VariableNamesDistinct | solpoku.py:35 | There are 729 names, pairwise distinct |
| Variables.ModelVariablesDistinct | solpoku.py:35 | There are 729 variables, pairwise distinct, carrying those names |
| Variables.VariableAt | solpoku.py:35 | Each triple's name and variable, with bounds 0 and 1, sit at the triple's position in the product order |
| Variables.ModelVariablesValid | solpoku.py:35 | Every variable is that of a triple in [1,9]^3, and its name is well formed |
| Variables.SpaceHasEveryTriple | solpoku.py:35 | The dictionary maps the name of every triple of [1,9]^3 to that triple's variable |
| Variables.SpaceKeys | solpoku.py:35 | The dictionary's keys are exactly the names that decode to a triple of [1,9]^3 |
| Variables.SpaceSize | solpoku.py:35 | The dictionary has 729 entries |
| Decimal.IntStringSingleDigit | solpoku.py:35 | `str(x)` is one character exactly when x is in [0,9]; that character is the digit, and `int()` reads it back |
| Decimal.DigitValue | solpoku.py:120 | `int()` of one character succeeds exactly on '0'..'9', and gives the value whose digit is that character |
| Constraints.BuildConstraints | solpoku.py:33-67 | The builder returns exactly the list of 324 constraints that `AllConstraints` specifies |
| Constraints.AppendCells | solpoku.py:38-44 | The cell loop appends the 81 cell constraints, in (r, c) order, each looking its nine variables up by name |
| Constraints.AppendColumns | solpoku.py:45-51 | The column loop extends them with the 81 column constraints, in (c, n) order |
| Constraints.AppendRows | solpoku.py:52-57 | The row loop extends them with the 81 row constraints, in (r, n) order |
| Constraints.AppendSectors | solpoku.py:58-66 | The sector loop completes the list with the 81 sector constraints, in (sector_r, sector_c, n) order; its lookups at `r + sector_r*3`, `c + sector_c*3` all hit a key of the dictionary |
| Constraints.CellSlotContents | solpoku.py:39-44 | The cell constraint of (r, c) is at position 9(r-1) + (c-1), in the first block |
| Constraints.ColumnSlotContents | solpoku.py:46-51 | The column constraint of (c, n) is at position 81 + 9(c-1) + (n-1), in the second block |
| Constraints.RowSlotContents | solpoku.py:52-57 | The row constraint of (r, n) is at position 162 + 9(r-1) + (n-1), in the third block |
| Constraints.SectorSlotContents | solpoku.py:59-66 | The sector constraint of (sector_r, sector_c, n) is at position 243 + 27 sector_r + 9 sector_c + (n-1), in the fourth block |
| Constraints.ConstraintShape | solpoku.py:39-66 | Every constraint has lb = ub = 1 and nine pairwise distinct terms, all of them model variables |
| Constraints.InCellTerms | solpoku.py:41 | A variable is summed by the cell constraint of (r, c) exactly when its triple lies in cell (r, c) |
| Constraints.InColumnTerms | solpoku.py:48 | A variable is summed by the column constraint of (c, n) exactly when its triple is digit n in column c |
| Constraints.InRowTerms | solpoku.py:54 | A variable is summed by the row constraint of (r, n) exactly when its triple is digit n in row r |
| Constraints.InSectorTerms | solpoku.py:63 | A variable is summed by the sector constraint of (sr, sc, n) exactly when its triple is digit n in a cell whose sector is ((r-1)/3, (c-1)/3) = (sr, sc), so the nine sectors partition the 81 cells |
| Constraints.CellFamily | solpoku.py:39-44 | Each triple is in exactly one cell constraint, the one at its cell's slot |
| Constraints.ColumnFamily | solpoku.py:46-51 | Each triple is in exactly one column constraint, the one at its (column, digit) slot |
| Constraints.RowFamily | solpoku.py:52-57 | Each triple is in exactly one row constraint, the one at its (row, digit) slot |
| Constraints.SectorFamily | solpoku.py:59-66 | Each triple is in exactly one sector constraint, the one at its (sector, digit) slot |
| Constraints.ExactCover | solpoku.py:39-66 | Constraint k sums a triple's variable exactly when k is one of that triple's four slots, one per family |
| Constraints.OccurrencesPrefix | solpoku.py:39-66 | The first m constraints hold a triple's variable once for each of its slots below m |
| Constraints.CoveredFourTimes | solpoku.py:39-66 | Every variable occurs in exactly four of the 324 constraints |
| Constraints.SumBounds | solpoku.py:43 | A sum of 0/1 terms lies between 0 and the number of terms. It is 0 exactly when every term is 0, and it is full exactly when every term is 1 |
| Constraints.SumIsOne | solpoku.py:43 | A sum of 0/1 terms is 1 exactly when one term is 1 and all the others are 0 |
| Clues.Selected | solpoku.py:79 | The objective's terms are exactly the listed variables whose names are in `varnames`, never more terms than variables |
| Clues.SelectedDistinct | solpoku.py:79 | Filtering a list of distinct variables gives distinct terms |
| Clues.SelectedCount | solpoku.py:79 | Over any listing of the 729 variables, there is one term per distinct listed name that names a variable, so names that match nothing add nothing |
| Clues.ObjectiveBound | solpoku.py:77-82 | The installed objective is maximised and has one term per distinct matching name. Under 0/1 values its value is at most that count, and reaches it exactly when every matching variable is 1 |
| Clues.ModelVariablesPermute | solpoku.py:35 | The product order is one admissible listing of the model's variables |
| Clues.ModelVariableShape | solpoku.py:35 | Every model variable is the 0/1 variable of its own well-formed name |
| Clues.NamedVariable | solpoku.py:35 | Every well-formed name names a model variable |
| Clues.TermIffListed | solpoku.py:79 | A triple's variable is an objective term exactly when its name is listed |
| Clues.Givens | solpoku.py:111 | `np.ndindex((9, 9))` visits the entries row by row, and (i, j) is visited at position 9i + j |
| Clues.InputSudokuNamesHas | solpoku.py:111 | The names listed as written are exactly `v{i+1}{i+2}{a[i,j]}` of the non-zero entries |
| Clues.GridClueNamesHas | solpoku.py:111 | The names listed with the intended column are exactly `v{i+1}{j+1}{a[i,j]}` of the non-zero entries |
| Clues.InputSudokuListed | solpoku.py:108-112 | As written, the name of (r, c, n) is listed exactly when c = r + 1 and digit n occurs somewhere in row r |
| Clues.InputSudokuListedRow | solpoku.py:111 | As written, a listed variable name is that of a digit of row r, placed in column r + 1 |
| Clues.InputSudokuRowListed | solpoku.py:111 | As written, every digit of row r is listed at column r + 1, whatever its own column |
| Clues.InputSudokuTerms | solpoku.py:108-112 | As written, the objective gets the variable of (r, c, n) exactly when c = r + 1 and n occurs in row r |
| Clues.InputSudokuListsEntry | solpoku.py:111 | As written, every non-zero entry is listed under its name, including entries whose name matches no variable |
| Clues.InputSudokuLastRowUnmatched | solpoku.py:111 | As written, a clue of row 9 is listed as `v910{n}`, a name of at least five characters that matches no variable |
| Clues.ColumnTenUnmatched | solpoku.py:111 | A name with row part 9 and column part 10 has at least five characters and names no variable |
| Clues.InputSudokuMisplacesClue | solpoku.py:111 | A single clue 5 at the top-left cell: as written the objective rewards 5 at row 1, column 2 and not at row 1, column 1, while the intended list rewards the top-left cell |
| Clues.InputGridListed | solpoku.py:108-112 | With the intended column, the name of (r, c, n) is listed exactly when the array holds n at (r, c) |
| Clues.InputGridListedCell | solpoku.py:111 | With the intended column, a listed variable name is that of the digit at its own cell |
| Clues.InputGridCellListed | solpoku.py:111 | With the intended column, every non-zero digit is listed at its own cell |
| Clues.InputGridTerms | solpoku.py:108-112 | With the intended column, the objective gets the variable of (r, c, n) exactly when the array holds n at (r, c) |
| Clues.VarNameIsName | solpoku.py:35 | `v{x}{y}{z}` is the name of a triple t of [1,9]^3 exactly when (x, y, z) is t |
| Clues.CsvAllNamesHas | solpoku.py:97-100 | The names from_csv lists are exactly those of the tokens of the rows present |
| Clues.CsvOutOfBounds | solpoku.py:99 | A token at a row or column index of 9 or more makes from_csv refuse the file |
| Clues.CsvNameIsName | solpoku.py:100 | For a token at (i, j), `v{i+1}{j+1}{token}` names the variable of t exactly when t's cell is (i+1, j+1) and the token is t's digit |
| Clues.CsvTerms | solpoku.py:92-102 | For a file from_csv accepts, the objective gets the variable of (r, c, n) exactly when row r has a c-th token and that token is the digit n |
| Clues.CsvListedCell | solpoku.py:97-100 | A listed variable name comes from the token at its own cell |
| Clues.CsvCellListed | solpoku.py:97-100 | A one-digit token at a cell lists that cell's variable |
| Clues.CsvZeroTokenMatchesNothing | solpoku.py:100 | A "0" token, a blank, yields a name such as `v110` that matches no variable |
| Clues.CsvAcceptsShortFile | solpoku.py:97-100 | As written, from_csv accepts a one-token file, listing `v115`, and an empty file; the intended 9x9 check refuses both |
| Clues.CheckedCsvTerms | solpoku.py:97-100 | With the intended check, an accepted file has nine rows of nine tokens, and the objective gets the variable of (r, c, n) exactly when the token at (r, c) is the digit n |
| Grids.Zero | solpoku.py:115 | `np.zeros((9, 9))`: a 9x9 grid of zeros |
| Grids.Write | solpoku.py:120 | Writing a cell changes that cell and no other |
| Extraction.Wrap | solpoku.py:120 | A numpy index in [-9, 9) lands in [0, 9), either itself or 9 more |
| Extraction.Step | solpoku.py:117-123 | One loop iteration keeps a 9x9 grid |
| Extraction.Extract | solpoku.py:114-124 | The decoding loop, when it does not raise, yields a 9x9 grid |
| Extraction.ExtractFails | solpoku.py:117-120 | Decoding raises exactly when some four-character name starting with 'v' has value 1 and a character `int()` rejects |
| Extraction.ExtractCells | solpoku.py:114-124 | A cell no variable writes stays 0, and a written cell holds the digit of one of the variables that write it |
| Extraction.ExtractAgreeingWriters | solpoku.py:114-124 | When every variable that writes a cell writes the same digit d, and one does, the cell holds d |
| Extraction.SkipsIdleNames | solpoku.py:117-123 | A name of any other shape, or one whose value is not 1, changes nothing |
| Extraction.ZeroIndexWraps | solpoku.py:120 | A row character '0' reads as index -1, which numpy takes as the last row: "v015" writes 5 at (8, 0) |
| Encoding.NameWrites | solpoku.py:117-120 | A model variable's name always decodes, and writes its digit at its own cell exactly when its value is 1 |
| Encoding.VariableNamesListModel | solpoku.py:35 | The product order lists every model name |
| Encoding.PermutedNames | solpoku.py:116 | The names of the variables in the library's order, whatever it is, list every model name and only those |
| Encoding.ModelNamesDecode | solpoku.py:116-120 | Decoding the model's own variables never raises, whatever their values |
| Encoding.ListedName | solpoku.py:116 | A listing of the model holds the name of every triple |
| Encoding.ListedTriple | solpoku.py:116 | Every name of such a listing is that of a triple in [1,9]^3 |
| Encoding.FeasibleBinary | solpoku.py:35 | In a feasible assignment every model variable is 0 or 1 |
| Encoding.FeasibleModelBinary | solpoku.py:35 | A feasible assignment is 0/1 on all 729 variables |
| Encoding.ExactlyOne | solpoku.py:39-66 | In a feasible assignment exactly one term of each constraint is 1 |
| Encoding.CellOnlyOne | solpoku.py:41 | When exactly one term of a cell constraint is 1, exactly one digit is chosen for that cell |
| Encoding.RowOnlyOne | solpoku.py:54 | When exactly one term of a row constraint is 1, exactly one column of that row has the digit |
| Encoding.ColumnOnlyOne | solpoku.py:48 | When exactly one term of a column constraint is 1, exactly one row of that column has the digit |
| Encoding.SectorOnlyOne | solpoku.py:63 | When exactly one term of a sector constraint is 1, exactly one cell of that sector has the digit |
| Encoding.CellUnique | solpoku.py:39-44 | A feasible assignment chooses exactly one digit for each cell |
| Encoding.RowUnique | solpoku.py:52-57 | A feasible assignment places each digit in exactly one column of each row |
| Encoding.ColumnUnique | solpoku.py:46-51 | A feasible assignment places each digit in exactly one row of each column |
| Encoding.SectorUnique | solpoku.py:59-66 | A feasible assignment places each digit in exactly one cell of each sector |
| Encoding.SectorAtMostOne | solpoku.py:59-66 | In a feasible assignment, two cells of one sector that both have digit n chosen are the same cell |
| Encoding.DecodedCell | solpoku.py:114-124 | When exactly one digit d is chosen for a cell, decoding writes d there |
| Encoding.FeasibleCell | solpoku.py:114-124 | Decoding a feasible assignment writes into each cell a digit in 1..9, the one whose variable is 1 |
| Encoding.FeasibleDecodes | solpoku.py:114-124 | A feasible assignment decodes, in any variable order, to a complete grid whose cells are exactly the digits it chooses |
| Encoding.DecodedRowsDistinct | solpoku.py:52-57 | The decoded grid repeats no digit in a row |
| Encoding.DecodedColumnsDistinct | solpoku.py:46-51 | The decoded grid repeats no digit in a column |
| Encoding.DecodedBoxPair | solpoku.py:59-66 | Two distinct cells of one box of the decoded grid hold different digits |
| Encoding.DecodedBoxesDistinct | solpoku.py:59-66 | The decoded grid repeats no digit in a box |
| Encoding.DecodedRowHas | solpoku.py:52-57 | The decoded grid has every digit in every row |
| Encoding.DecodedColumnHas | solpoku.py:46-51 | The decoded grid has every digit in every column |
| Encoding.DecodedBoxHas | solpoku.py:59-66 | The decoded grid has every digit in every box |
| Encoding.DecodedDigitsPresent | solpoku.py:39-66 | The decoded grid has every digit in every row, column and box |
| Encoding.FeasibleIsSolved | solpoku.py:114-124 | Any assignment satisfying the bounds and all 324 constraints decodes, in any variable order, to a solved grid, and it is that grid's indicator on the model's variables |
| Encoding.IndicatorOfName | solpoku.py:35 | The indicator of a grid sets a variable to 1 exactly when its cell holds its digit, and to 0 otherwise |
| Encoding.SolvedCellOne | solpoku.py:41 | Under the indicator of a complete grid exactly one digit of each cell is 1 |
| Encoding.SolvedRowOne | solpoku.py:54 | Under the indicator of a grid whose rows hold each digit once, exactly one column of each row has the digit |
| Encoding.SolvedColumnOne | solpoku.py:48 | Under the indicator of a grid whose columns hold each digit once, exactly one row of each column has the digit |
| Encoding.SolvedSectorOne | solpoku.py:63 | Under the indicator of a grid whose boxes hold each digit once, exactly one cell of each sector has the digit |
| Encoding.CellConstraintHolds | solpoku.py:39-44 | The cell constraint of (r, c) holds under the indicator of a complete grid |
| Encoding.ColumnConstraintHolds | solpoku.py:46-51 | The column constraint of (c, n) holds under the indicator of a grid whose column c holds n once |
| Encoding.RowConstraintHolds | solpoku.py:52-57 | The row constraint of (r, n) holds under the indicator of a grid whose row r holds n once |
| Encoding.SectorConstraintHolds | solpoku.py:59-66 | The sector constraint of (sr, sc, n) holds under the indicator of a grid whose box holds n once |
| Encoding.SlotOf | solpoku.py:39-66 | Every position of the list is the slot of a cell, column, row or sector constraint |
| Encoding.SolvedIsFeasible | solpoku.py:33-67 | The indicator of a solved grid satisfies every bound and all 324 constraints |
| Encoding.IndicatorCell | solpoku.py:114-124 | Decoding the indicator of a complete grid writes each cell's digit |
| Encoding.IndicatorRow | solpoku.py:114-124 | Decoding the indicator of a complete grid gives back each row |
| Encoding.ExtractIndicator | solpoku.py:114-124 | Decoding the indicator of a complete grid, in any variable order, gives back exactly that grid |
| Encoding.SumAgrees | solpoku.py:43 | Sums over terms on which two assignments agree are equal |
| Encoding.FeasibleOnModel | solpoku.py:33-67 | Feasibility depends only on the values of the 729 model variables |
| Encoding.FeasibleIffSolved | solpoku.py:33-67 | The feasible assignments are exactly those that agree with the indicator of some solved grid on the model's variables |
| Encoding.ListedKeepsClues | solpoku.py:111 | With the intended names, when every clue variable is 1 the decoded grid keeps every clue |
| Encoding.KeptCluesListed | solpoku.py:111 | With the intended names, when the decoded grid keeps every clue every clue variable is 1 |
| Encoding.CluesSteer | solpoku.py:77-82 | With the intended clue names, a feasible assignment scores at most the number of clue terms, and scores exactly that when and only when its decoded grid keeps every clue |
| Encoding.SolutionIsOptimal | solpoku.py:77-82 | A solution that keeps the clues is feasible and scores the full number of clue terms, so it is optimal |
| Solpoku.ExtractErrorSticks | solpoku.py:120 | Once `int()` has raised on a prefix of the variables, decoding the whole list raises the same error |
| Solpoku.ReadCsvNames | solpoku.py:94-100 | The loop over rows and tokens lists `v{i+1}{j+1}{token}` of every token, row after row, and fails at the first token beyond row 9 or column 9 |
| Solpoku.SudokuProblem.constructor | solpoku.py:69-73 | A new problem holds each of the 729 variables once and exactly the constraint list of `_build_constraints` |
| Solpoku.SudokuProblem.SetObjective | solpoku.py:77-82 | The objective is replaced, not accumulated, by the maximised sum of the listed variables; variables and constraints keep their values |
| Solpoku.SudokuProblem.InputSudoku | solpoku.py:108-112 | As written: an array that is not 9x9 is refused and the objective is left alone; otherwise the objective becomes that of the names `v{i+1}{i+2}{a[i,j]}` of the non-zero entries |
| Solpoku.SudokuProblem.InputGrid | solpoku.py:108-112 | The same with the intended names `v{i+1}{j+1}{a[i,j]}` |
| Solpoku.SudokuProblem.BuildSudokuMatrix | solpoku.py:114-124 | The matrix returned is a fresh 9x9 array equal to the grid the decoding loop computes over the variables in the library's order. The method raises exactly where that loop does, and it changes nothing in the model |
| Solpoku.SudokuProblem.FromCsv | solpoku.py:92-102 | The file is refused exactly when a token lies beyond row 9 or column 9. Otherwise the result is a new valid problem whose objective is that of the names from_csv lists |
| Solpoku.SudokuProblem.FromCheckedCsv | solpoku.py:92-102 | With the intended check, the file is refused exactly when it is not 9 rows of 9 tokens. Otherwise the result is a new valid problem whose objective is that of the names of its tokens |

## Left out

- `solve` and the call to the optimiser (solpoku.py:126-128), and the
  solver's status: the library is foreign code. Its result is the parameter
  `primal`, exact integers by name.
- Floating-point `primal` values and the solver's tolerance: the value test
  of solpoku.py:119 is modelled as exact equality with 1.
- The optimisation library's `Model`, `Variable`, `Constraint` and
  `Objective` objects are plain datatypes here. The order in which the model
  lists its variables is a constructor parameter, constrained only to hold
  each variable once. The objective of a fresh model is taken to be an empty
  maximised sum; the library's default objective is not part of this model.
- `__init__` with a given `model` (solpoku.py:74-75), `from_json` and
  `to_json` (solpoku.py:84-106): file and JSON I/O.
- The file opening and `csv.reader` parts of `from_csv`: the method takes
  the rows the reader yields, as sequences of strings.
- The `logging` calls, including the warning for skipped names
  (solpoku.py:123).
- The `__main__` demonstration block (solpoku.py:131 onwards): a fixed driver
  that only prints.
- gui.py: a Tkinter interface. It calls `set_objective_from_array`, which
  does not exist in solpoku.py.
- The matrix of `_build_sudoku_matrix` has dtype `uint8`. The model stores
  `int`, which agrees with it on the digits 0..9 the loop writes.
- `int()` of one character accepts only '0'..'9' here. Python also accepts
  other Unicode decimal digits, which no model variable name contains.
- Solpoku.SudokuProblem.InputSudoku: the array's entries are modelled as
  Python/numpy integers. A float array, which is what `np.zeros((9, 9))`
  gives by default, formats an entry 5 as `5.0`, so its names such as
  `v125.0` match no variable and every clue is dropped; the model does not
  capture that case.
- Solpoku.SudokuProblem.InputSudoku: takes the array as a sequence of rows,
  so a ragged or non-2-D numpy array is only represented as a sequence that
  fails the 9x9 shape check.

## Findings

| source | as written | input that shows it | evidently intended | confidence | as-written member | corrected member |
|---|---|---|---|---|---|---|
| solpoku.py:111 | the column part of each clue name is `i+2` | an array whose only clue is 5 at the top-left cell lists `v125`, rewarding 5 at row 1, column 2; a clue in row 9 gives `v910{n}`, which matches no variable | the column part is `j+1`, so each clue rewards its own cell | not executed | Clues.InputSudokuMisplacesClue | Clues.InputGridTerms |
| solpoku.py:99 | only `i < 9 and j < 9` is asserted | a file with the one token "5" is accepted and lists only `v115`; an empty file is accepted with no names | the message "csv is not 9x9" asks for nine rows of nine tokens | not executed | Clues.CsvAcceptsShortFile | Clues.CheckedCsvTerms, Solpoku.SudokuProblem.FromCheckedCsv |
