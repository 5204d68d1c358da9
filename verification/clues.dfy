/** Clue injection of solpoku.py: set_objective (a maximised sum over the
    model variables whose names are listed), and the name lists built by
    input_sudoku and from_csv. Clues are objective terms, never constraints. */
module Clues {
  import opened Wrappers
  import opened Decimal
  import opened Seqs
  import opened Variables
  import opened Constraints
  import opened Grids

  datatype Direction = Max | Min

  /** A linear objective: the sum of terms, every coefficient 1. */
  datatype Objective = Objective(terms: seq<Variable>, direction: Direction)

  /** Why an input was refused: the AssertionError of input_sudoku ("array
      is not 9x9") or of from_csv ("csv is not 9x9"). */
  datatype InputError = ArrayNotNineByNine | CsvNotNineByNine

  /** The generator of solpoku.py:79: the variables of vars, in their order,
      whose name is in varnames. */
  function Selected(vars: seq<Variable>, varnames: seq<string>): (r: seq<Variable>)
    ensures forall v :: v in r <==> v in vars && v.name in varnames
    ensures |r| <= |vars|
  {
    if vars == [] then []
    else (if vars[0].name in varnames then [vars[0]] else []) + Selected(vars[1..], varnames)
  }

  /** Objective(sum(...), direction="max"): what set_objective installs. */
  function MakeObjective(vars: seq<Variable>, varnames: seq<string>): Objective {
    Objective(Selected(vars, varnames), Max)
  }

  /** The value of the objective under the solver's values. */
  function ObjectiveValue(obj: Objective, primal: string -> int): int {
    Sum(obj.terms, primal)
  }

  /** Selecting from a sequence without repetitions gives one without repetitions. */
  lemma {:induction false} SelectedDistinct(vars: seq<Variable>, varnames: seq<string>)
    requires Distinct(vars)
    ensures Distinct(Selected(vars, varnames))
  {
    if vars != [] {
      var rest := vars[1..];
      assert Distinct(rest) by {
        forall i, j | 0 <= i < |rest| && 0 <= j < |rest| && i != j ensures rest[i] != rest[j] {
          assert rest[i] == vars[i + 1] && rest[j] == vars[j + 1];
        }
      }
      SelectedDistinct(rest, varnames);
      assert vars[0] !in rest by {
        forall i | 0 <= i < |rest| ensures rest[i] != vars[0] {
          assert rest[i] == vars[i + 1];
        }
      }
    }
  }

  /** Every model variable takes 0 or 1. */
  predicate ModelBinary(primal: string -> int) {
    Binary(ModelVariables(), primal)
  }

  /** vars holds each model variable once, in some order: the order in which
      the optimisation library lists the model's variables. */
  ghost predicate Permutes(vars: seq<Variable>) {
    Distinct(vars) && forall v :: v in vars <==> v in ModelVariables()
  }

  /** The order (r, c, n) is one such order. */
  lemma ModelVariablesPermute()
    ensures Permutes(ModelVariables())
  {
    ModelVariablesDistinct();
  }

  /** Every model variable is the 0/1 variable of its own, well-formed name. */
  lemma ModelVariableShape(v: Variable)
    requires v in ModelVariables()
    ensures v == Variable(v.name, 0, 1) && IsVariableName(v.name)
  {
    var m :| 0 <= m < 729 && ModelVariables()[m] == v;
    ModelVariablesValid(m);
  }

  /** Every well-formed name names a model variable. */
  lemma NamedVariable(s: string)
    requires IsVariableName(s)
    ensures Variable(s, 0, 1) in ModelVariables()
  {
    ParseInverse(s);
    VariableAt(Parse(s).value);
  }

  /** set_objective selects one term per distinct listed name that names a
      model variable. */
  lemma SelectedCount(vars: seq<Variable>, varnames: seq<string>)
    requires Permutes(vars)
    ensures |Selected(vars, varnames)| == |set s | s in varnames && IsVariableName(s)|
  {
    var terms := Selected(vars, varnames);
    SelectedDistinct(vars, varnames);
    var names := NamesOf(terms);
    forall k | 0 <= k < |terms| ensures terms[k] == Variable(names[k], 0, 1) && IsVariableName(names[k]) {
      ModelVariableShape(terms[k]);
    }
    assert Distinct(names);
    forall s | s in varnames && IsVariableName(s) ensures s in names {
      NamedVariable(s);
      var k :| 0 <= k < |terms| && terms[k] == Variable(s, 0, 1);
      assert names[k] == s;
    }
    assert (set s | s in names) == (set s | s in varnames && IsVariableName(s));
    DistinctCardinality(names);
  }

  /** The objective that set_objective(varnames) installs on the model, over
      its variables in whatever order they are listed, is
      maximised and has one term per distinct listed name that names a model
      variable (names that match no variable add nothing), so under any 0/1
      values it is at most that number, and it reaches that number exactly
      when every such variable is 1. */
  lemma ObjectiveBound(vars: seq<Variable>, varnames: seq<string>, primal: string -> int)
    requires Permutes(vars) && ModelBinary(primal)
    ensures var obj := MakeObjective(vars, varnames);
      && obj.direction == Max
      && |obj.terms| == |set s | s in varnames && IsVariableName(s)|
      && 0 <= ObjectiveValue(obj, primal) <= |obj.terms|
      && (ObjectiveValue(obj, primal) == |obj.terms| <==>
            forall s :: s in varnames && IsVariableName(s) ==> primal(s) == 1)
  {
    var terms := Selected(vars, varnames);
    SelectedCount(vars, varnames);
    assert Binary(terms, primal) by {
      forall k | 0 <= k < |terms| ensures primal(terms[k].name) == 0 || primal(terms[k].name) == 1 {
        assert terms[k] in ModelVariables();
      }
    }
    SumBounds(terms, primal);
    if Sum(terms, primal) == |terms| {
      forall s | s in varnames && IsVariableName(s) ensures primal(s) == 1 {
        NamedVariable(s);
        var k :| 0 <= k < |terms| && terms[k] == Variable(s, 0, 1);
      }
    }
    if forall s :: s in varnames && IsVariableName(s) ==> primal(s) == 1 {
      forall k | 0 <= k < |terms| ensures primal(terms[k].name) == 1 {
        ModelVariableShape(terms[k]);
      }
    }
  }

  /** One entry of the input array: row i, column j (0-based) and its value. */
  datatype Given = Given(i: int, j: int, value: int)

  /** The entries of a 9x9 array in np.ndindex order (row by row). */
  function Givens(a: Grid): (gs: seq<Given>)
    requires IsGrid(a)
    ensures |gs| == 81
    ensures forall i, j :: InGrid(i, j) ==> gs[9 * i + j] == Given(i, j, a[i][j])
  {
    var gs := seq(81, k requires 0 <= k < 81 => Given(k / 9, k % 9, a[k / 9][k % 9]));
    assert forall i, j :: InGrid(i, j) ==> gs[9 * i + j] == Given(i, j, a[i][j]) by {
      forall i, j | InGrid(i, j) ensures gs[9 * i + j] == Given(i, j, a[i][j]) {
        DivNine(i, j);
      }
    }
    gs
  }

  /** The name the comprehension of solpoku.py:111 builds for an entry, as
      written: v{i+1}{i+2}{value}; the column part is i+2, not j+1. */
  function InputSudokuName(g: Given): string {
    VarName(g.i + 1, g.i + 2, g.value)
  }

  /** The evidently intended name of an entry: v{i+1}{j+1}{value}. */
  function GridClueName(g: Given): string {
    VarName(g.i + 1, g.j + 1, g.value)
  }

  /** The list comprehension of solpoku.py:111 as written: one name per non-zero entry. */
  function InputSudokuNames(gs: seq<Given>): seq<string> {
    if gs == [] then []
    else (if gs[0].value != 0 then [InputSudokuName(gs[0])] else []) + InputSudokuNames(gs[1..])
  }

  /** The same comprehension with the intended column. */
  function GridClueNames(gs: seq<Given>): seq<string> {
    if gs == [] then []
    else (if gs[0].value != 0 then [GridClueName(gs[0])] else []) + GridClueNames(gs[1..])
  }

  /** The names listed as written are those of the non-zero entries. */
  lemma {:induction false} InputSudokuNamesHas(gs: seq<Given>, s: string)
    ensures s in InputSudokuNames(gs) <==>
      exists k :: 0 <= k < |gs| && gs[k].value != 0 && s == InputSudokuName(gs[k])
  {
    if gs != [] {
      InputSudokuNamesHas(gs[1..], s);
      assert forall k :: 1 <= k < |gs| ==> gs[k] == gs[1..][k - 1];
      if s in InputSudokuNames(gs[1..]) {
        var k :| 0 <= k < |gs[1..]| && gs[1..][k].value != 0 && s == InputSudokuName(gs[1..][k]);
        assert gs[k + 1] == gs[1..][k];
      }
    }
  }

  /** The intended names are those of the non-zero entries. */
  lemma {:induction false} GridClueNamesHas(gs: seq<Given>, s: string)
    ensures s in GridClueNames(gs) <==>
      exists k :: 0 <= k < |gs| && gs[k].value != 0 && s == GridClueName(gs[k])
  {
    if gs != [] {
      GridClueNamesHas(gs[1..], s);
      assert forall k :: 1 <= k < |gs| ==> gs[k] == gs[1..][k - 1];
      if s in GridClueNames(gs[1..]) {
        var k :| 0 <= k < |gs[1..]| && gs[1..][k].value != 0 && s == GridClueName(gs[1..][k]);
        assert gs[k + 1] == gs[1..][k];
      }
    }
  }

  /** input_sudoku's names: the shape check, then the comprehension as written. */
  function InputNames(a: Grid): Result<seq<string>, InputError> {
    if IsGrid(a) then Ok(InputSudokuNames(Givens(a))) else Err(ArrayNotNineByNine)
  }

  /** The same with the intended column j+1. */
  function IntendedInputNames(a: Grid): Result<seq<string>, InputError> {
    if IsGrid(a) then Ok(GridClueNames(Givens(a))) else Err(ArrayNotNineByNine)
  }

  /** "v{x}{y}{z}" is the name of triple t exactly when (x, y, z) is t. */
  lemma VarNameIsName(x: int, y: int, z: int, t: Triple)
    requires ValidTriple(t)
    ensures VarName(x, y, z) == Name(t) <==> Triple(x, y, z) == t
  {
    if VarName(x, y, z) == Name(t) {
      NameRoundTrip(t);
      VarNameMatches(x, y, z);
    }
  }

  /** The variable of a triple is an objective term exactly when its name is listed. */
  lemma TermIffListed(vars: seq<Variable>, varnames: seq<string>, t: Triple)
    requires Permutes(vars) && ValidTriple(t)
    ensures Var(t) in MakeObjective(vars, varnames).terms <==> Name(t) in varnames
  {
    VariableAt(t);
  }

  /** The entry at position k of the array, row by row. */
  lemma GivenAt(a: Grid, k: int)
    requires IsGrid(a) && 0 <= k < 81
    ensures Givens(a)[k] == Given(k / 9, k % 9, a[k / 9][k % 9])
  {
    DivNine(k / 9, k % 9);
    assert 9 * (k / 9) + k % 9 == k;
  }

  /** A name listed as written comes from a non-zero entry at position k of
      the array. */
  lemma ListedInputSudoku(a: Grid, s: string) returns (k: int)
    requires IsGrid(a) && s in InputSudokuNames(Givens(a))
    ensures 0 <= k < 81 && Givens(a)[k].value != 0 && s == InputSudokuName(Givens(a)[k])
  {
    InputSudokuNamesHas(Givens(a), s);
    k :| 0 <= k < 81 && Givens(a)[k].value != 0 && s == InputSudokuName(Givens(a)[k]);
  }

  /** A name listed with the intended column comes from a non-zero entry at
      position k of the array. */
  lemma ListedGridClue(a: Grid, s: string) returns (k: int)
    requires IsGrid(a) && s in GridClueNames(Givens(a))
    ensures 0 <= k < 81 && Givens(a)[k].value != 0 && s == GridClueName(Givens(a)[k])
  {
    GridClueNamesHas(Givens(a), s);
    k :| 0 <= k < 81 && Givens(a)[k].value != 0 && s == GridClueName(Givens(a)[k]);
  }

  /** A name listed as written is that of a digit of row r placed in column r + 1. */
  lemma InputSudokuListedRow(a: Grid, t: Triple)
    requires IsGrid(a) && ValidTriple(t) && Name(t) in InputSudokuNames(Givens(a))
    ensures t.c == t.r + 1 && RowHas(a, t.r - 1, t.n)
  {
    var k := ListedInputSudoku(a, Name(t));
    GivenAt(a, k);
    var g := Givens(a)[k];
    assert Name(t) == VarName(g.i + 1, g.i + 2, g.value);
    VarNameIsName(g.i + 1, g.i + 2, g.value, t);
  }

  /** Every digit of row r is listed, as written, at column r + 1. */
  lemma InputSudokuRowListed(a: Grid, t: Triple, j: int)
    requires IsGrid(a) && ValidTriple(t) && t.c == t.r + 1 && 0 <= j < 9 && a[t.r - 1][j] == t.n
    ensures Name(t) in InputSudokuNames(Givens(a))
  {
    var gs := Givens(a);
    var k := 9 * (t.r - 1) + j;
    GivenAt(a, k);
    DivNine(t.r - 1, j);
    VarNameIsName(t.r, t.r + 1, t.n, t);
    assert Name(t) == InputSudokuName(gs[k]);
    InputSudokuNamesHas(gs, Name(t));
  }

  /** As written, input_sudoku lists the name of (r, c, n) exactly when
      c = r + 1 and digit n is somewhere in row r of the array. */
  lemma InputSudokuListed(a: Grid, t: Triple)
    requires IsGrid(a) && ValidTriple(t)
    ensures Name(t) in InputNames(a).value <==> t.c == t.r + 1 && RowHas(a, t.r - 1, t.n)
  {
    if Name(t) in InputNames(a).value {
      InputSudokuListedRow(a, t);
    }
    if t.c == t.r + 1 && RowHas(a, t.r - 1, t.n) {
      var j :| 0 <= j < 9 && a[t.r - 1][j] == t.n;
      InputSudokuRowListed(a, t, j);
    }
  }

  /** A name listed with the intended column is that of the digit at its cell. */
  lemma InputGridListedCell(a: Grid, t: Triple)
    requires IsGrid(a) && ValidTriple(t) && Name(t) in GridClueNames(Givens(a))
    ensures a[t.r - 1][t.c - 1] == t.n
  {
    var k := ListedGridClue(a, Name(t));
    GivenAt(a, k);
    var g := Givens(a)[k];
    assert Name(t) == VarName(g.i + 1, g.j + 1, g.value);
    VarNameIsName(g.i + 1, g.j + 1, g.value, t);
    assert g.i == t.r - 1 && g.j == t.c - 1 && g.value == t.n;
  }

  /** Every non-zero digit of the array is listed, with the intended column, at its cell. */
  lemma InputGridCellListed(a: Grid, t: Triple)
    requires IsGrid(a) && ValidTriple(t) && a[t.r - 1][t.c - 1] == t.n
    ensures Name(t) in GridClueNames(Givens(a))
  {
    var gs := Givens(a);
    var k := 9 * (t.r - 1) + (t.c - 1);
    GivenAt(a, k);
    DivNine(t.r - 1, t.c - 1);
    VarNameIsName(t.r, t.c, t.n, t);
    assert Name(t) == GridClueName(gs[k]);
    GridClueNamesHas(gs, Name(t));
  }

  /** With the intended column, the name of (r, c, n) is listed exactly when
      the array holds n at (r, c). */
  lemma InputGridListed(a: Grid, t: Triple)
    requires IsGrid(a) && ValidTriple(t)
    ensures Name(t) in IntendedInputNames(a).value <==> a[t.r - 1][t.c - 1] == t.n
  {
    if Name(t) in IntendedInputNames(a).value {
      InputGridListedCell(a, t);
    }
    if a[t.r - 1][t.c - 1] == t.n {
      InputGridCellListed(a, t);
    }
  }

  /** As written, input_sudoku gives the objective the variable of (r, c, n)
      exactly when c = r + 1 and digit n is somewhere in row r of the array:
      every clue lands in column r + 1 whatever its own column, and clues of
      row 9 (column "10") match no variable. */
  lemma InputSudokuTerms(vars: seq<Variable>, a: Grid, t: Triple)
    requires Permutes(vars) && IsGrid(a) && ValidTriple(t)
    ensures Var(t) in MakeObjective(vars, InputNames(a).value).terms <==>
      t.c == t.r + 1 && RowHas(a, t.r - 1, t.n)
  {
    TermIffListed(vars, InputNames(a).value, t);
    InputSudokuListed(a, t);
  }

  /** With the intended column, the objective gets the variable of (r, c, n)
      exactly when the array holds n at (r, c). */
  lemma InputGridTerms(vars: seq<Variable>, a: Grid, t: Triple)
    requires Permutes(vars) && IsGrid(a) && ValidTriple(t)
    ensures Var(t) in MakeObjective(vars, IntendedInputNames(a).value).terms <==>
      a[t.r - 1][t.c - 1] == t.n
  {
    TermIffListed(vars, IntendedInputNames(a).value, t);
    InputGridListed(a, t);
  }

  /** As written, a clue in row 9 is listed under a name of at least five
      characters, with column part "10", which matches no variable. */
  lemma InputSudokuLastRowUnmatched(a: Grid, j: int)
    requires IsGrid(a) && 0 <= j < 9 && a[8][j] != 0
    ensures VarName(9, 10, a[8][j]) in InputNames(a).value
    ensures 5 <= |VarName(9, 10, a[8][j])| && !IsVariableName(VarName(9, 10, a[8][j]))
  {
    GivenAt(a, 72 + j);
    DivNine(8, j);
    InputSudokuListsEntry(a, 72 + j);
    ColumnTenUnmatched(a[8][j]);
  }

  /** As written, every non-zero entry is listed under its name. */
  lemma InputSudokuListsEntry(a: Grid, k: int)
    requires IsGrid(a) && 0 <= k < 81 && Givens(a)[k].value != 0
    ensures InputSudokuName(Givens(a)[k]) in InputNames(a).value
  {
    InputSudokuNamesHas(Givens(a), InputSudokuName(Givens(a)[k]));
  }

  /** A name with row part 9 and column part 10 has at least five
      characters and names no variable. */
  lemma ColumnTenUnmatched(x: int)
    ensures 5 <= |VarName(9, 10, x)| && !IsVariableName(VarName(9, 10, x))
  {
    VarNameMatches(9, 10, x);
    IntStringSingleDigit(10);
    IntStringSingleDigit(x);
  }

  /** A single clue 5 at the top-left cell: as written the objective rewards
      5 at row 1, column 2 and not at row 1, column 1; the intended list
      rewards the top-left cell. */
  lemma InputSudokuMisplacesClue(vars: seq<Variable>)
    requires Permutes(vars)
    ensures var a := Write(Zero(), 0, 0, 5);
      && Var(Triple(1, 2, 5)) in MakeObjective(vars, InputNames(a).value).terms
      && Var(Triple(1, 1, 5)) !in MakeObjective(vars, InputNames(a).value).terms
      && Var(Triple(1, 1, 5)) in MakeObjective(vars, IntendedInputNames(a).value).terms
  {
    var a := Write(Zero(), 0, 0, 5);
    assert a[0][0] == 5;
    InputSudokuTerms(vars, a, Triple(1, 2, 5));
    InputSudokuTerms(vars, a, Triple(1, 1, 5));
    InputGridTerms(vars, a, Triple(1, 1, 5));
  }

  /** The name from_csv builds for the token at row i, column j (0-based):
      v{i+1}{j+1}{token}. */
  function CsvName(i: int, j: int, token: string): string {
    "v" + IntString(i + 1) + IntString(j + 1) + token
  }

  /** The names of row i, in column order. */
  function CsvRowNames(i: int, row: seq<string>): seq<string> {
    seq(|row|, j requires 0 <= j < |row| => CsvName(i, j, row[j]))
  }

  /** The names of all rows, row after row. */
  function CsvAllNames(rows: seq<seq<string>>): seq<string> {
    if rows == [] then []
    else CsvAllNames(rows[..|rows| - 1]) + CsvRowNames(|rows| - 1, rows[|rows| - 1])
  }

  /** Reading one token more of row i appends its name. */
  lemma CsvRowPrefix(i: int, row: seq<string>, j: int)
    requires 0 <= j < |row|
    ensures CsvRowNames(i, row)[..j + 1] == CsvRowNames(i, row)[..j] + [CsvName(i, j, row[j])]
  {
  }

  /** Reading one row more appends the names of its tokens. */
  lemma CsvAllPrefix(rows: seq<seq<string>>, i: int)
    requires 0 <= i < |rows|
    ensures CsvAllNames(rows[..i + 1]) == CsvAllNames(rows[..i]) + CsvRowNames(i, rows[i])
  {
    assert rows[..i + 1][..i] == rows[..i];
  }

  /** The listed names are those of the rows present. */
  lemma {:induction false} CsvAllNamesHas(rows: seq<seq<string>>, s: string)
    ensures s in CsvAllNames(rows) <==> exists i :: 0 <= i < |rows| && s in CsvRowNames(i, rows[i])
  {
    if rows != [] {
      var init := rows[..|rows| - 1];
      CsvAllNamesHas(init, s);
      assert forall i :: 0 <= i < |init| ==> init[i] == rows[i];
    }
  }

  /** The assertion of solpoku.py:99 holds at every token: no token at a row or
      column index of 9 or more. Rows may be short, missing or empty. */
  predicate CsvWithinBounds(rows: seq<seq<string>>) {
    forall i :: 0 <= i < |rows| ==> |rows[i]| <= 9 && (9 <= i ==> rows[i] == [])
  }

  /** from_csv's names as written: refused only for a token beyond row 9 or
      column 9. */
  function CsvNames(rows: seq<seq<string>>): Result<seq<string>, InputError> {
    if CsvWithinBounds(rows) then Ok(CsvAllNames(rows)) else Err(CsvNotNineByNine)
  }

  /** A token beyond row 9 or column 9 makes from_csv refuse the file. */
  lemma CsvOutOfBounds(rows: seq<seq<string>>, i: int, j: int)
    requires 0 <= i < |rows| && 0 <= j < |rows[i]| && !(i < 9 && j < 9)
    ensures CsvNames(rows) == Err(CsvNotNineByNine)
  {
  }

  /** The evidently intended check: exactly 9 rows of exactly 9 tokens. */
  function CheckedCsvNames(rows: seq<seq<string>>): Result<seq<string>, InputError> {
    if |rows| == 9 && forall i :: 0 <= i < 9 ==> |rows[i]| == 9 then Ok(CsvAllNames(rows))
    else Err(CsvNotNineByNine)
  }

  /** "v{i+1}{j+1}{token}" with i, j in [0,9) names the variable of t exactly
      when (i+1, j+1) is t's cell and the token is t's digit. */
  lemma CsvNameIsName(i: int, j: int, token: string, t: Triple)
    requires InGrid(i, j) && ValidTriple(t)
    ensures CsvName(i, j, token) == Name(t) <==>
      t.r == i + 1 && t.c == j + 1 && token == [DigitChar(t.n)]
  {
    IntStringSingleDigit(i + 1);
    IntStringSingleDigit(j + 1);
    NameRoundTrip(t);
    var s := CsvName(i, j, token);
    assert s == ['v', DigitChar(i + 1), DigitChar(j + 1)] + token;
    if s == Name(t) {
      assert s[1] == DigitChar(t.r) && s[2] == DigitChar(t.c);
      assert token == s[3..];
    }
  }

  /** For a CSV that from_csv accepts, the objective gets the variable of
      (r, c, n) exactly when row r has a c-th token and that token is the
      digit n; tokens such as "0", "10" or " 5" match no variable. */
  lemma CsvTerms(vars: seq<Variable>, rows: seq<seq<string>>, t: Triple)
    requires Permutes(vars) && CsvNames(rows).Ok? && ValidTriple(t)
    ensures Var(t) in MakeObjective(vars, CsvNames(rows).value).terms <==>
      t.r <= |rows| && t.c <= |rows[t.r - 1]| && rows[t.r - 1][t.c - 1] == [DigitChar(t.n)]
  {
    TermIffListed(vars, CsvNames(rows).value, t);
    if Name(t) in CsvAllNames(rows) {
      CsvListedCell(rows, t);
    }
    if t.r <= |rows| && t.c <= |rows[t.r - 1]| && rows[t.r - 1][t.c - 1] == [DigitChar(t.n)] {
      CsvCellListed(rows, t);
    }
  }

  /** A listed variable name comes from the token at its own cell. */
  lemma CsvListedCell(rows: seq<seq<string>>, t: Triple)
    requires CsvWithinBounds(rows) && ValidTriple(t) && Name(t) in CsvAllNames(rows)
    ensures t.r <= |rows| && t.c <= |rows[t.r - 1]| && rows[t.r - 1][t.c - 1] == [DigitChar(t.n)]
  {
    CsvAllNamesHas(rows, Name(t));
    var i :| 0 <= i < |rows| && Name(t) in CsvRowNames(i, rows[i]);
    var j :| 0 <= j < |rows[i]| && CsvRowNames(i, rows[i])[j] == Name(t);
    assert InGrid(i, j);
    CsvNameIsName(i, j, rows[i][j], t);
  }

  /** The token at a cell, when it is a digit, lists that cell's variable. */
  lemma CsvCellListed(rows: seq<seq<string>>, t: Triple)
    requires CsvWithinBounds(rows) && ValidTriple(t)
    requires t.r <= |rows| && t.c <= |rows[t.r - 1]| && rows[t.r - 1][t.c - 1] == [DigitChar(t.n)]
    ensures Name(t) in CsvAllNames(rows)
  {
    CsvNameIsName(t.r - 1, t.c - 1, rows[t.r - 1][t.c - 1], t);
    assert CsvRowNames(t.r - 1, rows[t.r - 1])[t.c - 1] == Name(t);
    CsvAllNamesHas(rows, Name(t));
  }

  /** A "0" token (a blank) yields a name that matches no variable. */
  lemma CsvZeroTokenMatchesNothing(i: int, j: int)
    requires InGrid(i, j)
    ensures !IsVariableName(CsvName(i, j, "0"))
  {
    IntStringSingleDigit(i + 1);
    IntStringSingleDigit(j + 1);
    assert CsvName(i, j, "0") == VarName(i + 1, j + 1, 0);
    VarNameMatches(i + 1, j + 1, 0);
  }

  /** With the intended check, an accepted CSV supplies one token per cell and
      the objective gets the variable of (r, c, n) exactly when the token at
      (r, c) is the digit n. */
  lemma CheckedCsvTerms(vars: seq<Variable>, rows: seq<seq<string>>, t: Triple)
    requires Permutes(vars) && CheckedCsvNames(rows).Ok? && ValidTriple(t)
    ensures |rows| == 9 && forall i :: 0 <= i < 9 ==> |rows[i]| == 9
    ensures Var(t) in MakeObjective(vars, CheckedCsvNames(rows).value).terms <==>
      rows[t.r - 1][t.c - 1] == [DigitChar(t.n)]
  {
    assert CsvWithinBounds(rows);
    CsvTerms(vars, rows, t);
  }

  /** As written, from_csv accepts a one-token file, and an empty one; the
      intended check refuses both. */
  lemma CsvAcceptsShortFile()
    ensures CsvNames([["5"]]) == Ok(["v115"])
    ensures CheckedCsvNames([["5"]]).Err?
    ensures CsvNames([]) == Ok([])
    ensures CheckedCsvNames([]).Err?
  {
    var rows := [["5"]];
    assert rows[..0] == [];
    IntStringSingleDigit(1);
    assert DigitChar(1) == '1';
    assert CsvName(0, 0, "5") == "v115";
    assert CsvRowNames(0, rows[0]) == ["v115"];
    assert CsvAllNames(rows) == CsvAllNames([]) + CsvRowNames(0, rows[0]);
    assert CsvWithinBounds(rows);
    assert CsvAllNames(rows) == ["v115"];
    assert CsvNames(rows) == Ok(["v115"]);
  }
}
