/** What the encoding means: the 0/1 assignments that satisfy the bounds and
    the 324 constraints built by _build_constraints are exactly the solved
    Sudoku grids, _build_sudoku_matrix decodes such an assignment into its
    grid, and the clue objective is maximal exactly on solutions that keep
    the clues. */
module Encoding {
  import opened Wrappers
  import opened Decimal
  import opened Variables
  import opened Constraints
  import opened Grids
  import opened Extraction
  import opened Clues

  /** Every variable lies within its bounds lb..ub. */
  predicate WithinBounds(vars: seq<Variable>, primal: string -> int) {
    forall k :: 0 <= k < |vars| ==> vars[k].lb <= primal(vars[k].name) <= vars[k].ub
  }

  /** The solver's values satisfy the model: bounds and every constraint. */
  predicate Feasible(primal: string -> int) {
    && WithinBounds(ModelVariables(), primal)
    && forall k :: 0 <= k < 324 ==> Satisfied(AllConstraints()[k], primal)
  }

  /** Digit n is chosen for cell (r, c). */
  predicate On(primal: string -> int, r: int, c: int, n: int) {
    primal(Name(Triple(r, c, n))) == 1
  }

  /** A feasible assignment gives every model variable 0 or 1. */
  lemma FeasibleBinary(primal: string -> int, t: Triple)
    requires Feasible(primal) && ValidTriple(t)
    ensures primal(Name(t)) == 0 || primal(Name(t)) == 1
  {
    VariableAt(t);
  }

  /** In a feasible assignment exactly one term of each constraint is 1. */
  lemma ExactlyOne(primal: string -> int, k: int)
    requires Feasible(primal) && 0 <= k < 324
    ensures exists m :: OnlyOneAt(AllConstraints()[k].terms, primal, m)
  {
    var terms := AllConstraints()[k].terms;
    ConstraintShape(k);
    forall m | 0 <= m < 9 ensures primal(terms[m].name) == 0 || primal(terms[m].name) == 1 {
      ModelVariableShape(terms[m]);
      NamedVariable(terms[m].name);
      var idx :| 0 <= idx < 729 && ModelVariables()[idx] == terms[m];
    }
    assert Satisfied(AllConstraints()[k], primal);
    SumIsOne(terms, primal);
  }

  /** When exactly one term of a cell constraint is 1, exactly one digit is
      chosen for the cell. */
  lemma CellOnlyOne(primal: string -> int, r: int, c: int, m: int) returns (n: int)
    requires OnlyOneAt(CellTerms(r, c), primal, m)
    ensures InRange(n) && On(primal, r, c, n)
    ensures forall n' :: InRange(n') && On(primal, r, c, n') ==> n' == n
  {
    n := m + 1;
    forall n' | InRange(n') && On(primal, r, c, n') ensures n' == n {
      assert CellTerms(r, c)[n' - 1].name == Name(Triple(r, c, n'));
      assert primal(CellTerms(r, c)[n' - 1].name) == 1;
    }
  }

  /** Each cell of a feasible assignment has exactly one digit. */
  lemma CellUnique(primal: string -> int, r: int, c: int) returns (n: int)
    requires Feasible(primal) && InRange(r) && InRange(c)
    ensures InRange(n) && On(primal, r, c, n)
    ensures forall n' :: InRange(n') && On(primal, r, c, n') ==> n' == n
  {
    CellSlotContents(r, c);
    ExactlyOne(primal, CellSlot(r, c));
    var m :| OnlyOneAt(CellTerms(r, c), primal, m);
    n := CellOnlyOne(primal, r, c, m);
  }

  /** When exactly one term of a row constraint is 1, exactly one column of
      the row has the digit. */
  lemma RowOnlyOne(primal: string -> int, r: int, n: int, m: int) returns (c: int)
    requires OnlyOneAt(RowTerms(r, n), primal, m)
    ensures InRange(c) && On(primal, r, c, n)
    ensures forall c' :: InRange(c') && On(primal, r, c', n) ==> c' == c
  {
    c := m + 1;
    forall c' | InRange(c') && On(primal, r, c', n) ensures c' == c {
      assert RowTerms(r, n)[c' - 1].name == Name(Triple(r, c', n));
      assert primal(RowTerms(r, n)[c' - 1].name) == 1;
    }
  }

  /** Each row of a feasible assignment has each digit in exactly one column. */
  lemma RowUnique(primal: string -> int, r: int, n: int) returns (c: int)
    requires Feasible(primal) && InRange(r) && InRange(n)
    ensures InRange(c) && On(primal, r, c, n)
    ensures forall c' :: InRange(c') && On(primal, r, c', n) ==> c' == c
  {
    RowSlotContents(r, n);
    ExactlyOne(primal, RowSlot(r, n));
    var m :| OnlyOneAt(RowTerms(r, n), primal, m);
    c := RowOnlyOne(primal, r, n, m);
  }

  /** When exactly one term of a column constraint is 1, exactly one row of
      the column has the digit. */
  lemma ColumnOnlyOne(primal: string -> int, c: int, n: int, m: int) returns (r: int)
    requires OnlyOneAt(ColumnTerms(c, n), primal, m)
    ensures InRange(r) && On(primal, r, c, n)
    ensures forall r' :: InRange(r') && On(primal, r', c, n) ==> r' == r
  {
    r := m + 1;
    forall r' | InRange(r') && On(primal, r', c, n) ensures r' == r {
      assert ColumnTerms(c, n)[r' - 1].name == Name(Triple(r', c, n));
      assert primal(ColumnTerms(c, n)[r' - 1].name) == 1;
    }
  }

  /** Each column of a feasible assignment has each digit in exactly one row. */
  lemma ColumnUnique(primal: string -> int, c: int, n: int) returns (r: int)
    requires Feasible(primal) && InRange(c) && InRange(n)
    ensures InRange(r) && On(primal, r, c, n)
    ensures forall r' :: InRange(r') && On(primal, r', c, n) ==> r' == r
  {
    ColumnSlotContents(c, n);
    ExactlyOne(primal, ColumnSlot(c, n));
    var m :| OnlyOneAt(ColumnTerms(c, n), primal, m);
    r := ColumnOnlyOne(primal, c, n, m);
  }

  /** Position 3 p + q of a sector constraint is the variable of the cell
      at offset (p, q) of the sector. */
  lemma SectorOffsetTerm(sr: int, sc: int, n: int, p: int, q: int)
    requires 0 <= p < 3 && 0 <= q < 3
    ensures SectorTerms(sr, sc, n)[3 * p + q] == Var(Triple(3 * sr + p + 1, 3 * sc + q + 1, n))
  {
    DivThree(p, q);
  }

  /** A cell of sector (sr, sc) lies at an offset (p, q) within it. */
  lemma SectorOffset(sr: int, sc: int, r: int, c: int) returns (p: int, q: int)
    requires InRange(r) && InRange(c) && (r - 1) / 3 == sr && (c - 1) / 3 == sc
    ensures 0 <= p < 3 && 0 <= q < 3 && r == 3 * sr + p + 1 && c == 3 * sc + q + 1
  {
    p, q := (r - 1) % 3, (c - 1) % 3;
  }

  /** When exactly one term of a sector constraint is 1, a cell of the
      sector with the digit chosen is the one at that term's position. */
  lemma SectorChosenAt(primal: string -> int, sr: int, sc: int, n: int, m: int, p: int, q: int)
    requires OnlyOneAt(SectorTerms(sr, sc, n), primal, m) && 0 <= p < 3 && 0 <= q < 3
    requires On(primal, 3 * sr + p + 1, 3 * sc + q + 1, n)
    ensures 3 * p + q == m
  {
    SectorOffsetTerm(sr, sc, n, p, q);
    assert primal(SectorTerms(sr, sc, n)[3 * p + q].name) == 1;
  }

  /** When exactly one term of a sector constraint is 1, exactly one cell of
      the sector has the digit. */
  lemma SectorOnlyOne(primal: string -> int, sr: int, sc: int, n: int, m: int) returns (r: int, c: int)
    requires 0 <= sr < 3 && 0 <= sc < 3 && InRange(n) && OnlyOneAt(SectorTerms(sr, sc, n), primal, m)
    ensures InRange(r) && InRange(c) && (r - 1) / 3 == sr && (c - 1) / 3 == sc && On(primal, r, c, n)
    ensures forall r', c' ::
      (InRange(r') && InRange(c') && (r' - 1) / 3 == sr && (c' - 1) / 3 == sc && On(primal, r', c', n))
      ==> r' == r && c' == c
  {
    var terms := SectorTerms(sr, sc, n);
    var p, q := m / 3, m % 3;
    assert m == 3 * p + q && 0 <= p < 3 && 0 <= q < 3;
    SectorOffsetTerm(sr, sc, n, p, q);
    DivThree(sr, p);
    DivThree(sc, q);
    r, c := 3 * sr + p + 1, 3 * sc + q + 1;
    forall r', c' |
      InRange(r') && InRange(c') && (r' - 1) / 3 == sr && (c' - 1) / 3 == sc && On(primal, r', c', n)
      ensures r' == r && c' == c
    {
      var p', q' := SectorOffset(sr, sc, r', c');
      SectorChosenAt(primal, sr, sc, n, m, p', q');
    }
  }

  /** Each sector of a feasible assignment has each digit in exactly one cell. */
  lemma SectorUnique(primal: string -> int, sr: int, sc: int, n: int) returns (r: int, c: int)
    requires Feasible(primal) && 0 <= sr < 3 && 0 <= sc < 3 && InRange(n)
    ensures InRange(r) && InRange(c) && (r - 1) / 3 == sr && (c - 1) / 3 == sc && On(primal, r, c, n)
    ensures forall r', c' ::
      (InRange(r') && InRange(c') && (r' - 1) / 3 == sr && (c' - 1) / 3 == sc && On(primal, r', c', n))
      ==> r' == r && c' == c
  {
    SectorSlotContents(sr, sc, n);
    ExactlyOne(primal, SectorSlot(sr, sc, n));
    var m :| OnlyOneAt(SectorTerms(sr, sc, n), primal, m);
    r, c := SectorOnlyOne(primal, sr, sc, n, m);
  }

  /** A model variable name is four characters "v" r c n that int() reads
      back, and it writes n at (r - 1, c - 1) exactly when its value is 1. */
  lemma NameWrites(t: Triple, primal: string -> int, i: int, j: int)
    requires ValidTriple(t)
    ensures Matches(Name(t)) && Readable(Name(t)) && DigitOf(Name(t)) == t.n
    ensures WritesAt(Name(t), primal, i, j) <==> primal(Name(t)) == 1 && i == t.r - 1 && j == t.c - 1
  {
    NameRoundTrip(t);
    IntStringSingleDigit(t.r);
    IntStringSingleDigit(t.c);
    IntStringSingleDigit(t.n);
  }

  /** names lists the model's variable names, each at least once, in some
      order: the names of the model's variables as the optimisation library
      lists them. */
  ghost predicate ListsModel(names: seq<string>) {
    && (forall k :: 0 <= k < |names| ==> IsVariableName(names[k]))
    && (forall k :: 0 <= k < 729 ==> VariableNames()[k] in names)
  }

  /** A listing holds the name of every triple. */
  lemma ListedName(names: seq<string>, t: Triple)
    requires ListsModel(names) && ValidTriple(t)
    ensures Name(t) in names
  {
    VariableAt(t);
  }

  /** The order (r, c, n) lists the model. */
  lemma VariableNamesListModel()
    ensures ListsModel(VariableNames())
  {
    forall k | 0 <= k < 729 ensures IsVariableName(VariableNames()[k]) {
      ModelVariablesValid(k);
      ModelVariablesDistinct();
    }
  }

  /** The names of the model's variables, in any order, list the model. */
  lemma PermutedNames(vars: seq<Variable>)
    requires Permutes(vars)
    ensures ListsModel(NamesOf(vars))
  {
    var names := NamesOf(vars);
    forall k | 0 <= k < |names| ensures IsVariableName(names[k]) {
      ModelVariableShape(vars[k]);
    }
    forall m | 0 <= m < 729 ensures VariableNames()[m] in names {
      ModelVariablesValid(m);
      ModelVariablesDistinct();
      assert ModelVariables()[m] in vars;
      var k :| 0 <= k < |vars| && vars[k] == ModelVariables()[m];
      assert names[k] == VariableNames()[m];
    }
  }

  /** Decoding the model's variables never raises, whatever the values. */
  lemma ModelNamesDecode(primal: string -> int, names: seq<string>)
    requires ListsModel(names)
    ensures Extract(names, primal).Ok?
  {
    ExtractFails(names, primal);
    forall k | 0 <= k < |names| ensures !Unreadable(names[k], primal) {
      ParseInverse(names[k]);
      NameWrites(Parse(names[k]).value, primal, 0, 0);
    }
  }

  /** The variable name at position k of a listing is that of a triple. */
  lemma ListedTriple(names: seq<string>, k: int) returns (t: Triple)
    requires ListsModel(names) && 0 <= k < |names|
    ensures ValidTriple(t) && names[k] == Name(t)
  {
    t := Parse(names[k]).value;
    ParseInverse(names[k]);
  }

  /** When exactly one digit d is chosen for cell (i + 1, j + 1), decoding
      writes d at (i, j). */
  lemma DecodedCell(primal: string -> int, names: seq<string>, i: int, j: int, d: int)
    requires ListsModel(names)
    requires InGrid(i, j) && InRange(d) && On(primal, i + 1, j + 1, d)
    requires forall n :: InRange(n) && On(primal, i + 1, j + 1, n) ==> n == d
    ensures Extract(names, primal).Ok?
    ensures Extract(names, primal).value[i][j] == d
  {
    ModelNamesDecode(primal, names);
    var t0 := Triple(i + 1, j + 1, d);
    ListedName(names, t0);
    var k0 :| 0 <= k0 < |names| && names[k0] == Name(t0);
    NameWrites(t0, primal, i, j);
    forall k | 0 <= k < |names| && WritesAt(names[k], primal, i, j) ensures DigitOf(names[k]) == d {
      var t := ListedTriple(names, k);
      NameWrites(t, primal, i, j);
      assert t == Triple(i + 1, j + 1, t.n);
    }
    ExtractAgreeingWriters(names, primal, i, j, d, k0);
  }

  /** g is the grid an assignment chooses: complete, and a model variable is
      1 exactly when its cell holds its digit. */
  ghost predicate Decodes(primal: string -> int, g: Grid) {
    && IsGrid(g) && Complete(g)
    && forall t :: ValidTriple(t) ==> (primal(Name(t)) == 1 <==> g[t.r - 1][t.c - 1] == t.n)
  }

  /** The grid decoded from a feasible assignment is the one it chooses. */
  lemma FeasibleDecodes(primal: string -> int, names: seq<string>)
    requires Feasible(primal) && ListsModel(names)
    ensures Extract(names, primal).Ok?
    ensures Decodes(primal, Extract(names, primal).value)
  {
    ModelNamesDecode(primal, names);
    var g := Extract(names, primal).value;
    forall i, j | InGrid(i, j) ensures 1 <= g[i][j] <= 9 {
      FeasibleCell(primal, names, i, j);
    }
    forall t | ValidTriple(t) ensures primal(Name(t)) == 1 <==> g[t.r - 1][t.c - 1] == t.n {
      FeasibleCell(primal, names, t.r - 1, t.c - 1);
    }
  }

  /** Decoding a feasible assignment writes into each cell the one digit
      chosen for it. */
  lemma FeasibleCell(primal: string -> int, names: seq<string>, i: int, j: int)
    requires Feasible(primal) && ListsModel(names) && InGrid(i, j)
    ensures Extract(names, primal).Ok? && 1 <= Extract(names, primal).value[i][j] <= 9
    ensures forall n :: InRange(n) ==> (primal(Name(Triple(i + 1, j + 1, n))) == 1 <==> Extract(names, primal).value[i][j] == n)
  {
    var d := CellUnique(primal, i + 1, j + 1);
    DecodedCell(primal, names, i, j, d);
  }

  /** Two cells in the same box lie in the same band and stack. */
  lemma SameBox(i1: int, j1: int, i2: int, j2: int)
    requires InGrid(i1, j1) && InGrid(i2, j2) && Box(i1, j1) == Box(i2, j2)
    ensures i1 / 3 == i2 / 3 && j1 / 3 == j2 / 3
  {
    DivThree(i1 / 3, j1 / 3);
    DivThree(i2 / 3, j2 / 3);
  }

  /** The chosen grid repeats no digit in a row. */
  lemma DecodedRowsDistinct(primal: string -> int, g: Grid)
    requires Feasible(primal) && Decodes(primal, g)
    ensures RowsDistinct(g)
  {
    forall i, j1, j2 | InGrid(i, j1) && InGrid(i, j2) && j1 != j2 ensures g[i][j1] != g[i][j2] {
      var n := g[i][j1];
      assert ValidTriple(Triple(i + 1, j1 + 1, n)) && ValidTriple(Triple(i + 1, j2 + 1, n));
      var c := RowUnique(primal, i + 1, n);
    }
  }

  /** The chosen grid repeats no digit in a column. */
  lemma DecodedColumnsDistinct(primal: string -> int, g: Grid)
    requires Feasible(primal) && Decodes(primal, g)
    ensures ColumnsDistinct(g)
  {
    forall i1, i2, j | InGrid(i1, j) && InGrid(i2, j) && i1 != i2 ensures g[i1][j] != g[i2][j] {
      var n := g[i1][j];
      assert ValidTriple(Triple(i1 + 1, j + 1, n)) && ValidTriple(Triple(i2 + 1, j + 1, n));
      var r := ColumnUnique(primal, j + 1, n);
    }
  }

  /** Two cells of one sector that both have digit n chosen are one cell. */
  lemma SectorAtMostOne(primal: string -> int, n: int, r1: int, c1: int, r2: int, c2: int)
    requires Feasible(primal) && InRange(n)
    requires InRange(r1) && InRange(c1) && InRange(r2) && InRange(c2)
    requires (r1 - 1) / 3 == (r2 - 1) / 3 && (c1 - 1) / 3 == (c2 - 1) / 3
    requires On(primal, r1, c1, n) && On(primal, r2, c2, n)
    ensures r1 == r2 && c1 == c2
  {
    var r, c := SectorUnique(primal, (r1 - 1) / 3, (c1 - 1) / 3, n);
  }

  /** Two cells of one box in the chosen grid hold different digits. */
  lemma DecodedBoxPair(primal: string -> int, g: Grid, i1: int, j1: int, i2: int, j2: int)
    requires Feasible(primal) && Decodes(primal, g)
    requires InGrid(i1, j1) && InGrid(i2, j2) && (i1 != i2 || j1 != j2) && Box(i1, j1) == Box(i2, j2)
    ensures g[i1][j1] != g[i2][j2]
  {
    var n := g[i1][j1];
    SameBox(i1, j1, i2, j2);
    var t1, t2 := Triple(i1 + 1, j1 + 1, n), Triple(i2 + 1, j2 + 1, n);
    assert ValidTriple(t1) && ValidTriple(t2);
    assert On(primal, i1 + 1, j1 + 1, n);
    if g[i2][j2] == n {
      assert On(primal, i2 + 1, j2 + 1, n);
      SectorAtMostOne(primal, n, i1 + 1, j1 + 1, i2 + 1, j2 + 1);
    }
  }

  /** The chosen grid repeats no digit in a box. */
  lemma DecodedBoxesDistinct(primal: string -> int, g: Grid)
    requires Feasible(primal) && Decodes(primal, g)
    ensures BoxesDistinct(g)
  {
    forall i1, j1, i2, j2 |
      InGrid(i1, j1) && InGrid(i2, j2) && (i1 != i2 || j1 != j2) && Box(i1, j1) == Box(i2, j2)
      ensures g[i1][j1] != g[i2][j2]
    {
      DecodedBoxPair(primal, g, i1, j1, i2, j2);
    }
  }

  /** The chosen grid has digit n in row x. */
  lemma DecodedRowHas(primal: string -> int, g: Grid, x: int, n: int)
    requires Feasible(primal) && Decodes(primal, g) && 0 <= x < 9 && InRange(n)
    ensures RowHas(g, x, n)
  {
    var c := RowUnique(primal, x + 1, n);
    assert ValidTriple(Triple(x + 1, c, n)) && g[x][c - 1] == n;
  }

  /** The chosen grid has digit n in column x. */
  lemma DecodedColumnHas(primal: string -> int, g: Grid, x: int, n: int)
    requires Feasible(primal) && Decodes(primal, g) && 0 <= x < 9 && InRange(n)
    ensures ColumnHas(g, x, n)
  {
    var r := ColumnUnique(primal, x + 1, n);
    assert ValidTriple(Triple(r, x + 1, n)) && g[r - 1][x] == n;
  }

  /** The chosen grid has digit n in box 3 sr + sc. */
  lemma DecodedBoxHas(primal: string -> int, g: Grid, sr: int, sc: int, n: int)
    requires Feasible(primal) && Decodes(primal, g) && 0 <= sr < 3 && 0 <= sc < 3 && InRange(n)
    ensures BoxHas(g, 3 * sr + sc, n)
  {
    var r, c := SectorUnique(primal, sr, sc, n);
    assert ValidTriple(Triple(r, c, n)) && g[r - 1][c - 1] == n;
    assert Box(r - 1, c - 1) == 3 * sr + sc;
  }

  /** The chosen grid has every digit in every row, column and box. */
  lemma DecodedDigitsPresent(primal: string -> int, g: Grid)
    requires Feasible(primal) && Decodes(primal, g)
    ensures AllDigitsPresent(g)
  {
    forall x, n | 0 <= x < 9 && 1 <= n <= 9
      ensures RowHas(g, x, n) && ColumnHas(g, x, n) && BoxHas(g, x, n)
    {
      DecodedRowHas(primal, g, x, n);
      DecodedColumnHas(primal, g, x, n);
      assert x == 3 * (x / 3) + x % 3;
      DecodedBoxHas(primal, g, x / 3, x % 3, n);
    }
  }

  /** The value the indicator assignment of g gives a name: 1 exactly for
      the variables of g's digits. */
  function IndicatorValue(g: Grid, s: string): int
    requires IsGrid(g)
  {
    match Parse(s)
    case Some(t) => if ValidTriple(t) && g[t.r - 1][t.c - 1] == t.n then 1 else 0
    case None => 0
  }

  /** The indicator assignment of a grid. */
  function Indicator(g: Grid): string -> int
    requires IsGrid(g)
  {
    s => IndicatorValue(g, s)
  }

  /** The indicator of g sets a model variable to 1 exactly when its cell of
      g holds its digit, and gives every name 0 or 1. */
  lemma IndicatorOfName(g: Grid, t: Triple)
    requires IsGrid(g) && ValidTriple(t)
    ensures Indicator(g)(Name(t)) == 1 <==> g[t.r - 1][t.c - 1] == t.n
    ensures Indicator(g)(Name(t)) == 0 || Indicator(g)(Name(t)) == 1
  {
    NameRoundTrip(t);
  }

  /** A feasible assignment decodes to a solved grid, and is that grid's
      indicator on every model variable. */
  lemma FeasibleIsSolved(primal: string -> int, names: seq<string>)
    requires Feasible(primal) && ListsModel(names)
    ensures Extract(names, primal).Ok?
    ensures Solved(Extract(names, primal).value)
    ensures forall t :: ValidTriple(t) ==>
      primal(Name(t)) == Indicator(Extract(names, primal).value)(Name(t))
  {
    FeasibleDecodes(primal, names);
    var g := Extract(names, primal).value;
    DecodedRowsDistinct(primal, g);
    DecodedColumnsDistinct(primal, g);
    DecodedBoxesDistinct(primal, g);
    DecodedDigitsPresent(primal, g);
    forall t | ValidTriple(t) ensures primal(Name(t)) == Indicator(g)(Name(t)) {
      FeasibleBinary(primal, t);
      IndicatorOfName(g, t);
    }
  }

  /** In the indicator of a solved grid each cell has one digit. */
  lemma SolvedCellOne(g: Grid, r: int, c: int)
    requires Complete(g) && InRange(r) && InRange(c)
    ensures exists m :: OnlyOneAt(CellTerms(r, c), Indicator(g), m)
  {
    var m0 := g[r - 1][c - 1] - 1;
    forall m | 0 <= m < 9 ensures Indicator(g)(CellTerms(r, c)[m].name) == (if m == m0 then 1 else 0) {
      IndicatorOfName(g, Triple(r, c, m + 1));
    }
    assert OnlyOneAt(CellTerms(r, c), Indicator(g), m0);
  }

  /** In the indicator of a solved grid each row has each digit once. */
  lemma SolvedRowOne(g: Grid, r: int, n: int)
    requires IsGrid(g) && RowsDistinct(g) && InRange(r) && RowHas(g, r - 1, n) && InRange(n)
    ensures exists m :: OnlyOneAt(RowTerms(r, n), Indicator(g), m)
  {
    var m0 :| 0 <= m0 < 9 && g[r - 1][m0] == n;
    forall m | 0 <= m < 9 ensures Indicator(g)(RowTerms(r, n)[m].name) == (if m == m0 then 1 else 0) {
      IndicatorOfName(g, Triple(r, m + 1, n));
    }
    assert OnlyOneAt(RowTerms(r, n), Indicator(g), m0);
  }

  /** In the indicator of a solved grid each column has each digit once. */
  lemma SolvedColumnOne(g: Grid, c: int, n: int)
    requires IsGrid(g) && ColumnsDistinct(g) && InRange(c) && ColumnHas(g, c - 1, n) && InRange(n)
    ensures exists m :: OnlyOneAt(ColumnTerms(c, n), Indicator(g), m)
  {
    var m0 :| 0 <= m0 < 9 && g[m0][c - 1] == n;
    forall m | 0 <= m < 9 ensures Indicator(g)(ColumnTerms(c, n)[m].name) == (if m == m0 then 1 else 0) {
      IndicatorOfName(g, Triple(m + 1, c, n));
    }
    assert OnlyOneAt(ColumnTerms(c, n), Indicator(g), m0);
  }

  /** Position 3 p + q of a sector constraint is the variable of cell
      (3 sr + p, 3 sc + q), and in a grid without repeated digits in the box
      that cell holds the digit of cell (3 sr + a, 3 sc + b) only when it is
      that cell. */
  lemma SectorCellAt(g: Grid, sr: int, sc: int, n: int, a: int, b: int, p: int, q: int)
    requires IsGrid(g) && BoxesDistinct(g) && 0 <= sr < 3 && 0 <= sc < 3 && InRange(n)
    requires 0 <= a < 3 && 0 <= b < 3 && g[3 * sr + a][3 * sc + b] == n && 0 <= p < 3 && 0 <= q < 3
    ensures SectorTerms(sr, sc, n)[3 * p + q] == Var(Triple(3 * sr + p + 1, 3 * sc + q + 1, n))
    ensures g[3 * sr + p][3 * sc + q] == n <==> 3 * p + q == 3 * a + b
  {
    SectorOffsetTerm(sr, sc, n, p, q);
    if p != a || q != b {
      DivThree(sr, p);
      DivThree(sc, q);
      DivThree(sr, a);
      DivThree(sc, b);
      assert Box(3 * sr + p, 3 * sc + q) == Box(3 * sr + a, 3 * sc + b);
    }
  }

  /** The indicator of the grid sets position 3 p + q of the sector
      constraint to 1 exactly at the offset (a, b) that holds the digit. */
  lemma SectorIndicator(g: Grid, sr: int, sc: int, n: int, a: int, b: int, p: int, q: int)
    requires IsGrid(g) && BoxesDistinct(g) && 0 <= sr < 3 && 0 <= sc < 3 && InRange(n)
    requires 0 <= a < 3 && 0 <= b < 3 && g[3 * sr + a][3 * sc + b] == n && 0 <= p < 3 && 0 <= q < 3
    ensures Indicator(g)(SectorTerms(sr, sc, n)[3 * p + q].name) == (if 3 * p + q == 3 * a + b then 1 else 0)
  {
    SectorCellAt(g, sr, sc, n, a, b, p, q);
    IndicatorOfName(g, Triple(3 * sr + p + 1, 3 * sc + q + 1, n));
  }

  /** A digit that box 3 sr + sc has lies at some offset (a, b) of it. */
  lemma BoxOffset(g: Grid, sr: int, sc: int, n: int) returns (a: int, b: int)
    requires IsGrid(g) && 0 <= sr < 3 && 0 <= sc < 3 && BoxHas(g, 3 * sr + sc, n)
    ensures 0 <= a < 3 && 0 <= b < 3 && g[3 * sr + a][3 * sc + b] == n
  {
    var i, j :| InGrid(i, j) && Box(i, j) == 3 * sr + sc && g[i][j] == n;
    DivThree(sr, sc);
    DivThree(i / 3, j / 3);
    a, b := i % 3, j % 3;
  }

  /** In the indicator of a solved grid each sector has each digit once. */
  lemma SolvedSectorOne(g: Grid, sr: int, sc: int, n: int)
    requires IsGrid(g) && BoxesDistinct(g) && 0 <= sr < 3 && 0 <= sc < 3 && BoxHas(g, 3 * sr + sc, n)
    requires InRange(n)
    ensures exists m :: OnlyOneAt(SectorTerms(sr, sc, n), Indicator(g), m)
  {
    var terms := SectorTerms(sr, sc, n);
    var a, b := BoxOffset(g, sr, sc, n);
    forall m | 0 <= m < 9 ensures Indicator(g)(terms[m].name) == (if m == 3 * a + b then 1 else 0) {
      var p, q := m / 3, m % 3;
      assert m == 3 * p + q && 0 <= p < 3 && 0 <= q < 3;
      SectorIndicator(g, sr, sc, n, a, b, p, q);
    }
    assert OnlyOneAt(terms, Indicator(g), 3 * a + b);
  }

  /** A constraint with exactly one term at 1 under 0/1 values holds. */
  lemma OneSatisfies(k: int, primal: string -> int)
    requires 0 <= k < 324 && exists m :: OnlyOneAt(AllConstraints()[k].terms, primal, m)
    requires Binary(AllConstraints()[k].terms, primal)
    ensures Satisfied(AllConstraints()[k], primal)
  {
    ConstraintShape(k);
    SumIsOne(AllConstraints()[k].terms, primal);
  }

  /** The indicator of any grid gives every name 0 or 1. */
  lemma IndicatorBinary(g: Grid, terms: seq<Variable>)
    requires IsGrid(g)
    ensures Binary(terms, Indicator(g))
  {
  }

  /** A cell constraint holds under the indicator of a complete grid. */
  lemma CellConstraintHolds(g: Grid, r: int, c: int)
    requires Complete(g) && InRange(r) && InRange(c)
    ensures Satisfied(AllConstraints()[CellSlot(r, c)], Indicator(g))
  {
    CellSlotContents(r, c);
    IndicatorBinary(g, CellTerms(r, c));
    SolvedCellOne(g, r, c);
    OneSatisfies(CellSlot(r, c), Indicator(g));
  }

  /** A column constraint holds under the indicator of a grid whose column
      holds the digit once. */
  lemma ColumnConstraintHolds(g: Grid, c: int, n: int)
    requires IsGrid(g) && ColumnsDistinct(g) && InRange(c) && InRange(n) && ColumnHas(g, c - 1, n)
    ensures Satisfied(AllConstraints()[ColumnSlot(c, n)], Indicator(g))
  {
    ColumnSlotContents(c, n);
    IndicatorBinary(g, ColumnTerms(c, n));
    SolvedColumnOne(g, c, n);
    OneSatisfies(ColumnSlot(c, n), Indicator(g));
  }

  /** A row constraint holds under the indicator of a grid whose row holds
      the digit once. */
  lemma RowConstraintHolds(g: Grid, r: int, n: int)
    requires IsGrid(g) && RowsDistinct(g) && InRange(r) && InRange(n) && RowHas(g, r - 1, n)
    ensures Satisfied(AllConstraints()[RowSlot(r, n)], Indicator(g))
  {
    RowSlotContents(r, n);
    IndicatorBinary(g, RowTerms(r, n));
    SolvedRowOne(g, r, n);
    OneSatisfies(RowSlot(r, n), Indicator(g));
  }

  /** A sector constraint holds under the indicator of a grid whose box
      holds the digit once. */
  lemma SectorConstraintHolds(g: Grid, sr: int, sc: int, n: int)
    requires IsGrid(g) && BoxesDistinct(g) && 0 <= sr < 3 && 0 <= sc < 3 && InRange(n)
    requires BoxHas(g, 3 * sr + sc, n)
    ensures Satisfied(AllConstraints()[SectorSlot(sr, sc, n)], Indicator(g))
  {
    SectorSlotContents(sr, sc, n);
    IndicatorBinary(g, SectorTerms(sr, sc, n));
    SolvedSectorOne(g, sr, sc, n);
    OneSatisfies(SectorSlot(sr, sc, n), Indicator(g));
  }

  /** Every slot of the constraint list is that of a family, a first index
      x and a digit n. */
  lemma SlotOf(k: int) returns (x: int, n: int)
    requires 0 <= k < 324
    ensures InRange(x) && InRange(n)
    ensures k < 81 ==> k == CellSlot(x, n)
    ensures 81 <= k < 162 ==> k == ColumnSlot(x, n)
    ensures 162 <= k < 243 ==> k == RowSlot(x, n)
    ensures 243 <= k ==> k == SectorSlot((x - 1) / 3, (x - 1) % 3, n)
    ensures 0 <= (x - 1) / 3 < 3 && 0 <= (x - 1) % 3 < 3 && 3 * ((x - 1) / 3) + (x - 1) % 3 == x - 1
  {
    var q := k % 81;
    x, n := q / 9 + 1, q % 9 + 1;
    assert q == 9 * (x - 1) + (n - 1);
  }

  /** The indicator of a solved grid is feasible. */
  lemma SolvedIsFeasible(g: Grid)
    requires Solved(g)
    ensures Feasible(Indicator(g))
  {
    forall k | 0 <= k < 729
      ensures ModelVariables()[k].lb <= Indicator(g)(ModelVariables()[k].name) <= ModelVariables()[k].ub
    {
      ModelVariablesValid(k);
    }
    forall k | 0 <= k < 324 ensures Satisfied(AllConstraints()[k], Indicator(g)) {
      var x, n := SlotOf(k);
      if k < 81 {
        CellConstraintHolds(g, x, n);
      } else if k < 162 {
        ColumnConstraintHolds(g, x, n);
      } else if k < 243 {
        RowConstraintHolds(g, x, n);
      } else {
        var sr, sc := (x - 1) / 3, (x - 1) % 3;
        SectorConstraintHolds(g, sr, sc, n);
      }
    }
  }

  /** Decoding the indicator of a complete grid writes each cell's digit. */
  lemma IndicatorCell(g: Grid, names: seq<string>, i: int, j: int)
    requires Complete(g) && ListsModel(names) && InGrid(i, j)
    ensures Extract(names, Indicator(g)).Ok?
    ensures Extract(names, Indicator(g)).value[i][j] == g[i][j]
  {
    forall n | InRange(n) && On(Indicator(g), i + 1, j + 1, n) ensures n == g[i][j] {
      IndicatorOfName(g, Triple(i + 1, j + 1, n));
    }
    IndicatorOfName(g, Triple(i + 1, j + 1, g[i][j]));
    DecodedCell(Indicator(g), names, i, j, g[i][j]);
  }

  /** Decoding the indicator of a complete grid gives back each row. */
  lemma IndicatorRow(g: Grid, names: seq<string>, i: int)
    requires Complete(g) && ListsModel(names) && 0 <= i < 9
    ensures Extract(names, Indicator(g)).Ok?
    ensures Extract(names, Indicator(g)).value[i] == g[i]
  {
    ModelNamesDecode(Indicator(g), names);
    var h := Extract(names, Indicator(g)).value;
    forall j | 0 <= j < 9 ensures h[i][j] == g[i][j] {
      IndicatorCell(g, names, i, j);
    }
  }

  /** Decoding the indicator of a complete grid gives back that grid. */
  lemma ExtractIndicator(g: Grid, names: seq<string>)
    requires Complete(g) && ListsModel(names)
    ensures Extract(names, Indicator(g)) == Ok(g)
  {
    ModelNamesDecode(Indicator(g), names);
    var h := Extract(names, Indicator(g)).value;
    forall i | 0 <= i < 9 ensures h[i] == g[i] {
      IndicatorRow(g, names, i);
    }
    assert h == g;
  }

  /** Sums over terms on which two assignments agree are equal. */
  lemma {:induction false} SumAgrees(terms: seq<Variable>, p: string -> int, q: string -> int)
    requires forall k :: 0 <= k < |terms| ==> p(terms[k].name) == q(terms[k].name)
    ensures Sum(terms, p) == Sum(terms, q)
  {
    if terms != [] {
      assert forall k :: 1 <= k < |terms| ==> terms[1..][k - 1] == terms[k];
      SumAgrees(terms[1..], p, q);
    }
  }

  /** Feasibility depends only on the values of the model variables. */
  lemma FeasibleOnModel(p: string -> int, q: string -> int)
    requires Feasible(p)
    requires forall t :: ValidTriple(t) ==> p(Name(t)) == q(Name(t))
    ensures Feasible(q)
  {
    forall k | 0 <= k < 729
      ensures ModelVariables()[k].lb <= q(ModelVariables()[k].name) <= ModelVariables()[k].ub
    {
      ModelVariablesValid(k);
    }
    forall k | 0 <= k < 324 ensures Satisfied(AllConstraints()[k], q) {
      var terms := AllConstraints()[k].terms;
      ConstraintShape(k);
      forall m | 0 <= m < |terms| ensures p(terms[m].name) == q(terms[m].name) {
        ModelVariableShape(terms[m]);
        ParseInverse(terms[m].name);
      }
      SumAgrees(terms, p, q);
    }
  }

  /** The feasible assignments are exactly the indicators of solved grids,
      on the model's variables. */
  lemma FeasibleIffSolved(primal: string -> int)
    ensures Feasible(primal) <==>
      exists g :: Solved(g) && forall t :: ValidTriple(t) ==> primal(Name(t)) == Indicator(g)(Name(t))
  {
    if Feasible(primal) {
      VariableNamesListModel();
      FeasibleIsSolved(primal, VariableNames());
      var g := Extract(VariableNames(), primal).value;
      assert Solved(g);
    }
    if exists g :: Solved(g) && forall t :: ValidTriple(t) ==> primal(Name(t)) == Indicator(g)(Name(t)) {
      var g :| Solved(g) && forall t :: ValidTriple(t) ==> primal(Name(t)) == Indicator(g)(Name(t));
      SolvedIsFeasible(g);
      FeasibleOnModel(Indicator(g), primal);
    }
  }

  /** A feasible assignment gives every model variable 0 or 1. */
  lemma FeasibleModelBinary(primal: string -> int)
    requires Feasible(primal)
    ensures ModelBinary(primal)
  {
    forall k | 0 <= k < 729
      ensures primal(ModelVariables()[k].name) == 0 || primal(ModelVariables()[k].name) == 1
    {
      ModelVariablesValid(k);
    }
  }

  /** The grid g keeps every clue of the array a (entries 1..9; 0 is blank). */
  ghost predicate KeepsClues(a: Grid, g: Grid)
    requires IsGrid(a) && IsGrid(g)
  {
    forall i, j :: InGrid(i, j) && InRange(a[i][j]) ==> g[i][j] == a[i][j]
  }

  /** With the intended clue names, a feasible assignment scores at most the
      number of clue terms, and scores exactly that when, and only when, its
      decoded grid keeps every clue; vars is the model's variables in the
      library's order, which both the objective and the decoding follow. */
  lemma CluesSteer(vars: seq<Variable>, a: Grid, primal: string -> int)
    requires Permutes(vars) && IsGrid(a) && Feasible(primal)
    ensures Extract(NamesOf(vars), primal).Ok?
    ensures var obj := MakeObjective(vars, IntendedInputNames(a).value);
      && ObjectiveValue(obj, primal) <= |obj.terms|
      && (ObjectiveValue(obj, primal) == |obj.terms| <==> KeepsClues(a, Extract(NamesOf(vars), primal).value))
  {
    var names := IntendedInputNames(a).value;
    PermutedNames(vars);
    FeasibleDecodes(primal, NamesOf(vars));
    FeasibleModelBinary(primal);
    ObjectiveBound(vars, names, primal);
    var g := Extract(NamesOf(vars), primal).value;
    if forall s :: s in names && IsVariableName(s) ==> primal(s) == 1 {
      ListedKeepsClues(a, primal, g);
    }
    if KeepsClues(a, g) {
      KeptCluesListed(a, primal, g);
    }
  }

  /** If every clue variable is 1, the chosen grid keeps every clue. */
  lemma ListedKeepsClues(a: Grid, primal: string -> int, g: Grid)
    requires IsGrid(a) && Decodes(primal, g)
    requires forall s :: s in IntendedInputNames(a).value && IsVariableName(s) ==> primal(s) == 1
    ensures KeepsClues(a, g)
  {
    forall i, j | InGrid(i, j) && InRange(a[i][j]) ensures g[i][j] == a[i][j] {
      var t := Triple(i + 1, j + 1, a[i][j]);
      InputGridListed(a, t);
      NameRoundTrip(t);
    }
  }

  /** If the chosen grid keeps every clue, every clue variable is 1. */
  lemma KeptCluesListed(a: Grid, primal: string -> int, g: Grid)
    requires IsGrid(a) && Decodes(primal, g) && KeepsClues(a, g)
    ensures forall s :: s in IntendedInputNames(a).value && IsVariableName(s) ==> primal(s) == 1
  {
    forall s | s in IntendedInputNames(a).value && IsVariableName(s) ensures primal(s) == 1 {
      var t := Parse(s).value;
      ParseInverse(s);
      InputGridListed(a, t);
    }
  }

  /** The solution of a puzzle scores the full number of clue terms, so when
      the clues have a solution the objective's maximum is that number and
      every optimal feasible assignment decodes to a solution keeping every
      clue. */
  lemma SolutionIsOptimal(vars: seq<Variable>, a: Grid, g: Grid)
    requires Permutes(vars) && IsGrid(a) && Solved(g) && KeepsClues(a, g)
    ensures Feasible(Indicator(g))
    ensures var obj := MakeObjective(vars, IntendedInputNames(a).value);
      ObjectiveValue(obj, Indicator(g)) == |obj.terms|
  {
    SolvedIsFeasible(g);
    PermutedNames(vars);
    ExtractIndicator(g, NamesOf(vars));
    CluesSteer(vars, a, Indicator(g));
  }
}
