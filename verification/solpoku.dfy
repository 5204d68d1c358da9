/** The SudokuProblem class of solpoku.py: a model holding the 729 binary
    variables and the 324 constraints, whose objective input_sudoku and
    from_csv set from the clues, and whose solved values
    _build_sudoku_matrix reads back into a 9x9 matrix. The optimisation
    library's model is represented by its variables (in the order the
    library lists them), its constraints and its objective. */
module Solpoku {
  import opened Wrappers
  import opened Decimal
  import opened Variables
  import opened Constraints
  import opened Grids
  import opened Extraction
  import opened Clues
  import opened Encoding

  /** The rows of a 9x9 array as a grid. */
  function GridOf(a: array2<int>): (g: Grid)
    requires a.Length0 == 9 && a.Length1 == 9
    reads a
    ensures IsGrid(g) && forall i, j :: InGrid(i, j) ==> g[i][j] == a[i, j]
  {
    seq(9, i requires 0 <= i < 9 reads a => seq(9, j requires 0 <= j < 9 reads a => a[i, j]))
  }

  /** Once extraction has failed on a prefix, it fails the same way on the
      whole sequence of names. */
  lemma {:induction false} ExtractErrorSticks(names: seq<string>, k: int, primal: string -> int)
    requires 0 <= k <= |names| && Extract(names[..k], primal).Err?
    ensures Extract(names, primal) == Extract(names[..k], primal)
  {
    if k < |names| {
      var init := names[..|names| - 1];
      assert init[..k] == names[..k];
      ExtractErrorSticks(init, k, primal);
      assert names[..|names|] == names;
    } else {
      assert names[..k] == names;
    }
  }

  /** Extracting one name more takes one more step of the loop. */
  lemma ExtractStep(names: seq<string>, k: int, primal: string -> int)
    requires 0 <= k < |names| && Extract(names[..k], primal).Ok?
    ensures Extract(names[..k + 1], primal) == Step(Extract(names[..k], primal).value, names[k], primal)
  {
    assert names[..k + 1][..k] == names[..k];
  }

  /** The loop of from_csv over the rows and their tokens: the name
      v{i+1}{j+1}{token} of each token in turn, refused at the first token
      beyond row 9 or column 9. */
  method ReadCsvNames(rows: seq<seq<string>>) returns (r: Result<seq<string>, InputError>)
    ensures r == CsvNames(rows)
  {
    var varnames: seq<string> := [];
    for i := 0 to |rows|
      invariant varnames == CsvAllNames(rows[..i])
      invariant forall i' :: 0 <= i' < i ==> |rows[i']| <= 9 && (9 <= i' ==> rows[i'] == [])
    {
      CsvAllPrefix(rows, i);
      for j := 0 to |rows[i]|
        invariant varnames == CsvAllNames(rows[..i]) + CsvRowNames(i, rows[i])[..j]
        invariant j == 0 || (i < 9 && j <= 9)
      {
        if !(i < 9 && j < 9) {
          CsvOutOfBounds(rows, i, j);
          return Err(CsvNotNineByNine);
        }
        CsvRowPrefix(i, rows[i], j);
        varnames := varnames + [CsvName(i, j, rows[i][j])];
      }
      assert CsvRowNames(i, rows[i])[..|rows[i]|] == CsvRowNames(i, rows[i]);
    }
    assert rows[..|rows|] == rows;
    return Ok(varnames);
  }

  class SudokuProblem {
    /** The model's variables, in the order the optimisation library lists them. */
    var variables: seq<Variable>
    /** The constraints the model was built with. */
    var constraints: seq<Constraint>
    /** The model's objective. */
    var objective: Objective

    /** The model holds each of the 729 variables once and the 324 constraints. */
    ghost predicate Valid()
      reads this
    {
      Permutes(variables) && constraints == AllConstraints()
    }

    /** SudokuProblem(): a new model with the constraints of
        _build_constraints; order is the order in which the library lists
        the variables it registers, and the library's initial objective has
        no terms and is maximised. */
    constructor (order: seq<Variable>)
      requires Permutes(order)
      ensures Valid() && variables == order && objective == Objective([], Max)
    {
      var built := BuildConstraints();
      constraints := built;
      variables := order;
      objective := Objective([], Max);
    }

    /** set_objective: maximise the sum of the model's variables whose names
        are listed. */
    method SetObjective(varnames: seq<string>)
      requires Valid()
      modifies this`objective
      ensures Valid()
      ensures objective == MakeObjective(variables, varnames)
    {
      objective := MakeObjective(variables, varnames);
    }

    /** input_sudoku as written: refuses an array that is not 9x9 and leaves
        the objective alone; otherwise installs the objective of the names
        v{i+1}{i+2}{a[i,j]} of the non-zero entries. */
    method InputSudoku(a: Grid) returns (r: Outcome<InputError>)
      requires Valid()
      modifies this`objective
      ensures Valid()
      ensures r == (if IsGrid(a) then Pass else Fail(ArrayNotNineByNine))
      ensures r.Pass? ==> objective == MakeObjective(variables, InputNames(a).value)
      ensures r.Fail? ==> objective == old(objective)
    {
      if !IsGrid(a) {
        return Fail(ArrayNotNineByNine);
      }
      SetObjective(InputNames(a).value);
      return Pass;
    }

    /** input_sudoku with the evidently intended names v{i+1}{j+1}{a[i,j]}. */
    method InputGrid(a: Grid) returns (r: Outcome<InputError>)
      requires Valid()
      modifies this`objective
      ensures Valid()
      ensures r == (if IsGrid(a) then Pass else Fail(ArrayNotNineByNine))
      ensures r.Pass? ==> objective == MakeObjective(variables, IntendedInputNames(a).value)
      ensures r.Fail? ==> objective == old(objective)
    {
      if !IsGrid(a) {
        return Fail(ArrayNotNineByNine);
      }
      SetObjective(IntendedInputNames(a).value);
      return Pass;
    }

    /** _build_sudoku_matrix: a zero 9x9 matrix, then for each variable in
        the model's order, a name "v" r c n whose value is 1 writes n at
        (int(r) - 1, int(c) - 1); primal holds the solver's values. The
        matrix is the grid Extract computes over the variable names, and
        the method fails exactly where Extract does. */
    method BuildSudokuMatrix(primal: string -> int) returns (r: Result<array2<int>, ExtractError>)
      ensures r.Ok? ==> fresh(r.value) && r.value.Length0 == 9 && r.value.Length1 == 9
      ensures r.Ok? ==> Extract(NamesOf(variables), primal) == Ok(GridOf(r.value))
      ensures r.Err? ==> Extract(NamesOf(variables), primal) == Err(r.error)
    {
      var names := NamesOf(variables);
      var solution := new int[9, 9]((i, j) => 0);
      SameCells(GridOf(solution), Zero());
      for k := 0 to |names|
        invariant Extract(names[..k], primal) == Ok(GridOf(solution))
      {
        ExtractStep(names, k, primal);
        var name := names[k];
        if Matches(name) && primal(name) == 1 {
          match (DigitValue(name[1]), DigitValue(name[2]), DigitValue(name[3])) {
            case (Some(row), Some(col), Some(n)) =>
              ghost var before := GridOf(solution);
              solution[Wrap(row - 1), Wrap(col - 1)] := n;
              SameCells(GridOf(solution), Write(before, Wrap(row - 1), Wrap(col - 1), n));
            case _ =>
              ExtractErrorSticks(names, k + 1, primal);
              return Err(NotAnInteger(name));
          }
        }
      }
      assert names[..|names|] == names;
      return Ok(solution);
    }

    /** from_csv: a new problem, then the names v{i+1}{j+1}{token} of every
        token of every row of the CSV, refused only when a token lies beyond
        row 9 or column 9; rows holds the rows the CSV reader yields. */
    static method FromCsv(order: seq<Variable>, rows: seq<seq<string>>) returns (r: Result<SudokuProblem, InputError>)
      requires Permutes(order)
      ensures r.Ok? <==> CsvNames(rows).Ok?
      ensures r.Err? ==> r.error == CsvNotNineByNine
      ensures r.Ok? ==> fresh(r.value) && r.value.Valid() && r.value.variables == order
      ensures r.Ok? ==> r.value.objective == MakeObjective(order, CsvNames(rows).value)
    {
      var problem := new SudokuProblem(order);
      var varnames := ReadCsvNames(rows);
      if varnames.Err? {
        return Err(varnames.error);
      }
      problem.SetObjective(varnames.value);
      return Ok(problem);
    }

    /** from_csv with the evidently intended check: the file is refused
        unless it has exactly 9 rows of exactly 9 tokens. */
    static method FromCheckedCsv(order: seq<Variable>, rows: seq<seq<string>>) returns (r: Result<SudokuProblem, InputError>)
      requires Permutes(order)
      ensures r.Ok? <==> CheckedCsvNames(rows).Ok?
      ensures r.Err? ==> r.error == CsvNotNineByNine
      ensures r.Ok? ==> fresh(r.value) && r.value.Valid() && r.value.variables == order
      ensures r.Ok? ==> r.value.objective == MakeObjective(order, CheckedCsvNames(rows).value)
    {
      if !(|rows| == 9 && forall i :: 0 <= i < 9 ==> |rows[i]| == 9) {
        return Err(CsvNotNineByNine);
      }
      assert CsvWithinBounds(rows);
      r := FromCsv(order, rows);
    }
  }
}
