/** Solution extraction (SudokuProblem._build_sudoku_matrix): from a zero
    9x9 grid, for each model variable in order, a name of the shape
    ["v", r, c, n] whose solved value is 1 writes int(n) at
    (int(r) - 1, int(c) - 1); names of any other shape are skipped. */
module Extraction {
  import opened Wrappers
  import opened Decimal
  import opened Variables
  import opened Grids

  /** int() raised ValueError on a character of a matched name. */
  datatype ExtractError = NotAnInteger(name: string)

  /** A numpy index in [-9, 9) into an axis of length 9: -1 is the last one. */
  function Wrap(x: int): (i: int)
    requires -9 <= x < 9
    ensures 0 <= i < 9 && (i == x || i == x + 9)
  {
    if x < 0 then x + 9 else x
  }

  /** The pattern ["v", r, c, n] of solpoku.py:118: four characters, the first 'v'. */
  predicate Matches(name: string) {
    |name| == 4 && name[0] == 'v'
  }

  /** One iteration of the loop over the model's variables. */
  function Step(g: Grid, name: string, primal: string -> int): (r: Result<Grid, ExtractError>)
    requires IsGrid(g)
    ensures r.Ok? ==> IsGrid(r.value)
  {
    if Matches(name) && primal(name) == 1 then
      match (DigitValue(name[1]), DigitValue(name[2]), DigitValue(name[3]))
      case (Some(r), Some(c), Some(n)) => Ok(Write(g, Wrap(r - 1), Wrap(c - 1), n))
      case _ => Err(NotAnInteger(name))
    else
      Ok(g)
  }

  /** The grid the loop produces over the variable names, in order, or the
      error that stops it. */
  function Extract(names: seq<string>, primal: string -> int): (r: Result<Grid, ExtractError>)
    ensures r.Ok? ==> IsGrid(r.value)
  {
    if names == [] then Ok(Zero())
    else
      match Extract(names[..|names| - 1], primal)
      case Err(e) => Err(e)
      case Ok(g) => Step(g, names[|names| - 1], primal)
  }

  /** All three characters after the 'v' are decimal digits. */
  predicate Readable(name: string)
    requires Matches(name)
  {
    DigitValue(name[1]).Some? && DigitValue(name[2]).Some? && DigitValue(name[3]).Some?
  }

  /** The digit written by a readable name. */
  function DigitOf(name: string): int
    requires Matches(name) && Readable(name)
  {
    DigitValue(name[3]).value
  }

  /** The variable called name writes its digit at cell (i, j). */
  predicate WritesAt(name: string, primal: string -> int, i: int, j: int) {
    && Matches(name) && primal(name) == 1 && Readable(name)
    && Wrap(DigitValue(name[1]).value - 1) == i && Wrap(DigitValue(name[2]).value - 1) == j
  }

  /** A matched name whose value is 1 but whose characters int() rejects. */
  predicate Unreadable(name: string, primal: string -> int) {
    Matches(name) && primal(name) == 1 && !Readable(name)
  }

  /** No variable writes at cell (i, j). */
  predicate Untouched(names: seq<string>, primal: string -> int, i: int, j: int) {
    forall k :: 0 <= k < |names| ==> !WritesAt(names[k], primal, i, j)
  }

  /** Extraction fails exactly when some matched name with value 1 has a
      character that is not a decimal digit. */
  lemma {:induction false} ExtractFails(names: seq<string>, primal: string -> int)
    ensures Extract(names, primal).Err? <==> exists k :: 0 <= k < |names| && Unreadable(names[k], primal)
  {
    if names != [] {
      var init := names[..|names| - 1];
      ExtractFails(init, primal);
      assert forall k :: 0 <= k < |init| ==> init[k] == names[k];
      if exists k :: 0 <= k < |names| && Unreadable(names[k], primal) {
        var k :| 0 <= k < |names| && Unreadable(names[k], primal);
        if k < |init| {
          assert Unreadable(init[k], primal);
        }
      }
    }
  }

  /** A cell that no variable writes stays 0; a written cell holds the digit
      of one of the variables that write it. */
  lemma {:induction false} ExtractCells(names: seq<string>, primal: string -> int, i: int, j: int)
    requires Extract(names, primal).Ok? && InGrid(i, j)
    ensures Untouched(names, primal, i, j) ==> Extract(names, primal).value[i][j] == 0
    ensures !Untouched(names, primal, i, j) ==>
      exists k :: 0 <= k < |names| && WritesAt(names[k], primal, i, j) &&
        Extract(names, primal).value[i][j] == DigitOf(names[k])
  {
    if names != [] {
      var init := names[..|names| - 1];
      var last := names[|names| - 1];
      assert forall k :: 0 <= k < |init| ==> init[k] == names[k];
      ExtractCells(init, primal, i, j);
      if !WritesAt(last, primal, i, j) && !Untouched(names, primal, i, j) {
        var k :| 0 <= k < |names| && WritesAt(names[k], primal, i, j);
        assert k < |init| && WritesAt(init[k], primal, i, j);
      }
      if Untouched(names, primal, i, j) {
        assert Untouched(init, primal, i, j);
      }
    }
  }

  /** If every variable writing cell (i, j) writes digit d and one does, the
      cell holds d. */
  lemma ExtractAgreeingWriters(names: seq<string>, primal: string -> int, i: int, j: int, d: int, k0: int)
    requires Extract(names, primal).Ok? && InGrid(i, j)
    requires 0 <= k0 < |names| && WritesAt(names[k0], primal, i, j)
    requires forall k :: 0 <= k < |names| && WritesAt(names[k], primal, i, j) ==> DigitOf(names[k]) == d
    ensures Extract(names, primal).value[i][j] == d
  {
    ExtractCells(names, primal, i, j);
  }

  /** Appending a name of another shape, or one whose value is not 1,
      changes nothing. */
  lemma SkipsIdleNames(names: seq<string>, name: string, primal: string -> int)
    requires !Matches(name) || primal(name) != 1
    ensures Extract(names + [name], primal) == Extract(names, primal)
  {
    assert (names + [name])[..|names|] == names;
  }

  /** A row or column character '0' reads as index -1, which numpy takes
      as the last row or column: "v015" with value 1 writes 5 at (8, 0). */
  lemma ZeroIndexWraps()
    ensures Extract(["v015"], s => if s == "v015" then 1 else 0) == Ok(Write(Zero(), 8, 0, 5))
  {
    assert ["v015"][..0] == [];
  }
}
