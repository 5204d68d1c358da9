/** The constraint builder of solpoku.py (SudokuProblem._build_constraints):
    324 equalities "sum of 9 variables = 1" in four families of 81, in the
    order cells, columns, rows, 3x3 sectors. */
module Constraints {
  import opened Variables
  import opened Seqs

  /** A linear constraint lb <= sum of terms <= ub, every coefficient 1. */
  datatype Constraint = Constraint(terms: seq<Variable>, lb: int, ub: int)

  /** sum v{r}{c}* : the digits of cell (r, c). */
  function CellTerms(r: int, c: int): seq<Variable> {
    seq(9, k requires 0 <= k < 9 => Var(Triple(r, c, k + 1)))
  }

  /** sum v*{c}{n} : the rows of column c holding digit n. */
  function ColumnTerms(c: int, n: int): seq<Variable> {
    seq(9, k requires 0 <= k < 9 => Var(Triple(k + 1, c, n)))
  }

  /** sum v{r}*{n} : the columns of row r holding digit n. */
  function RowTerms(r: int, n: int): seq<Variable> {
    seq(9, k requires 0 <= k < 9 => Var(Triple(r, k + 1, n)))
  }

  /** The 3x3 sector (sr, sc), sr and sc in [0,3), holding digit n: the
      cells (r + sr*3, c + sc*3) for r, c in [1,3], r outermost. */
  function SectorTerms(sr: int, sc: int, n: int): seq<Variable> {
    seq(9, k requires 0 <= k < 9 => Var(Triple(k / 3 + 1 + sr * 3, k % 3 + 1 + sc * 3, n)))
  }

  /** The positions at which the loops of _build_constraints append. */
  function CellSlot(r: int, c: int): int { 9 * (r - 1) + (c - 1) }
  function ColumnSlot(c: int, n: int): int { 81 + 9 * (c - 1) + (n - 1) }
  function RowSlot(r: int, n: int): int { 162 + 9 * (r - 1) + (n - 1) }
  function SectorSlot(sr: int, sc: int, n: int): int { 243 + 27 * sr + 9 * sc + (n - 1) }

  /** The k-th constraint of the list, k in [0,324). */
  function ConstraintAt(k: int): Constraint
    requires 0 <= k < 324
  {
    var terms :=
      if k < 81 then CellTerms(k / 9 + 1, k % 9 + 1)
      else if k < 162 then ColumnTerms((k - 81) / 9 + 1, (k - 81) % 9 + 1)
      else if k < 243 then RowTerms((k - 162) / 9 + 1, (k - 162) % 9 + 1)
      else SectorTerms((k - 243) / 9 / 3, (k - 243) / 9 % 3, (k - 243) % 9 + 1);
    Constraint(terms, 1, 1)
  }

  /** The list that _build_constraints returns. */
  function AllConstraints(): (cs: seq<Constraint>)
    ensures |cs| == 324
  {
    seq(324, k requires 0 <= k < 324 => ConstraintAt(k))
  }

  /** The cell constraint of (r, c) sits at its slot. */
  lemma CellSlotContents(r: int, c: int)
    requires InRange(r) && InRange(c)
    ensures 0 <= CellSlot(r, c) < 81 && AllConstraints()[CellSlot(r, c)] == Constraint(CellTerms(r, c), 1, 1)
  {
    DivNine(r - 1, c - 1);
  }

  /** The column constraint of (c, n) sits at its slot. */
  lemma ColumnSlotContents(c: int, n: int)
    requires InRange(c) && InRange(n)
    ensures 81 <= ColumnSlot(c, n) < 162 && AllConstraints()[ColumnSlot(c, n)] == Constraint(ColumnTerms(c, n), 1, 1)
  {
    DivNine(c - 1, n - 1);
  }

  /** The row constraint of (r, n) sits at its slot. */
  lemma RowSlotContents(r: int, n: int)
    requires InRange(r) && InRange(n)
    ensures 162 <= RowSlot(r, n) < 243 && AllConstraints()[RowSlot(r, n)] == Constraint(RowTerms(r, n), 1, 1)
  {
    DivNine(r - 1, n - 1);
  }

  /** The sector constraint of (sr, sc, n) sits at its slot. */
  lemma SectorSlotContents(sr: int, sc: int, n: int)
    requires 0 <= sr < 3 && 0 <= sc < 3 && InRange(n)
    ensures 243 <= SectorSlot(sr, sc, n) < 324
    ensures AllConstraints()[SectorSlot(sr, sc, n)] == Constraint(SectorTerms(sr, sc, n), 1, 1)
  {
    DivNine(3 * sr + sc, n - 1);
    assert SectorSlot(sr, sc, n) - 243 == 9 * (3 * sr + sc) + (n - 1);
    assert (3 * sr + sc) / 3 == sr && (3 * sr + sc) % 3 == sc;
  }

  /** The dictionary of solpoku.py:35 as the loops use it: every name of a triple
      in [1,9]^3 is a key, mapped to that triple's variable. */
  ghost predicate Addressable(variables: map<string, Variable>) {
    forall t :: ValidTriple(t) ==> Name(t) in variables && variables[Name(t)] == Var(t)
  }

  /** Appending the constraint of slot s to the first s constraints gives
      the first s + 1. */
  lemma AppendAt(constraints: seq<Constraint>, s: int, terms: seq<Variable>)
    requires 0 <= s < 324 && constraints == AllConstraints()[..s]
    requires AllConstraints()[s] == Constraint(terms, 1, 1)
    ensures constraints + [Constraint(terms, 1, 1)] == AllConstraints()[..s + 1]
  {
  }

  /** The builder: the dictionary of the 729 variables, then the four loop
      blocks, each looking variables up by name and appending constraints. */
  method BuildConstraints() returns (constraints: seq<Constraint>)
    ensures constraints == AllConstraints()
  {
    var variables := VariableSpace();
    SpaceHasEveryTriple();
    constraints := [];
    constraints := AppendCells(variables, constraints);
    constraints := AppendColumns(variables, constraints);
    constraints := AppendRows(variables, constraints);
    constraints := AppendSectors(variables, constraints);
  }

  /** ## Cells: for r, c in product(range(1, 10)): sum over the digits. */
  method AppendCells(variables: map<string, Variable>, prefix: seq<Constraint>)
    returns (constraints: seq<Constraint>)
    requires Addressable(variables) && prefix == []
    ensures constraints == AllConstraints()[..81]
  {
    constraints := prefix;
    for r := 1 to 10
      invariant constraints == AllConstraints()[..CellSlot(r, 1)]
    {
      for c := 1 to 10
        invariant constraints == AllConstraints()[..CellSlot(r, c)]
      {
        var cellSum := seq(9, k requires 0 <= k < 9 => variables[Name(Triple(r, c, k + 1))]);
        CellSlotContents(r, c);
        assert cellSum == CellTerms(r, c);
        AppendAt(constraints, CellSlot(r, c), cellSum);
        constraints := constraints + [Constraint(cellSum, 1, 1)];
      }
    }
  }

  /** Columns: for c, n in product(range(1, 10)): sum over the rows. */
  method AppendColumns(variables: map<string, Variable>, prefix: seq<Constraint>)
    returns (constraints: seq<Constraint>)
    requires Addressable(variables) && prefix == AllConstraints()[..81]
    ensures constraints == AllConstraints()[..162]
  {
    constraints := prefix;
    for c := 1 to 10
      invariant constraints == AllConstraints()[..ColumnSlot(c, 1)]
    {
      for n := 1 to 10
        invariant constraints == AllConstraints()[..ColumnSlot(c, n)]
      {
        var colSum := seq(9, k requires 0 <= k < 9 => variables[Name(Triple(k + 1, c, n))]);
        ColumnSlotContents(c, n);
        assert colSum == ColumnTerms(c, n);
        AppendAt(constraints, ColumnSlot(c, n), colSum);
        constraints := constraints + [Constraint(colSum, 1, 1)];
      }
    }
  }

  /** Rows: for r, n in product(range(1, 10)): sum over the columns. */
  method AppendRows(variables: map<string, Variable>, prefix: seq<Constraint>)
    returns (constraints: seq<Constraint>)
    requires Addressable(variables) && prefix == AllConstraints()[..162]
    ensures constraints == AllConstraints()[..243]
  {
    constraints := prefix;
    for r := 1 to 10
      invariant constraints == AllConstraints()[..RowSlot(r, 1)]
    {
      for n := 1 to 10
        invariant constraints == AllConstraints()[..RowSlot(r, n)]
      {
        var rowSum := seq(9, k requires 0 <= k < 9 => variables[Name(Triple(r, k + 1, n))]);
        RowSlotContents(r, n);
        assert rowSum == RowTerms(r, n);
        AppendAt(constraints, RowSlot(r, n), rowSum);
        constraints := constraints + [Constraint(rowSum, 1, 1)];
      }
    }
  }

  /** ## Sectors: for sector_r, sector_c in product(range(3)), then each
      digit n: sum over the nine cells of the sector. */
  method AppendSectors(variables: map<string, Variable>, prefix: seq<Constraint>)
    returns (constraints: seq<Constraint>)
    requires Addressable(variables) && prefix == AllConstraints()[..243]
    ensures constraints == AllConstraints()
  {
    constraints := prefix;
    for sr := 0 to 3
      invariant constraints == AllConstraints()[..SectorSlot(sr, 0, 1)]
    {
      for sc := 0 to 3
        invariant constraints == AllConstraints()[..SectorSlot(sr, sc, 1)]
      {
        for n := 1 to 10
          invariant constraints == AllConstraints()[..SectorSlot(sr, sc, n)]
        {
          var secSum := seq(9, k requires 0 <= k < 9 =>
            variables[Name(Triple(k / 3 + 1 + sr * 3, k % 3 + 1 + sc * 3, n))]);
          SectorSlotContents(sr, sc, n);
          assert secSum == SectorTerms(sr, sc, n);
          AppendAt(constraints, SectorSlot(sr, sc, n), secSum);
          constraints := constraints + [Constraint(secSum, 1, 1)];
        }
      }
    }
    assert AllConstraints()[..324] == AllConstraints();
  }

  /** Division by 3 undoes "3 * q + s" for a remainder s in [0,3). */
  lemma DivThree(q: int, s: int)
    requires 0 <= s < 3
    ensures (3 * q + s) / 3 == q && (3 * q + s) % 3 == s
  {
  }

  /** The variable of a triple t is summed by the cell constraint of (r, c)
      exactly when t lies in cell (r, c). */
  lemma InCellTerms(t: Triple, r: int, c: int)
    requires ValidTriple(t)
    ensures Var(t) in CellTerms(r, c) <==> t.r == r && t.c == c
  {
    if Var(t) in CellTerms(r, c) {
      var k :| 0 <= k < 9 && CellTerms(r, c)[k] == Var(t);
      NameDetermines(t, Triple(r, c, k + 1));
    }
    if t.r == r && t.c == c {
      assert CellTerms(r, c)[t.n - 1] == Var(t);
    }
  }

  /** ... by the column constraint of (c, n) exactly when t is digit n in column c. */
  lemma InColumnTerms(t: Triple, c: int, n: int)
    requires ValidTriple(t)
    ensures Var(t) in ColumnTerms(c, n) <==> t.c == c && t.n == n
  {
    if Var(t) in ColumnTerms(c, n) {
      var k :| 0 <= k < 9 && ColumnTerms(c, n)[k] == Var(t);
      NameDetermines(t, Triple(k + 1, c, n));
    }
    if t.c == c && t.n == n {
      assert ColumnTerms(c, n)[t.r - 1] == Var(t);
    }
  }

  /** ... by the row constraint of (r, n) exactly when t is digit n in row r. */
  lemma InRowTerms(t: Triple, r: int, n: int)
    requires ValidTriple(t)
    ensures Var(t) in RowTerms(r, n) <==> t.r == r && t.n == n
  {
    if Var(t) in RowTerms(r, n) {
      var k :| 0 <= k < 9 && RowTerms(r, n)[k] == Var(t);
      NameDetermines(t, Triple(r, k + 1, n));
    }
    if t.r == r && t.n == n {
      assert RowTerms(r, n)[t.c - 1] == Var(t);
    }
  }

  /** ... by the sector constraint of (sr, sc, n) exactly when t is digit n in
      a cell of sector (sr, sc), the sector being ((r-1)/3, (c-1)/3): the nine
      sectors partition the 81 cells. */
  lemma InSectorTerms(t: Triple, sr: int, sc: int, n: int)
    requires ValidTriple(t)
    ensures Var(t) in SectorTerms(sr, sc, n) <==> (t.r - 1) / 3 == sr && (t.c - 1) / 3 == sc && t.n == n
  {
    var terms := SectorTerms(sr, sc, n);
    if Var(t) in terms {
      var k :| 0 <= k < 9 && terms[k] == Var(t);
      SectorTermAt(t, sr, sc, n, k);
    }
    if (t.r - 1) / 3 == sr && (t.c - 1) / 3 == sc && t.n == n {
      var i, j := (t.r - 1) % 3, (t.c - 1) % 3;
      DivThree(i, j);
      assert terms[3 * i + j] == Var(t);
    }
  }

  lemma SectorTermAt(t: Triple, sr: int, sc: int, n: int, k: int)
    requires ValidTriple(t) && 0 <= k < 9 && SectorTerms(sr, sc, n)[k] == Var(t)
    ensures (t.r - 1) / 3 == sr && (t.c - 1) / 3 == sc && t.n == n
    ensures k == 3 * ((t.r - 1) % 3) + (t.c - 1) % 3
  {
    NameDetermines(t, Triple(k / 3 + 1 + sr * 3, k % 3 + 1 + sc * 3, n));
    DivThree(sr, k / 3);
    DivThree(sc, k % 3);
  }

  /** Exact cover: the variable of a triple is summed by exactly four of the
      324 constraints, one in each family, at the slots the loops give them. */
  lemma ExactCover(t: Triple, k: int)
    requires ValidTriple(t) && 0 <= k < 324
    ensures Var(t) in AllConstraints()[k].terms <==>
      k == CellSlot(t.r, t.c) || k == ColumnSlot(t.c, t.n) ||
      k == RowSlot(t.r, t.n) || k == SectorSlot((t.r - 1) / 3, (t.c - 1) / 3, t.n)
  {
    if k < 81 {
      CellFamily(t, k);
    } else if k < 162 {
      ColumnFamily(t, k - 81);
    } else if k < 243 {
      RowFamily(t, k - 162);
    } else {
      SectorFamily(t, k - 243);
    }
  }

  lemma CellFamily(t: Triple, q: int)
    requires ValidTriple(t) && 0 <= q < 81
    ensures Var(t) in AllConstraints()[q].terms <==> q == CellSlot(t.r, t.c)
  {
    assert q == 9 * (q / 9) + q % 9;
    InCellTerms(t, q / 9 + 1, q % 9 + 1);
    DivNine(t.r - 1, t.c - 1);
  }

  lemma ColumnFamily(t: Triple, q: int)
    requires ValidTriple(t) && 0 <= q < 81
    ensures Var(t) in AllConstraints()[81 + q].terms <==> 81 + q == ColumnSlot(t.c, t.n)
  {
    assert q == 9 * (q / 9) + q % 9;
    assert AllConstraints()[81 + q].terms == ColumnTerms(q / 9 + 1, q % 9 + 1);
    InColumnTerms(t, q / 9 + 1, q % 9 + 1);
    DivNine(t.c - 1, t.n - 1);
  }

  lemma RowFamily(t: Triple, q: int)
    requires ValidTriple(t) && 0 <= q < 81
    ensures Var(t) in AllConstraints()[162 + q].terms <==> 162 + q == RowSlot(t.r, t.n)
  {
    assert q == 9 * (q / 9) + q % 9;
    assert AllConstraints()[162 + q].terms == RowTerms(q / 9 + 1, q % 9 + 1);
    InRowTerms(t, q / 9 + 1, q % 9 + 1);
    DivNine(t.r - 1, t.n - 1);
  }

  lemma SectorFamily(t: Triple, q: int)
    requires ValidTriple(t) && 0 <= q < 81
    ensures Var(t) in AllConstraints()[243 + q].terms <==>
      243 + q == SectorSlot((t.r - 1) / 3, (t.c - 1) / 3, t.n)
  {
    var a := q / 9;
    assert q == 9 * a + q % 9;
    assert a == 3 * (a / 3) + a % 3;
    assert AllConstraints()[243 + q].terms == SectorTerms(a / 3, a % 3, q % 9 + 1);
    InSectorTerms(t, a / 3, a % 3, q % 9 + 1);
    var sr, sc := (t.r - 1) / 3, (t.c - 1) / 3;
    DivNine(3 * sr + sc, t.n - 1);
    DivThree(sr, sc);
  }

  /** Every constraint reads lb = ub = 1 over nine distinct model variables. */
  lemma ConstraintShape(k: int)
    requires 0 <= k < 324
    ensures AllConstraints()[k].lb == 1 && AllConstraints()[k].ub == 1
    ensures |AllConstraints()[k].terms| == 9 && Distinct(AllConstraints()[k].terms)
    ensures forall m :: 0 <= m < 9 ==> AllConstraints()[k].terms[m] in ModelVariables()
  {
    var terms := AllConstraints()[k].terms;
    forall m | 0 <= m < 9 ensures terms[m] in ModelVariables() && terms[m] == Var(TermTriple(k, m)) {
      TermTripleValid(k, m);
      VariableAt(TermTriple(k, m));
    }
    forall i, j | 0 <= i < 9 && 0 <= j < 9 && terms[i] == terms[j]
      ensures i == j
    {
      TermTripleValid(k, i);
      TermTripleValid(k, j);
      NameInjective(TermTriple(k, i), TermTriple(k, j));
    }
  }

  /** The triple of the m-th term of the k-th constraint. */
  function TermTriple(k: int, m: int): Triple
    requires 0 <= k < 324 && 0 <= m < 9
  {
    if k < 81 then Triple(k / 9 + 1, k % 9 + 1, m + 1)
    else if k < 162 then Triple(m + 1, (k - 81) / 9 + 1, (k - 81) % 9 + 1)
    else if k < 243 then Triple((k - 162) / 9 + 1, m + 1, (k - 162) % 9 + 1)
    else Triple(m / 3 + 1 + (k - 243) / 9 / 3 * 3, m % 3 + 1 + (k - 243) / 9 % 3 * 3, (k - 243) % 9 + 1)
  }

  lemma TermTripleValid(k: int, m: int)
    requires 0 <= k < 324 && 0 <= m < 9
    ensures ValidTriple(TermTriple(k, m)) && AllConstraints()[k].terms[m] == Var(TermTriple(k, m))
    ensures forall j :: 0 <= j < 9 && j != m ==> TermTriple(k, j) != TermTriple(k, m)
  {
    assert k >= 243 ==> 0 <= (k - 243) / 9 / 3 < 3;
    assert m == 3 * (m / 3) + m % 3;
    forall j | 0 <= j < 9 && j != m ensures TermTriple(k, j) != TermTriple(k, m) {
      assert j == 3 * (j / 3) + j % 3;
    }
  }

  /** How many constraints of cs have v among their terms. */
  function Occurrences(v: Variable, cs: seq<Constraint>): nat {
    if cs == [] then 0
    else Occurrences(v, cs[..|cs| - 1]) + (if v in cs[|cs| - 1].terms then 1 else 0)
  }

  function Below(x: int, m: int): nat {
    if x < m then 1 else 0
  }

  /** The first m constraints hold the variable of t once per slot of t below m. */
  lemma {:induction false} OccurrencesPrefix(t: Triple, m: int)
    requires ValidTriple(t) && 0 <= m <= 324
    ensures Occurrences(Var(t), AllConstraints()[..m]) ==
      Below(CellSlot(t.r, t.c), m) + Below(ColumnSlot(t.c, t.n), m) +
      Below(RowSlot(t.r, t.n), m) + Below(SectorSlot((t.r - 1) / 3, (t.c - 1) / 3, t.n), m)
  {
    if m > 0 {
      assert AllConstraints()[..m][..m - 1] == AllConstraints()[..m - 1];
      OccurrencesPrefix(t, m - 1);
      ExactCover(t, m - 1);
    }
  }

  /** Every variable occurs in exactly four of the 324 constraints. */
  lemma CoveredFourTimes(t: Triple)
    requires ValidTriple(t)
    ensures Occurrences(Var(t), AllConstraints()) == 4
  {
    OccurrencesPrefix(t, 324);
    var sr, sc := (t.r - 1) / 3, (t.c - 1) / 3;
    assert 0 <= sr < 3 && 0 <= sc < 3;
    assert SectorSlot(sr, sc, t.n) < 324;
    assert AllConstraints()[..324] == AllConstraints();
  }

  /** The value of the linear expression sum(terms) under the solver's values. */
  function Sum(terms: seq<Variable>, primal: string -> int): int {
    if terms == [] then 0 else primal(terms[0].name) + Sum(terms[1..], primal)
  }

  /** lb <= sum(terms) <= ub under the solver's values. */
  predicate Satisfied(con: Constraint, primal: string -> int) {
    con.lb <= Sum(con.terms, primal) <= con.ub
  }

  /** Every term has the value 0 or 1. */
  predicate Binary(terms: seq<Variable>, primal: string -> int) {
    forall k :: 0 <= k < |terms| ==> primal(terms[k].name) == 0 || primal(terms[k].name) == 1
  }

  /** The term at position k is the one term whose value is 1. */
  predicate OnlyOneAt(terms: seq<Variable>, primal: string -> int, k: int) {
    && 0 <= k < |terms| && primal(terms[k].name) == 1
    && forall j :: 0 <= j < |terms| && j != k ==> primal(terms[j].name) == 0
  }

  /** A 0/1 sum lies between 0 and the number of terms, is 0 exactly when
      every term is 0 and is the number of terms exactly when every term is 1. */
  lemma {:induction false} SumBounds(terms: seq<Variable>, primal: string -> int)
    requires Binary(terms, primal)
    ensures 0 <= Sum(terms, primal) <= |terms|
    ensures Sum(terms, primal) == 0 <==> forall k :: 0 <= k < |terms| ==> primal(terms[k].name) == 0
    ensures Sum(terms, primal) == |terms| <==> forall k :: 0 <= k < |terms| ==> primal(terms[k].name) == 1
  {
    if terms != [] {
      var rest := terms[1..];
      assert forall k :: 0 <= k < |rest| ==> rest[k] == terms[k + 1];
      SumBounds(rest, primal);
      assert forall k :: 1 <= k < |terms| ==> terms[k] == rest[k - 1];
    }
  }

  /** A 0/1 sum equals 1 exactly when one term is 1 and every other is 0. */
  lemma {:induction false} SumIsOne(terms: seq<Variable>, primal: string -> int)
    requires Binary(terms, primal)
    ensures Sum(terms, primal) == 1 <==> exists k :: OnlyOneAt(terms, primal, k)
  {
    if terms != [] {
      var rest := terms[1..];
      assert forall k :: 0 <= k < |rest| ==> rest[k] == terms[k + 1];
      assert forall k :: 1 <= k < |terms| ==> terms[k] == rest[k - 1];
      SumIsOne(rest, primal);
      SumBounds(rest, primal);
      if Sum(terms, primal) == 1 {
        if primal(terms[0].name) == 1 {
          assert OnlyOneAt(terms, primal, 0);
        } else {
          var k :| OnlyOneAt(rest, primal, k);
          assert OnlyOneAt(terms, primal, k + 1);
        }
      }
      if exists k :: OnlyOneAt(terms, primal, k) {
        var k :| OnlyOneAt(terms, primal, k);
        if k > 0 {
          assert OnlyOneAt(rest, primal, k - 1);
        }
      }
    }
  }
}
