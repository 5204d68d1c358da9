/** The variable space of solpoku.py: one 0/1 integer variable per triple
    (row, column, digit) in [1,9]^3, named "v{r}{c}{n}", and the decoding of
    such a name by matching it character by character. */
module Variables {
  import opened Wrappers
  import opened Decimal
  import opened Seqs

  /** The key of one decision variable: "cell (r, c) holds digit n". */
  datatype Triple = Triple(r: int, c: int, n: int)

  predicate InRange(x: int) {
    1 <= x <= 9
  }

  predicate ValidTriple(t: Triple) {
    InRange(t.r) && InRange(t.c) && InRange(t.n)
  }

  /** A model variable: its name and its integer bounds. */
  datatype Variable = Variable(name: string, lb: int, ub: int)

  /** The f-string "v{x}{y}{z}" for any three integers. */
  function VarName(x: int, y: int, z: int): string {
    "v" + IntString(x) + IntString(y) + IntString(z)
  }

  /** The name of the variable of triple t. */
  function Name(t: Triple): string {
    VarName(t.r, t.c, t.n)
  }

  /** The variable of triple t, with the bounds lb = 0 and ub = 1. */
  function Var(t: Triple): Variable {
    Variable(Name(t), 0, 1)
  }

  /** The pattern ["v", r, c, n] followed by int() of each of the three
      characters: None when the name has another shape or a character that
      is not a decimal digit. */
  function Parse(s: string): Option<Triple> {
    if |s| == 4 && s[0] == 'v' then
      match (DigitValue(s[1]), DigitValue(s[2]), DigitValue(s[3]))
      case (Some(r), Some(c), Some(n)) => Some(Triple(r, c, n))
      case _ => None
    else None
  }

  /** A name that Parse decodes to a triple in [1,9]^3. */
  predicate IsVariableName(s: string) {
    Parse(s).Some? && ValidTriple(Parse(s).value)
  }

  /** The triples in the order of it.product(range(1, 10), repeat=3). */
  function TripleAt(k: int): Triple
    requires 0 <= k < 729
  {
    Triple(k / 9 / 9 + 1, k / 9 % 9 + 1, k % 9 + 1)
  }

  /** The position of a triple in that order. */
  function IndexOf(t: Triple): int {
    81 * (t.r - 1) + 9 * (t.c - 1) + (t.n - 1)
  }

  /** Division by 9 undoes "9 * q + s" for a remainder s in [0,9). */
  lemma DivNine(q: int, s: int)
    requires 0 <= s < 9
    ensures (9 * q + s) / 9 == q && (9 * q + s) % 9 == s
  {
  }

  /** Positions and triples correspond one to one. */
  lemma TripleIndex(k: int, t: Triple)
    requires 0 <= k < 729 && ValidTriple(t)
    ensures ValidTriple(TripleAt(k)) && IndexOf(TripleAt(k)) == k
    ensures 0 <= IndexOf(t) < 729 && TripleAt(IndexOf(t)) == t
  {
    var q := k / 9;
    assert k == 9 * q + k % 9;
    assert q == 9 * (q / 9) + q % 9;
    DivNine(9 * (t.r - 1) + (t.c - 1), t.n - 1);
    DivNine(t.r - 1, t.c - 1);
    assert IndexOf(t) == 9 * (9 * (t.r - 1) + (t.c - 1)) + (t.n - 1);
  }

  /** Names of triples in [1,9]^3 have four characters and decode back. */
  lemma {:induction false} NameRoundTrip(t: Triple)
    requires ValidTriple(t)
    ensures |Name(t)| == 4 && Name(t)[0] == 'v'
    ensures Name(t) == ['v', DigitChar(t.r), DigitChar(t.c), DigitChar(t.n)]
    ensures Parse(Name(t)) == Some(t)
    ensures IsVariableName(Name(t))
  {
    IntStringSingleDigit(t.r);
    IntStringSingleDigit(t.c);
    IntStringSingleDigit(t.n);
  }

  /** Whatever Parse accepts is the f-string of the triple it returns. */
  lemma {:induction false} ParseInverse(s: string)
    requires Parse(s).Some?
    ensures Name(Parse(s).value) == s
  {
    var t := Parse(s).value;
    IntStringSingleDigit(t.r);
    IntStringSingleDigit(t.c);
    IntStringSingleDigit(t.n);
    assert Name(t) == ['v', s[1], s[2], s[3]];
  }

  /** A name of a triple in [1,9]^3 is the name of no other triple at all. */
  lemma NameDetermines(t: Triple, u: Triple)
    requires ValidTriple(t) && Name(u) == Name(t)
    ensures u == t
  {
    NameRoundTrip(t);
    VarNameMatches(u.r, u.c, u.n);
  }

  /** Two triples of [1,9]^3 with the same name are the same triple. */
  lemma NameInjective(t1: Triple, t2: Triple)
    requires ValidTriple(t1) && ValidTriple(t2)
    ensures Name(t1) == Name(t2) <==> t1 == t2
    ensures Var(t1) == Var(t2) <==> t1 == t2
  {
    NameRoundTrip(t1);
    NameRoundTrip(t2);
  }

  /** An f-string "v{x}{y}{z}" names a model variable exactly when x, y and
      z are all in [1,9]; it then names the variable of (x, y, z). */
  lemma {:induction false} VarNameMatches(x: int, y: int, z: int)
    ensures IsVariableName(VarName(x, y, z)) <==> InRange(x) && InRange(y) && InRange(z)
    ensures Parse(VarName(x, y, z)).Some? ==> Parse(VarName(x, y, z)) == Some(Triple(x, y, z))
  {
    IntStringSingleDigit(x);
    IntStringSingleDigit(y);
    IntStringSingleDigit(z);
    var s := VarName(x, y, z);
    if 0 <= x <= 9 && 0 <= y <= 9 && 0 <= z <= 9 {
      assert s == ['v', DigitChar(x), DigitChar(y), DigitChar(z)];
    } else {
      assert |s| > 4;
    }
  }

  /** The names of the 729 variables, in creation order. */
  function VariableNames(): seq<string> {
    seq(729, k requires 0 <= k < 729 => Name(TripleAt(k)))
  }

  /** The 729 variables of the model, in creation order. */
  function ModelVariables(): seq<Variable> {
    seq(729, k requires 0 <= k < 729 => Var(TripleAt(k)))
  }

  /** The names of a sequence of variables. */
  function NamesOf(vs: seq<Variable>): (names: seq<string>)
    ensures |names| == |vs|
    ensures forall k :: 0 <= k < |vs| ==> names[k] == vs[k].name
  {
    seq(|vs|, k requires 0 <= k < |vs| => vs[k].name)
  }

  /** The 729 names are pairwise distinct. */
  lemma VariableNamesDistinct()
    ensures |VariableNames()| == 729 && Distinct(VariableNames())
  {
    var names := VariableNames();
    forall i, j | 0 <= i < 729 && 0 <= j < 729 && i != j
      ensures names[i] != names[j]
    {
      TripleIndex(i, TripleAt(i));
      TripleIndex(j, TripleAt(j));
      NameInjective(TripleAt(i), TripleAt(j));
    }
  }

  /** The 729 variables are pairwise distinct and carry the 729 names. */
  lemma ModelVariablesDistinct()
    ensures |ModelVariables()| == 729 && Distinct(ModelVariables())
    ensures NamesOf(ModelVariables()) == VariableNames()
  {
    VariableNamesDistinct();
    var vs := ModelVariables();
    forall i, j | 0 <= i < 729 && 0 <= j < 729 && i != j
      ensures vs[i] != vs[j]
    {
      assert vs[i].name == VariableNames()[i];
      assert vs[j].name == VariableNames()[j];
    }
  }

  /** Each triple of [1,9]^3 has its name and its variable at its position. */
  lemma VariableAt(t: Triple)
    requires ValidTriple(t)
    ensures 0 <= IndexOf(t) < 729
    ensures VariableNames()[IndexOf(t)] == Name(t) && ModelVariables()[IndexOf(t)] == Var(t)
  {
    var k := IndexOf(t);
    TripleOfIndex(t);
    NameAt(k);
  }

  /** A triple of [1,9]^3 is the triple at its own position. */
  lemma TripleOfIndex(t: Triple)
    requires ValidTriple(t)
    ensures 0 <= IndexOf(t) < 729 && TripleAt(IndexOf(t)) == t
  {
    TripleIndex(0, t);
  }

  /** Position k holds the name and the variable of the k-th triple. */
  lemma NameAt(k: int)
    requires 0 <= k < 729
    ensures VariableNames()[k] == Name(TripleAt(k)) && ModelVariables()[k] == Var(TripleAt(k))
  {
  }

  /** Every model variable is the variable of a triple in [1,9]^3. */
  lemma ModelVariablesValid(k: int)
    requires 0 <= k < 729
    ensures ValidTriple(TripleAt(k)) && ModelVariables()[k] == Var(TripleAt(k))
    ensures IsVariableName(ModelVariables()[k].name)
  {
    NameRoundTrip(TripleAt(k));
  }

  /** The dictionary {name: Variable(name, lb=0, ub=1)} built at solpoku.py:35. */
  function VariableSpace(): map<string, Variable> {
    map s | s in VariableNames() :: Variable(s, 0, 1)
  }

  /** The dictionary maps the name of every triple of [1,9]^3 to its variable. */
  lemma SpaceHasEveryTriple()
    ensures forall t :: ValidTriple(t) ==> Name(t) in VariableSpace() && VariableSpace()[Name(t)] == Var(t)
  {
    forall t | ValidTriple(t) ensures Name(t) in VariableSpace() && VariableSpace()[Name(t)] == Var(t) {
      VariableAt(t);
    }
  }

  /** Its keys are exactly the names Parse decodes to a triple of [1,9]^3. */
  lemma SpaceKeys()
    ensures forall s :: s in VariableSpace() <==> IsVariableName(s)
  {
    forall s ensures s in VariableSpace() <==> IsVariableName(s) {
      if s in VariableSpace() {
        var k :| 0 <= k < 729 && VariableNames()[k] == s;
        ModelVariablesValid(k);
      }
      if IsVariableName(s) {
        ParseInverse(s);
        VariableAt(Parse(s).value);
      }
    }
  }

  /** It has 729 entries. */
  lemma SpaceSize()
    ensures |VariableSpace()| == 729
  {
    assert VariableSpace().Keys == set s | s in VariableNames();
    VariableNamesDistinct();
    DistinctCardinality(VariableNames());
  }
}
