/** Facts about sequences without repeated elements. */
module Seqs {

  /** No element occurs at two positions of s. */
  predicate Distinct<T(==)>(s: seq<T>) {
    forall i, j :: 0 <= i < |s| && 0 <= j < |s| && i != j ==> s[i] != s[j]
  }

  /** The set of elements of a repetition-free sequence has one element per position. */
  lemma {:induction false} DistinctCardinality<T>(s: seq<T>)
    requires Distinct(s)
    ensures |set x | x in s| == |s|
  {
    if s != [] {
      var rest := s[1..];
      assert Distinct(rest) by {
        forall i, j | 0 <= i < |rest| && 0 <= j < |rest| && i != j
          ensures rest[i] != rest[j]
        {
          assert rest[i] == s[i + 1] && rest[j] == s[j + 1];
        }
      }
      DistinctCardinality(rest);
      assert s[0] !in rest by {
        forall i | 0 <= i < |rest| ensures rest[i] != s[0] {
          assert rest[i] == s[i + 1];
        }
      }
      assert (set x | x in s) == {s[0]} + (set x | x in rest) by {
        assert s == [s[0]] + rest;
      }
    }
  }
}
