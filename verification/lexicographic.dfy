/** Three-way lexicographic comparison of element runs: the specification of `sequence::compare`. */
module Lexicographic {
  import opened CharTraits

  /**
   * Compares `a[i..]` with `b[i..]`: the first position where one element is `Lt`
   * the other decides; otherwise the shorter run is the smaller one.
   */
  function LexFrom(a: seq<char>, b: seq<char>, i: nat): (r: int)
    requires i <= |a| && i <= |b|
    ensures r == -1 || r == 0 || r == 1
    decreases |a| - i
  {
    if i == |a| && i == |b| then 0
    else if i == |a| then -1
    else if i == |b| then 1
    else if Lt(a[i], b[i]) then -1
    else if Lt(b[i], a[i]) then 1
    else LexFrom(a, b, i + 1)
  }

  /** Three-way comparison of two whole runs, with values -1, 0 and 1 only. */
  function Lex(a: seq<char>, b: seq<char>): (r: int)
    ensures r == -1 || r == 0 || r == 1
  {
    LexFrom(a, b, 0)
  }

  lemma {:induction false} LexFromAntisymmetric(a: seq<char>, b: seq<char>, i: nat)
    requires i <= |a| && i <= |b|
    ensures LexFrom(a, b, i) == -LexFrom(b, a, i)
    decreases |a| - i
  {
    if i < |a| && i < |b| && a[i] == b[i] {
      LexFromAntisymmetric(a, b, i + 1);
    }
  }

  /** Swapping the operands negates the comparison. */
  lemma LexAntisymmetric(a: seq<char>, b: seq<char>)
    ensures Lex(a, b) == -Lex(b, a)
  {
    LexFromAntisymmetric(a, b, 0);
  }

  lemma {:induction false} LexFromZero(a: seq<char>, b: seq<char>, i: nat)
    requires i <= |a| && i <= |b|
    ensures LexFrom(a, b, i) == 0 <==> |a| == |b| && forall k :: i <= k < |a| ==> a[k] == b[k]
    decreases |a| - i
  {
    if i < |a| && i < |b| && a[i] == b[i] {
      LexFromZero(a, b, i + 1);
    }
  }

  /** The comparison is 0 exactly when the two runs have the same length and elements. */
  lemma LexZeroIffEqual(a: seq<char>, b: seq<char>)
    ensures Lex(a, b) == 0 <==> a == b
  {
    LexFromZero(a, b, 0);
  }

  /** Every run compares equal to itself. */
  lemma LexReflexive(a: seq<char>)
    ensures Lex(a, a) == 0
  {
    LexZeroIffEqual(a, a);
  }

  lemma {:induction false} LexFromPrefix(a: seq<char>, b: seq<char>, i: nat)
    requires i <= |a| < |b|
    requires forall k :: i <= k < |a| ==> a[k] == b[k]
    ensures LexFrom(a, b, i) == -1
    decreases |a| - i
  {
    if i < |a| {
      LexFromPrefix(a, b, i + 1);
    }
  }

  /** A strict prefix compares as less than the longer run. */
  lemma LexStrictPrefix(a: seq<char>, b: seq<char>)
    requires |a| < |b| && a == b[..|a|]
    ensures Lex(a, b) == -1
  {
    assert forall k :: 0 <= k < |a| ==> a[k] == b[..|a|][k];
    LexFromPrefix(a, b, 0);
  }

  lemma {:induction false} LexFromTransitive(a: seq<char>, b: seq<char>, c: seq<char>, i: nat)
    requires i <= |a| && i <= |b| && i <= |c|
    requires LexFrom(a, b, i) == -1 && LexFrom(b, c, i) == -1
    ensures LexFrom(a, c, i) == -1
    decreases |a| - i
  {
    if i < |a| && i < |b| && i < |c| && a[i] == b[i] && b[i] == c[i] {
      LexFromTransitive(a, b, c, i + 1);
    }
  }

  /** "Less than" by this comparison is transitive, so it is a strict total order on runs. */
  lemma LexTransitive(a: seq<char>, b: seq<char>, c: seq<char>)
    requires Lex(a, b) == -1 && Lex(b, c) == -1
    ensures Lex(a, c) == -1
  {
    LexFromTransitive(a, b, c, 0);
  }
}
