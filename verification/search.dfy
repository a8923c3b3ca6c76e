/** Window matching: the specification of `sequence::find` and `sequence::rfind`. */
module Search {
  import opened Sizes
  import opened CharTraits

  /** The `|needle|`-long window of `hay` that starts at `i` matches `needle` element by element. */
  predicate MatchesAt(hay: seq<char>, needle: seq<char>, i: nat) {
    i + |needle| <= |hay| && forall k :: 0 <= k < |needle| ==> Eq(hay[i + k], needle[k])
  }

  /** The smallest `i` in `[lo, hi)` at which `needle` matches, or `NPOS` when there is none. */
  function FirstMatch(hay: seq<char>, needle: seq<char>, lo: nat, hi: nat): (r: SizeT)
    requires hi <= NPOS
    decreases hi - lo
  {
    if lo >= hi then NPOS
    else if MatchesAt(hay, needle, lo) then lo
    else FirstMatch(hay, needle, lo + 1, hi)
  }

  /** The largest `i` in `[lo, hi)` at which `needle` matches, or `NPOS` when there is none. */
  function LastMatch(hay: seq<char>, needle: seq<char>, lo: nat, hi: nat): (r: SizeT)
    requires hi <= NPOS
    decreases hi
  {
    if lo >= hi then NPOS
    else if MatchesAt(hay, needle, hi - 1) then hi - 1
    else LastMatch(hay, needle, lo, hi - 1)
  }

  /**
   * Over a range below `NPOS`, `FirstMatch` is the least matching index in the range,
   * and it is `NPOS` exactly when no index of the range matches.
   */
  lemma {:induction false} FirstMatchIsLeast(hay: seq<char>, needle: seq<char>, lo: nat, hi: nat)
    requires hi <= NPOS
    ensures var r := FirstMatch(hay, needle, lo, hi);
      (r == NPOS ==> forall i :: lo <= i < hi ==> !MatchesAt(hay, needle, i)) &&
      (r != NPOS ==>
         lo <= r < hi && MatchesAt(hay, needle, r) &&
         forall i :: lo <= i < r ==> !MatchesAt(hay, needle, i))
    decreases hi - lo
  {
    if lo < hi && !MatchesAt(hay, needle, lo) {
      FirstMatchIsLeast(hay, needle, lo + 1, hi);
    }
  }

  /**
   * Over a range below `NPOS`, `LastMatch` is the greatest matching index in the range,
   * and it is `NPOS` exactly when no index of the range matches.
   */
  lemma {:induction false} LastMatchIsGreatest(hay: seq<char>, needle: seq<char>, lo: nat, hi: nat)
    requires hi <= NPOS
    ensures var r := LastMatch(hay, needle, lo, hi);
      (r == NPOS ==> forall i :: lo <= i < hi ==> !MatchesAt(hay, needle, i)) &&
      (r != NPOS ==>
         lo <= r < hi && MatchesAt(hay, needle, r) &&
         forall i :: r < i < hi ==> !MatchesAt(hay, needle, i))
    decreases hi
  {
    if lo < hi && !MatchesAt(hay, needle, hi - 1) {
      LastMatchIsGreatest(hay, needle, lo, hi - 1);
    }
  }

  /**
   * Searching again just after a match never reports that match again: the next
   * search yields a later match or `NPOS`.
   */
  lemma FirstMatchProgress(hay: seq<char>, needle: seq<char>, lo: nat, hi: nat)
    requires hi <= NPOS
    requires FirstMatch(hay, needle, lo, hi) != NPOS
    ensures var r := FirstMatch(hay, needle, lo, hi);
      var next := FirstMatch(hay, needle, r + 1, hi);
      next != r && (next == NPOS || r < next)
  {
    var r := FirstMatch(hay, needle, lo, hi);
    FirstMatchIsLeast(hay, needle, lo, hi);
    FirstMatchIsLeast(hay, needle, r + 1, hi);
  }

  /** A needle that matches somewhere in the range is found by both directions of the search. */
  lemma MatchIsFound(hay: seq<char>, needle: seq<char>, lo: nat, hi: nat, i: nat)
    requires lo <= i < hi <= NPOS && MatchesAt(hay, needle, i)
    ensures FirstMatch(hay, needle, lo, hi) <= i <= LastMatch(hay, needle, lo, hi) < NPOS
  {
    FirstMatchIsLeast(hay, needle, lo, hi);
    LastMatchIsGreatest(hay, needle, lo, hi);
  }
}
