/**
 * The index guards of `sequence.h` in `size_t` arithmetic, each as written and as
 * evidently intended, with the inputs on which the two part ways.
 */
module Guards {
  import opened Sizes
  import opened Search

  // ---- subseq (sequence.h:147-152) ----

  /**
   * `pos >= length || pos + count - 1 > length`, evaluated in `size_t`: true when `subseq`
   * throws. It rejects every `pos` outside the view and accepts every non-empty range
   * inside it.
   */
  predicate SubseqRejectsAsWritten(pos: SizeT, count: SizeT, length: SizeT): (r: bool)
    ensures pos >= length ==> r
    ensures pos < length && 1 <= count && pos + count <= length ==> !r
  {
    pos >= length || Wrap(pos + count - 1) > length
  }

  /** The number of elements `subseq(pos, count)` is meant to cover: `npos` means "the rest of the view". */
  function SubseqCount(pos: SizeT, count: SizeT, length: SizeT): SizeT
    requires pos <= length
  {
    if count == NPOS then length - pos else count
  }

  /**
   * The intended guard: `subseq` throws when `pos` is not in the view or the range leaves
   * it. Every range it accepts lies inside the view, and `count == npos` is accepted at
   * every `pos` inside the view.
   */
  predicate SubseqRejects(pos: SizeT, count: SizeT, length: SizeT): (r: bool)
    ensures !r ==> pos < length && pos + SubseqCount(pos, count, length) <= length
    ensures pos < length && count == NPOS ==> !r
  {
    pos >= length || SubseqCount(pos, count, length) > length - pos
  }

  /**
   * Exactly what the guard as written accepts, for a `pos` inside a view no larger than
   * an object can be: the ranges that end at most ONE PAST the view's end, and every
   * range whose end `pos + count` reaches 2^64 + 1 and wraps around (`count == npos`
   * for every `pos >= 2` among them). The empty range at position 0 is rejected.
   */
  lemma SubseqAsWrittenAccepts(pos: SizeT, count: SizeT, length: SizeT)
    requires pos < length <= PTRDIFF_MAX
    ensures !SubseqRejectsAsWritten(pos, count, length) <==>
      (1 <= pos + count <= length + 1) || SIZE_LIMIT + 1 <= pos + count
  {
    var x := pos + count - 1;
    if x < 0 {
      assert Wrap(x) == NPOS;
    } else if x < SIZE_LIMIT {
      assert Wrap(x) == x;
    } else {
      assert Wrap(x) == x - SIZE_LIMIT;
    }
  }

  /** The guard as written lets through a range that ends one element past the view. */
  lemma SubseqOnePastEnd(pos: SizeT, length: SizeT)
    requires pos < length <= PTRDIFF_MAX
    ensures !SubseqRejectsAsWritten(pos, length - pos + 1, length)
    ensures SubseqRejects(pos, length - pos + 1, length)
  {
    SubseqAsWrittenAccepts(pos, length - pos + 1, length);
  }

  /** The guard as written rejects `subseq(0, 0)` and, with both defaults, `subseq()`. */
  lemma SubseqAtStartRejected(length: SizeT)
    requires 0 < length <= PTRDIFF_MAX
    ensures SubseqRejectsAsWritten(0, 0, length) && !SubseqRejects(0, 0, length)
    ensures SubseqRejectsAsWritten(0, NPOS, length) && !SubseqRejects(0, NPOS, length)
  {
    SubseqAsWrittenAccepts(0, 0, length);
    SubseqAsWrittenAccepts(0, NPOS, length);
  }

  /**
   * With `count == npos` and `pos >= 2` the guard as written wraps around and accepts.
   * The view `sequence(seq_begin + pos, npos)` it then builds (sequence.h:151) satisfies
   * no `(s, count)` constructor's requirement: no buffer a view may refer to holds
   * `npos` elements from `seq_begin + pos` on. Only the first conclusion depends on
   * `pos >= 2`; the second holds for every offset.
   */
  lemma SubseqNposOverrun(seqBegin: nat, pos: SizeT, length: SizeT)
    requires 2 <= pos < length <= PTRDIFF_MAX
    ensures !SubseqRejectsAsWritten(pos, NPOS, length)
    ensures forall s: seq<char> :: |s| <= PTRDIFF_MAX ==> seqBegin + pos + NPOS > |s|
  {
    assert Wrap(pos + NPOS - 1) == pos - 2;
  }

  // ---- find / rfind loop bound (sequence.h:157, 174) ----

  /** `len1 - len2 + 1` in `size_t`: one past the last window start the search loops try. */
  function FindLoopBound(len1: SizeT, len2: SizeT): (b: SizeT)
    ensures len1 < NPOS && len2 <= len1 + 1 ==> b == len1 + 1 - len2
  {
    Wrap(len1 - len2 + 1)
  }

  /**
   * A needle longer than the view plus one makes the bound wrap to a value beyond the
   * view: the loop then starts windows whose last element lies past the view's end.
   */
  lemma FindLoopBoundUnderflows(len1: SizeT, len2: SizeT)
    requires len1 <= PTRDIFF_MAX && len1 + 1 < len2
    ensures FindLoopBound(len1, len2) == SIZE_LIMIT + len1 + 1 - len2
    ensures len1 < FindLoopBound(len1, len2)
  {
  }

  // ---- rfind's `pos++` (sequence.h:171) ----

  /** The first window start `rfind` tries: `pos + 1` in `size_t`, so the default `npos` becomes 0. */
  function RFindStart(pos: SizeT): (s: SizeT)
    ensures pos == NPOS ==> s == 0
    ensures pos < NPOS ==> s == pos + 1
  {
    Wrap(pos + 1)
  }

  /**
   * With an explicit `pos`, `rfind` as written never reports a match at `pos` itself,
   * although the highest match at or below `pos` is exactly `pos`.
   */
  lemma RFindAsWrittenSkipsPos(hay: seq<char>, needle: seq<char>, pos: SizeT)
    requires |hay| <= PTRDIFF_MAX && |needle| <= |hay|
    requires pos < NPOS && MatchesAt(hay, needle, pos)
    ensures LastMatch(hay, needle, RFindStart(pos), |hay| + 1 - |needle|) != pos
    ensures LastMatch(hay, needle, 0, pos + 1) == pos
  {
    LastMatchIsGreatest(hay, needle, RFindStart(pos), |hay| + 1 - |needle|);
  }

  // ---- operator== (sequence.h:205) ----

  /**
   * `i < lhs.length, i < rhs.length`: the comma operator keeps only the second test, so
   * the guard keeps `i` inside `lhs` only when `lhs` is at least as long as `rhs`.
   */
  predicate EqualLoopGuardAsWritten(i: SizeT, lhsLength: SizeT, rhsLength: SizeT): (r: bool)
    ensures r && rhsLength <= lhsLength ==> i < lhsLength
  {
    i < rhsLength
  }

  /** The intended loop guard: stay inside both views, that is below the shorter length. */
  predicate EqualLoopGuard(i: SizeT, lhsLength: SizeT, rhsLength: SizeT): (r: bool)
    ensures r <==> i < Min(lhsLength, rhsLength)
  {
    i < lhsLength && i < rhsLength
  }

  /**
   * When `lhs` is shorter, the guard as written lets the loop read `lhs[lhs.length]`,
   * one past the view; the intended guard stops before it.
   */
  lemma EqualLoopGuardOverrun(lhsLength: SizeT, rhsLength: SizeT)
    requires lhsLength < rhsLength
    ensures EqualLoopGuardAsWritten(lhsLength, lhsLength, rhsLength)
    ensures !EqualLoopGuard(lhsLength, lhsLength, rhsLength)
  {
  }
}
