/** Worked cases of the view's operations on small literal buffers. */
module Examples {
  import opened Sizes
  import opened Lexicographic
  import opened Search
  import opened Guards
  import opened Views

  /** On "abcabc": `find("bc") == 1`, `find("bc", 2) == 4`, `rfind("bc") == 4`, `find("xy") == npos`. */
  lemma AbcabcSearches()
    ensures FirstMatch("abcabc", "bc", 0, 5) == 1
    ensures FirstMatch("abcabc", "bc", 2, 5) == 4
    ensures LastMatch("abcabc", "bc", RFindStart(NPOS), 5) == 4
    ensures FirstMatch("abcabc", "xy", 0, 5) == NPOS
  {
    var h, n := "abcabc", "bc";
    assert h[0] != n[0] && h[2] != n[0] && h[3] != n[0];
    assert h[1] == h[4] == n[0] && h[2] == h[5] == n[1];
    assert !MatchesAt(h, n, 0) && MatchesAt(h, n, 1);
    assert !MatchesAt(h, n, 2) && !MatchesAt(h, n, 3) && MatchesAt(h, n, 4);
    forall i | 0 <= i < 5 ensures !MatchesAt("abcabc", "xy", i) {
      assert "abcabc"[i] != "xy"[0];
    }
    FirstMatchIsLeast("abcabc", "xy", 0, 5);
  }

  /**
   * `rfind` with an explicit position, as written, against the intended result:
   * `rfind("bc", 1)` on "abcabc" yields 4 instead of 1, and `rfind("", 0)` on "abc"
   * yields 3 instead of 0.
   */
  lemma RFindExplicitPosExamples()
    ensures LastMatch("abcabc", "bc", RFindStart(1), 5) == 4
    ensures LastMatch("abcabc", "bc", 0, 2) == 1
    ensures LastMatch("abc", "", RFindStart(0), 4) == 3
    ensures LastMatch("abc", "", 0, 1) == 0
  {
    var h, n := "abcabc", "bc";
    assert h[1] == h[4] == n[0] && h[2] == h[5] == n[1];
    assert MatchesAt(h, n, 4) && MatchesAt(h, n, 1);
  }

  /** On "hello": `at(10)` throws, `subseq(2, 3)` is "llo", and it compares equal to itself and below "world". */
  method HelloExample()
  {
    var hello := new Sequence.FromPointer("hello", 0, 5);
    var at := hello.At(10);
    assert at.OutOfRange?;
    var sub := hello.Subseq(2, 3);
    assert sub.Ok? && sub.value.Contents() == "llo";
    var same := new Sequence.FromView(hello);
    var c := hello.Compare(same);
    assert c == 0;
    var world := new Sequence.FromPointer("world", 0, 5);
    c := hello.Compare(world);
    assert "hello"[0] < "world"[0];
    assert c == -1;
  }

  /** The "abcabc" searches, through the view's own methods. */
  method AbcabcExample()
  {
    var hay := new Sequence.FromPointer("abcabc", 0, 6);
    var needle := new Sequence.FromPointer("bc", 0, 2);
    assert hay.Contents() == "abcabc" && needle.Contents() == "bc";
    AbcabcSearches();
    var r := hay.Find(needle, 0);
    assert r == 1;
    r := hay.Find(needle, 2);
    assert r == 4;
    r := hay.RFind(needle, NPOS);
    assert r == 4;
    r := hay.RFindUpTo(needle, 1);
    assert LastMatch("abcabc", "bc", 0, 2) == 1 by { RFindExplicitPosExamples(); }
    assert r == 1;
  }

  /** An empty view: size 0, empty, and no non-empty needle is found in it. */
  method EmptyExample(needle: Sequence)
    requires needle.Valid() && !needle.Empty()
  {
    var e := new Sequence();
    assert e.Size() == 0 && e.Empty();
    var r := e.Find(needle, 0);
    assert r == NPOS;
    r := e.RFindUpTo(needle, NPOS);
    assert r == NPOS;
  }

  /**
   * `==` as written with a shorter `lhs` that fills its whole buffer: "x" against "ab"
   * stops at the first element and is false, without reading past the buffer.
   */
  method EqualAsWrittenShortExample()
  {
    var lhs := new Sequence.FromPointer("x", 0, 1);
    var rhs := new Sequence.FromPointer("ab", 0, 2);
    assert lhs.buf[lhs.seqBegin + 0] != rhs.Contents()[0];
    var r := EqualAsWritten(lhs, rhs);
    assert !r;
  }
}
