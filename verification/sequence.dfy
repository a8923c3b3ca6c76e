/**
 * `sequence<char, seq_traits>`: a non-owning view of a contiguous run of characters.
 * The referenced memory is a `seq<char>` buffer that the view never changes; the
 * pointers `seq_begin` and `seq_end` are offsets into it.
 */
module Views {
  import opened Sizes
  import opened CharTraits
  import opened Lexicographic
  import opened Search
  import opened Guards

  /** A value, or the `std::out_of_range` exception. */
  datatype Result<T> = Ok(value: T) | OutOfRange

  class Sequence {
    var buf: seq<char>
    var seqBegin: nat
    var seqEnd: nat
    var length: SizeT

    /** The range invariant: `seq_end == seq_begin + length`, inside the buffer. */
    ghost predicate Valid()
      reads this
    {
      seqBegin <= seqEnd <= |buf| <= PTRDIFF_MAX && length == seqEnd - seqBegin
    }

    /** The elements the view refers to. */
    function Contents(): (s: seq<char>)
      reads this
      requires Valid()
      ensures |s| == length
    {
      buf[seqBegin..seqEnd]
    }

    /** The default constructor: an empty view. */
    constructor ()
      ensures Valid() && Contents() == [] && Empty() && Begin() == End()
    {
      buf := [];
      seqBegin, seqEnd := 0, 0;
      length := 0;
    }

    /** The copy constructor: the same triple over the same buffer, no element copied. */
    constructor FromView(original: Sequence)
      requires original.Valid()
      ensures Valid() && buf == original.buf
      ensures Begin() == original.Begin() && End() == original.End() && Size() == original.Size()
      ensures Contents() == original.Contents()
    {
      buf := original.buf;
      seqBegin := original.seqBegin;
      length := original.length;
      seqEnd := original.seqEnd;
    }

    /** The `(s, count)` constructor: `count` elements starting at offset `offset` of `s`. */
    constructor FromPointer(s: seq<char>, offset: nat, count: SizeT)
      requires offset + count <= |s| <= PTRDIFF_MAX
      ensures Valid() && buf == s
      ensures Size() == count && Begin() == offset && End() == Begin() + count
      ensures Empty() <==> count == 0
      ensures Contents() == s[offset..offset + count]
    {
      buf := s;
      seqBegin := offset;
      length := count;
      seqEnd := offset + count;
    }

    /** `begin()`, as an offset into the buffer: never after `end()`. */
    function Begin(): (b: nat)
      reads this
      ensures Valid() ==> b <= seqEnd
    {
      seqBegin
    }

    /** `end()`, as an offset into the buffer: one past the last element, inside the buffer. */
    function End(): (e: nat)
      reads this
      ensures Valid() ==> e <= |buf| && e == seqBegin + length
    {
      seqEnd
    }

    function Size(): (n: SizeT)
      reads this
      requires Valid()
      ensures n == |Contents()| && End() == Begin() + n
    {
      length
    }

    function Empty(): (e: bool)
      reads this
      requires Valid()
      ensures e <==> Contents() == []
    {
      length == 0
    }

    /** `operator[]`: unchecked, the caller keeps `pos` inside the view. */
    function Get(pos: SizeT): (c: char)
      reads this
      requires Valid() && pos < Size()
      ensures c == Contents()[pos]
    {
      buf[seqBegin + pos]
    }

    /** `at`: the checked access, which throws `out_of_range` for a position outside the view. */
    function At(pos: SizeT): (r: Result<char>)
      reads this
      requires Valid()
      ensures r.OutOfRange? <==> pos >= Size()
      ensures pos < Size() ==> r == Ok(Contents()[pos]) && r.value == Get(pos)
    {
      if pos >= length then OutOfRange else Ok(buf[seqBegin + pos])
    }

    /** `front()`: unchecked, the caller keeps the view non-empty. */
    function Front(): (c: char)
      reads this
      requires Valid() && !Empty()
      ensures c == Contents()[0]
    {
      buf[seqBegin]
    }

    /** `back()`: unchecked, the caller keeps the view non-empty. */
    function Back(): (c: char)
      reads this
      requires Valid() && !Empty()
      ensures c == Contents()[|Contents()| - 1]
    {
      buf[seqEnd - 1]
    }

    /** Drops the first `n` elements by moving `begin` only. */
    method RemovePrefix(n: SizeT)
      requires Valid() && n <= Size()
      modifies this
      ensures Valid() && buf == old(buf)
      ensures Begin() == old(Begin()) + n && End() == old(End())
      ensures Size() == old(Size()) - n
      ensures Contents() == old(Contents())[n..]
    {
      seqBegin := seqBegin + n;
      length := length - n;
    }

    /** Drops the last `n` elements by moving `end` only. */
    method RemoveSuffix(n: SizeT)
      requires Valid() && n <= Size()
      modifies this
      ensures Valid() && buf == old(buf)
      ensures Begin() == old(Begin()) && End() == old(End()) - n
      ensures Size() == old(Size()) - n
      ensures Contents() == old(Contents())[..old(Size()) - n]
    {
      seqEnd := seqEnd - n;
      length := length - n;
    }

    /** Exchanges the whole triple (and so the referenced buffer) of two views. */
    method Swap(v: Sequence)
      requires Valid() && v.Valid()
      modifies this, v
      ensures Valid() && v.Valid()
      ensures buf == old(v.buf) && Begin() == old(v.Begin()) && End() == old(v.End()) && Size() == old(v.Size())
      ensures v.buf == old(buf) && v.Begin() == old(Begin()) && v.End() == old(End()) && v.Size() == old(Size())
      ensures Contents() == old(v.Contents()) && v.Contents() == old(Contents())
    {
      var b := buf;
      buf := v.buf;
      v.buf := b;
      var s := seqBegin;
      seqBegin := v.seqBegin;
      v.seqBegin := s;
      var e := seqEnd;
      seqEnd := v.seqEnd;
      v.seqEnd := e;
      var n := length;
      length := v.length;
      v.length := n;
    }

    /**
     * `copy`: throws when `pos` is outside the view; otherwise writes the next
     * `min(count, size() - pos)` elements from `pos` to the front of `dest` and returns
     * that number, leaving the rest of `dest` alone.
     */
    method Copy(dest: array<char>, count: SizeT, pos: SizeT) returns (r: Result<SizeT>)
      requires Valid()
      requires pos < Size() ==> Min(count, Size() - pos) <= dest.Length
      modifies dest
      ensures r.OutOfRange? <==> pos >= Size()
      ensures r.OutOfRange? ==> dest[..] == old(dest[..])
      ensures r.Ok? ==> r.value == Min(count, Size() - pos)
      ensures r.Ok? ==> dest[..r.value] == Contents()[pos..pos + r.value]
      ensures r.Ok? ==> dest[r.value..] == old(dest[r.value..])
    {
      if pos >= length {
        return OutOfRange;
      }
      var i: SizeT := 0;
      while i < count && pos + i < length
        invariant i <= count && pos + i <= length
        invariant forall k :: 0 <= k < i ==> dest[k] == Contents()[pos + k]
        invariant forall k :: i <= k < dest.Length ==> dest[k] == old(dest[k])
      {
        dest[i] := buf[seqBegin + pos + i];
        i := i + 1;
      }
      return Ok(i);
    }

    /** `compare`: the lexicographic three-way comparison of the two views' elements. */
    method Compare(v: Sequence) returns (r: int)
      requires Valid() && v.Valid()
      ensures r == Lex(Contents(), v.Contents())
      ensures r == -1 || r == 0 || r == 1
      ensures r == 0 <==> Contents() == v.Contents()
    {
      LexZeroIffEqual(Contents(), v.Contents());
      var i: SizeT := 0;
      while i < length && i < v.length
        invariant i <= length && i <= v.length
        invariant LexFrom(Contents(), v.Contents(), i) == Lex(Contents(), v.Contents())
      {
        if Lt(buf[seqBegin + i], v.buf[v.seqBegin + i]) {
          return -1;
        } else if Lt(v.buf[v.seqBegin + i], buf[seqBegin + i]) {
          return 1;
        }
        i := i + 1;
      }
      if length > v.length {
        return 1;
      } else if length < v.length {
        return -1;
      } else {
        return 0;
      }
    }

    /**
     * `subseq`, with the bounds check corrected: throws exactly when `pos` is outside
     * the view or the requested range leaves it, `npos` meaning "the rest of the view";
     * otherwise a new view over the same buffer holding that range.
     */
    method Subseq(pos: SizeT, count: SizeT) returns (r: Result<Sequence>)
      requires Valid()
      ensures r.OutOfRange? <==> SubseqRejects(pos, count, Size())
      ensures r.Ok? ==> pos < Size() && fresh(r.value) && r.value.Valid() && r.value.buf == buf
      ensures r.Ok? ==> r.value.Begin() == Begin() + pos && r.value.Size() == SubseqCount(pos, count, Size())
      ensures r.Ok? ==> r.value.Contents() == Contents()[pos..pos + SubseqCount(pos, count, Size())]
      ensures pos == 0 && count == Size() && Size() > 0 ==> r.Ok? && r.value.Contents() == Contents()
    {
      if SubseqRejects(pos, count, length) {
        return OutOfRange;
      }
      var n := SubseqCount(pos, count, length);
      var s := new Sequence.FromPointer(buf, seqBegin + pos, n);
      assert pos + n <= length;
      ghost var slice, window := Contents()[pos..pos + n], buf[seqBegin + pos..seqBegin + pos + n];
      forall k | 0 <= k < n
        ensures slice[k] == window[k]
      {
        assert slice[k] == Contents()[pos + k];
      }
      assert slice == window;
      return Ok(s);
    }

    /** Whether `v` matches the window of this view that starts at `i` (the inner loop of `find`/`rfind`). */
    method MatchesWindow(v: Sequence, i: SizeT) returns (f: bool)
      requires Valid() && v.Valid() && i + v.Size() <= Size()
      ensures f == MatchesAt(Contents(), v.Contents(), i)
    {
      f := true;
      var j: SizeT := 0;
      while j < v.length
        invariant j <= v.length && f
        invariant forall k :: 0 <= k < j ==> Eq(Contents()[i + k], v.Contents()[k])
      {
        if !Eq(buf[seqBegin + i + j], v.buf[v.seqBegin + j]) {
          assert !Eq(Contents()[i + j], v.Contents()[j]);
          f := false;
        }
        if !f {
          break;
        }
        j := j + 1;
      }
    }

    /**
     * `find`: the smallest window start at or after `pos` where `v` matches, else `npos`.
     * A needle longer than the view returns `npos` before the loop bound is computed.
     */
    method Find(v: Sequence, pos: SizeT) returns (r: SizeT)
      requires Valid() && v.Valid()
      ensures v.Size() > Size() ==> r == NPOS
      ensures v.Size() <= Size() ==> r == FirstMatch(Contents(), v.Contents(), pos, Size() + 1 - v.Size())
    {
      var len1, len2 := length, v.length;
      if len2 > len1 {
        return NPOS;
      }
      var bound := FindLoopBound(len1, len2);
      var i := pos;
      while i < bound
        invariant pos <= i
        invariant FirstMatch(Contents(), v.Contents(), i, bound) == FirstMatch(Contents(), v.Contents(), pos, bound)
        decreases bound as int - i
      {
        var f := MatchesWindow(v, i);
        if f {
          return i;
        }
        i := i + 1;
      }
      return NPOS;
    }

    /**
     * `rfind` as written: `pos` is incremented first (so the default `npos` wraps to 0)
     * and the loop keeps the last matching window start from there to the end. With
     * the default `pos` this is the highest match in the whole view; with an explicit
     * `pos` the scan begins at `pos + 1`.
     */
    method RFind(v: Sequence, pos: SizeT) returns (k: SizeT)
      requires Valid() && v.Valid()
      requires v.Size() <= Size() + 1
      ensures k == LastMatch(Contents(), v.Contents(), RFindStart(pos), Size() + 1 - v.Size())
      ensures pos == NPOS ==> k == LastMatch(Contents(), v.Contents(), 0, Size() + 1 - v.Size())
    {
      k := NPOS;
      var start := RFindStart(pos);
      var len1, len2 := length, v.length;
      var bound := FindLoopBound(len1, len2);
      var i := start;
      while i < bound
        invariant start <= i && (i == start || i <= bound)
        invariant k == LastMatch(Contents(), v.Contents(), start, i)
        decreases bound as int - i
      {
        var f := MatchesWindow(v, i);
        if f {
          k := i;
        }
        i := i + 1;
      }
      assert start > bound ==> LastMatch(Contents(), v.Contents(), start, bound) == NPOS;
    }

    /**
     * `rfind` as evidently intended: the highest window start at or below `pos` (the
     * whole view for the default `npos`) where `v` matches, else `npos`.
     */
    method RFindUpTo(v: Sequence, pos: SizeT) returns (k: SizeT)
      requires Valid() && v.Valid()
      ensures v.Size() > Size() ==> k == NPOS
      ensures v.Size() <= Size() ==> k == LastMatch(Contents(), v.Contents(), 0, Min(pos, Size() - v.Size()) + 1)
    {
      k := NPOS;
      if v.length > length {
        return;
      }
      var last := Min(pos, length - v.length);
      var i: SizeT := 0;
      while i <= last
        invariant i <= last + 1
        invariant k == LastMatch(Contents(), v.Contents(), 0, i)
      {
        var f := MatchesWindow(v, i);
        if f {
          k := i;
        }
        i := i + 1;
      }
    }
  }

  /**
   * `operator==` as written: the loop runs while `i < rhs.length` only, so when `lhs`
   * is shorter it goes on reading `lhs`'s buffer past the view until the first
   * mismatch or `rhs.length`. The call is defined exactly when every read up to that
   * point stays inside the buffer: `lhs` is no shorter, or its buffer holds
   * `rhs.length` elements from `lhs.begin()`, or some element of the buffer within
   * that reach differs from `rhs` (the loop stops there at the latest). The result is
   * then correct; reads that leave the buffer are not modelled.
   */
  method EqualAsWritten(lhs: Sequence, rhs: Sequence) returns (r: bool)
    requires lhs.Valid() && rhs.Valid()
    requires
      || rhs.Size() <= lhs.Size()
      || lhs.seqBegin + rhs.Size() <= |lhs.buf|
      || exists j :: 0 <= j < rhs.Size() && lhs.seqBegin + j < |lhs.buf| && lhs.buf[lhs.seqBegin + j] != rhs.Contents()[j]
    ensures r <==> lhs.Contents() == rhs.Contents()
  {
    // A mismatch the loop reaches before it could leave the buffer, when there is one.
    ghost var stop: int := -1;
    if !(rhs.length <= lhs.length || lhs.seqBegin + rhs.length <= |lhs.buf|) {
      stop :| 0 <= stop < rhs.length && lhs.seqBegin + stop < |lhs.buf| && lhs.buf[lhs.seqBegin + stop] != rhs.Contents()[stop];
    }
    var i: SizeT := 0;
    while EqualLoopGuardAsWritten(i, lhs.length, rhs.length)
      invariant i <= rhs.length
      invariant lhs.seqBegin + i <= |lhs.buf|
      invariant
        || rhs.length <= lhs.length
        || lhs.seqBegin + rhs.length <= |lhs.buf|
        || (i <= stop && lhs.seqBegin + stop < |lhs.buf| && lhs.buf[lhs.seqBegin + stop] != rhs.Contents()[stop])
      invariant forall k :: 0 <= k < i ==> Eq(lhs.buf[lhs.seqBegin + k], rhs.Contents()[k])
      decreases rhs.length - i
    {
      if !Eq(lhs.buf[lhs.seqBegin + i], rhs.buf[rhs.seqBegin + i]) {
        assert lhs.length == rhs.length ==> lhs.Contents()[i] != rhs.Contents()[i];
        return false;
      }
      i := i + 1;
    }
    if i == lhs.length {
      assert lhs.Contents() == rhs.Contents()[..i];
    }
    return i == lhs.length && i == rhs.length;
  }

  /** `operator==` with the loop guard corrected to stay inside both views. */
  method Equal(lhs: Sequence, rhs: Sequence) returns (r: bool)
    requires lhs.Valid() && rhs.Valid()
    ensures r <==> lhs.Contents() == rhs.Contents()
  {
    var i: SizeT := 0;
    while EqualLoopGuard(i, lhs.length, rhs.length)
      invariant i <= lhs.length && i <= rhs.length
      invariant lhs.Contents()[..i] == rhs.Contents()[..i]
      decreases rhs.length - i
    {
      if !Eq(lhs.buf[lhs.seqBegin + i], rhs.buf[rhs.seqBegin + i]) {
        return false;
      }
      i := i + 1;
    }
    return i == lhs.length && i == rhs.length;
  }

  /** `operator!=`: the negation of `operator==`. */
  method NotEqual(lhs: Sequence, rhs: Sequence) returns (r: bool)
    requires lhs.Valid() && rhs.Valid()
    ensures r <==> lhs.Contents() != rhs.Contents()
  {
    var eq := Equal(lhs, rhs);
    return !eq;
  }

  /** Swapping two views twice gives each its own triple back. */
  method SwapTwice(a: Sequence, b: Sequence)
    requires a.Valid() && b.Valid()
    modifies a, b
    ensures a.Valid() && b.Valid()
    ensures a.buf == old(a.buf) && a.Begin() == old(a.Begin()) && a.End() == old(a.End()) && a.Size() == old(a.Size())
    ensures b.buf == old(b.buf) && b.Begin() == old(b.Begin()) && b.End() == old(b.End()) && b.Size() == old(b.Size())
  {
    a.Swap(b);
    a.Swap(b);
  }
}
