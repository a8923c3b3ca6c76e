# sequence — a verified model of a non-owning character view

`sequence<T, Traits>` (in `sequence.h`) is a view of a contiguous run of elements that it
does not own. It holds three things: a begin pointer, an end pointer and a length. On top
of that triple it offers element access, shrinking from either end, swapping, copy-out,
three-way comparison, slicing (`subseq`) and naive substring search (`find`, `rfind`).
It also provides the free operators `==` and `!=`.

This project models that view with `Traits = seq_traits`, so the elements are `char`:

- `eq` is `==`, `lt` is `<`, and `assign` is a store into the destination array.
- The memory the view refers to is a `seq<char>` buffer that the view never changes.
- The two pointers are offsets into that buffer.
- The view is a class `Views.Sequence` with fields `buf`, `seqBegin`, `seqEnd` and `length`.
- The invariant is `Valid()`: `seqEnd == seqBegin + length`, within the buffer.
- `remove_prefix`, `remove_suffix` and `swap` change those fields in place.
- `size_t` is 64-bit unsigned (`Sizes.SizeT`), and `npos` is `2^64 - 1`.
- Wrap-around is written out with `Sizes.Wrap` at the three places the code depends on it:
  - `rfind`'s `pos++`;
  - `subseq`'s `pos + count - 1`;
  - the search bound `len1 - len2 + 1`.
- A buffer is assumed to be no larger than `PTRDIFF_MAX`, the object-size limit that mainstream
  64-bit C++ implementations impose. Because of this, `length + 1` never wraps.

Modules, one per concern:

- `Sizes`: size_t arithmetic.
- `CharTraits`: `seq_traits`.
- `Lexicographic`: the specification of `compare`.
- `Search`: the specification of `find` and `rfind`.
- `Guards`: the index guards as written and as intended.
- `Views`: the view itself and the free operators.
- `Examples`: worked cases on "abcabc", "hello" and the empty view.

## Model

| member | source | states |
|---|---|---|
| `Sizes.Wrap` | sequence.h:30 | a mathematical result reduced to the `size_t` it wraps to: unchanged in range, plus or minus 2^64 one step outside it |
| `CharTraits.Eq` | sequence.h:10-12 | `eq` is equality of elements, so equal elements are not ordered either way by `lt` |
| `CharTraits.Lt` | sequence.h:13-15 | `lt` is irreflexive, asymmetric and total: of two different elements exactly one is less |
| `Views.Sequence.Begin` | sequence.h:68-70 | `begin()` of a valid view is never after `end()` |
| `Views.Sequence.End` | sequence.h:71-73 | `end()` of a valid view is `begin() + size()` and lies inside the buffer |
| `Views.Sequence.Contents` | sequence.h:37-38 | the viewed elements are `buf[seqBegin..seqEnd]`, exactly `length` of them |
| `Views.Sequence.constructor` | sequence.h:41-44 | the default view is empty: no elements, `begin() == end()` |
| `Views.Sequence.FromView` | sequence.h:45-49 | the copy has the same triple over the same buffer, so the same elements |
| `Views.Sequence.FromPointer` | sequence.h:50-54 | `size() == count`, `end() == begin() + count`, `empty()` exactly when `count == 0`, and the elements are the `count` elements at the pointer |
| `Views.Sequence.Size` | sequence.h:97-99 | the stored length is the number of viewed elements, and `end() == begin() + size()` |
| `Views.Sequence.Empty` | sequence.h:100-102 | true exactly when the view has no elements |
| `Views.Sequence.Get` | sequence.h:81-83 | `operator[](pos)` is the element at offset `pos` of the view |
| `Views.Sequence.At` | sequence.h:84-89 | `at(pos)` throws out_of_range exactly when `pos >= size()`; otherwise it gives the element at offset `pos`, the same as `operator[]` |
| `Views.Sequence.Front` | sequence.h:90-92 | the first element of a non-empty view |
| `Views.Sequence.Back` | sequence.h:93-95 | the last element of a non-empty view |
| `Views.Sequence.RemovePrefix` | sequence.h:104-107 | for `n <= size()`, keeps the invariant; only `begin` moves, forward by `n`; the size drops by `n`; the elements are the old ones without the first `n` |
| `Views.Sequence.RemoveSuffix` | sequence.h:108-111 | for `n <= size()`, keeps the invariant; only `end` moves, back by `n`; the size drops by `n`; the elements are the old ones without the last `n` |
| `Views.Sequence.Swap` | sequence.h:112-116 | each view ends up with the other's whole triple and buffer, so with the other's elements |
| `Views.SwapTwice` | sequence.h:112-116 | swapping twice gives both views their own triples back |
| `Views.Sequence.Copy` | sequence.h:118-129 | throws exactly when `pos >= size()`; otherwise returns `min(count, size() - pos)`; writes exactly that many elements to the front of `dest`, `dest[i] == view[pos + i]`; leaves the rest of `dest` unchanged |
| `Lexicographic.Lex` | sequence.h:130-146 | the three-way comparison takes only the values -1, 0 and 1 |
| `Lexicographic.LexAntisymmetric` | sequence.h:130-146 | `compare(a, b) == -compare(b, a)` |
| `Lexicographic.LexZeroIffEqual` | sequence.h:130-146 | the comparison is 0 exactly when both length and elements are equal |
| `Lexicographic.LexReflexive` | sequence.h:130-146 | `compare(a, a) == 0` |
| `Lexicographic.LexStrictPrefix` | sequence.h:139-143 | a strict prefix compares as -1 against the longer run |
| `Lexicographic.LexTransitive` | sequence.h:130-146 | "compares as -1" is transitive, so `compare` orders runs strictly and totally |
| `Views.Sequence.Compare` | sequence.h:130-146 | the loop's result is the lexicographic comparison of the two views' elements, so it is in {-1, 0, 1} and is 0 exactly when the contents are equal |
| `Guards.SubseqRejectsAsWritten` | sequence.h:148 | the guard as written, in `size_t`: it rejects every `pos >= size()` and accepts every non-empty range inside the view |
| `Guards.SubseqRejects` | sequence.h:147-152 | the intended guard: every range it accepts lies inside the view, and the default `count == npos` is accepted at every `pos` inside the view |
| `Guards.SubseqAsWrittenAccepts` | sequence.h:148 | exactly what the guard as written accepts: ranges ending up to one past the view, and ranges whose end wraps past 2^64 |
| `Guards.SubseqOnePastEnd` | sequence.h:148 | the guard as written accepts a range one element longer than the rest of the view; the intended guard rejects it |
| `Guards.SubseqAtStartRejected` | sequence.h:147-148 | the guard as written rejects `subseq(0, 0)` and `subseq()` with both defaults; the intended guard accepts both |
| `Guards.SubseqNposOverrun` | sequence.h:147-151 | for `pos >= 2`, the guard as written accepts `count == npos`; and, at any `seq_begin`, no buffer a view may refer to holds the `npos` elements the resulting `sequence(seq_begin + pos, npos)` claims |
| `Views.Sequence.Subseq` | sequence.h:147-152 | corrected guard: throws exactly when the range is not inside the view; otherwise a fresh view over the same buffer holding exactly elements `pos .. pos + count - 1`; `subseq(0, size())` of a non-empty view has the original elements |
| `Views.Sequence.MatchesWindow` | sequence.h:158-164 | the inner loop with its flag `f` reports exactly whether the needle matches the window at `i` element by element |
| `Search.FirstMatchIsLeast` | sequence.h:154-168 | the search result is the smallest matching index in the range; it is `npos` exactly when nothing in the range matches |
| `Search.FirstMatchProgress` | sequence.h:154-168 | searching again from just after a match gives a later match or `npos`, never the same index |
| `Search.LastMatchIsGreatest` | sequence.h:169-185 | the backward result is the largest matching index in the range; it is `npos` exactly when nothing in the range matches |
| `Search.MatchIsFound` | sequence.h:154-185 | any match in the range is found: `find` gives an index at or before it, `rfind` one at or after it |
| `Guards.FindLoopBound` | sequence.h:157 | for a needle at most one longer than the view, the bound is `len1 - len2 + 1` without wrapping |
| `Guards.FindLoopBoundUnderflows` | sequence.h:157 | for a needle longer than the view plus one, the bound wraps to `2^64 + len1 + 1 - len2`, which is beyond the view |
| `Views.Sequence.Find` | sequence.h:154-168 | returns the smallest `i >= pos` whose window matches, or `npos` if none; a needle longer than the view gives `npos` |
| `Guards.RFindStart` | sequence.h:171 | `pos++` turns the default `npos` into 0, and any other `pos` into `pos + 1` |
| `Guards.RFindAsWrittenSkipsPos` | sequence.h:169-185 | with an explicit `pos`, `rfind` as written never reports a match at `pos`, even when the highest match at or below `pos` is `pos` |
| `Views.Sequence.RFind` | sequence.h:169-185 | as written: the largest matching window start from `pos + 1` (wrapped) to the end; for the default `npos` this is the largest match in the whole view, or `npos` if none |
| `Views.Sequence.RFindUpTo` | sequence.h:169-185 | as intended: the largest matching window start at or below `pos`, or `npos`; a needle longer than the view gives `npos` |
| `Guards.EqualLoopGuardAsWritten` | sequence.h:205 | the comma-operator guard keeps `i` inside `lhs` only when `lhs` is at least as long as `rhs` |
| `Guards.EqualLoopGuard` | sequence.h:205 | the intended guard holds exactly while `i` is below the shorter of the two lengths |
| `Guards.EqualLoopGuardOverrun` | sequence.h:205 | when `lhs` is shorter, the comma-operator guard lets the loop reach `lhs[lhs.length]`; the intended guard does not |
| `Views.EqualAsWritten` | sequence.h:201-211 | whenever the loop's reads stay inside `lhs`'s buffer (when `lhs` is no shorter than `rhs`, when its buffer holds `rhs.size()` elements from `lhs.begin()`, or when a mismatch comes before the buffer ends), `==` as written is true exactly when the lengths and all elements are equal |
| `Views.Equal` | sequence.h:201-211 | with the corrected guard, `==` is true exactly when the contents are equal, for views of any lengths |
| `Views.NotEqual` | sequence.h:213-216 | `!=` is true exactly when the contents differ, the negation of `==` |
| `Examples.AbcabcSearches` | sequence.h:154-185 | on "abcabc": `find("bc") == 1`, `find("bc", 2) == 4`, `rfind("bc") == 4`, `find("xy") == npos` |
| `Examples.RFindExplicitPosExamples` | sequence.h:169-185 | as written, `rfind("bc", 1)` on "abcabc" is 4 where 1 is intended; `rfind("", 0)` on "abc" is 3 where 0 is intended |

## Left out

- `seq_traits::length` and the pointer-only constructor (sequence.h:19-25, 55-59). The loop tests the pointer `it`, not the element it points to, so it never stops. There is no behaviour to model.
- `operator=` (sequence.h:61-66). It stores `original.size()` into `seq_begin` and never copies `length`. Copying a view is modelled by the copy constructor `FromView` only.
- `operator<`, `operator>`, `operator<=`, `operator>=` (sequence.h:218-250). Their loop guards lose `i < lhs.length` to the same comma operator, so the loops run on to `rhs.length` and read past a shorter `lhs`; and their tests are not an ordering: `<` stops at the first element that is not less, and after a full walk `i == rhs.length` makes it false. No ordering law holds of them. The ordering laws are proved of `compare` instead (`Lexicographic`).
- The `std::hash` specialisation (sequence.h:252-263). It calls `hash(*it)`, which names the enclosing specialisation, and it depends on the library's `std::hash`. Its mixing constants are not a contract.
- `rbegin`/`rend` (sequence.h:74-79). These are thin wrappers over `std::reverse_iterator`.
- The element type and the traits policy are fixed to `char` and `seq_traits`. The template is not modelled generically.
- Raw pointers, `nullptr` and pointer identity are not modelled. Positions are offsets into a buffer, and the default view refers to an empty buffer.
- Writes by others to the viewed memory while a view exists are not modelled: the buffer is an immutable `seq<char>`.
- The viewed buffer cannot overlap `dest` in `copy`, because the buffer is a value. Self-overlapping copies are therefore not modelled.
- `Views.Sequence.RFind`: requires a needle at most one longer than the view. For a longer needle the loop bound wraps to near 2^64. Whenever the loop then runs, it walks `i` toward 2^64 and so leaves every buffer, which is undefined behaviour. When `pos + 1` already reaches the wrapped bound, the source skips the loop and returns `npos`; that defined case is excluded as well.
- `Views.EqualAsWritten`: requires that the loop's reads stay inside `lhs`'s buffer. That holds when `lhs` is at least as long as `rhs`, when `lhs`'s buffer extends `rhs.size()` elements from `lhs.begin()`, or when some element within the buffer differs from `rhs` (the loop stops there at the latest). Reading past the view but inside the buffer is defined, and the model covers it: the result is then `false`, which is correct. Only inputs whose reads leave the buffer, which are undefined behaviour, are not modelled.
- `Views.NotEqual`: negates the corrected `Views.Equal`, not `==` as written that sequence.h:215 negates. Where `Views.EqualAsWritten` is defined the two agree, so this differs from the source only where the source's `==` reads outside the buffer.
- `Views.Sequence.Find`: returns `npos` for every needle longer than the view. The source computes the wrapped loop bound and compares windows past the view's end. When the buffer continues beyond the view, it can report a match there: for the buffer "abc", the view `sequence("abc", 1)` ("a") and the needle "abc", `find` returns 0. The model does not reproduce such matches outside the view.
- `CharTraits.Lt`: orders `char` by unsigned code point, over an alphabet wider than 8 bits. C++ `char` is signed on x86-64 with GCC and Clang, so there `compare("\xC3", "a")` is -1, while in the model it is 1. The signed ordering is not modelled; the ordering laws proved of `compare` hold for either.
- `Views.Sequence.Subseq` models the corrected bounds check, not the one as written. The guard as written is modelled by `Guards.SubseqRejectsAsWritten`, and its consequences are stated by the `Guards.Subseq*` lemmas.
- Views are assumed to lie in buffers of at most `PTRDIFF_MAX` elements. With that bound, a view of `2^64 - 1` elements cannot exist.

## Findings

| source | as written | input that shows it | evidently intended | confidence | as-written member | corrected member |
|---|---|---|---|---|---|---|
| sequence.h:148 | throws when `pos >= length \|\| pos + count - 1 > length`, evaluated in `size_t` | a view of size 3 and `subseq(1, 3)`: accepted, and the new view ends one element past the original. On "hello", `subseq(2)` (count `npos`) is accepted and builds a view of `npos` elements. `subseq()` and `subseq(0, 0)` throw | throw exactly when `pos >= size()` or `count > size() - pos`, with `npos` resolved to "the rest of the view" before any arithmetic | not executed | `Guards.SubseqAsWrittenAccepts` | `Views.Sequence.Subseq` |
| sequence.h:171 | `pos++`, then keep the last match scanning upward from `pos + 1` | on "abcabc", `rfind("bc", 1)` returns 4 where 1 is intended; on "abc", `rfind("", 0)` returns 3 where 0 is intended | the highest matching index at or below `pos` | not executed | `Guards.RFindAsWrittenSkipsPos` | `Views.Sequence.RFindUpTo` |
| sequence.h:157 | loop bound `len1 - len2 + 1` in `size_t` (also sequence.h:174) | a view "a" and needle "abc": the bound wraps to `2^64 - 1`, so the window at 0 reads elements 1 and 2, past the view. If the buffer is "abc" and the view is `sequence("abc", 1)`, those reads stay inside the buffer and `find` returns 0, a match that is not inside the view | return `npos` when the needle is longer than the view | not executed | `Guards.FindLoopBoundUnderflows` | `Views.Sequence.Find` |
| sequence.h:205 | loop guard `i < lhs.length, i < rhs.length`; the comma operator keeps only `i < rhs.length` | `lhs` "a" and `rhs` "ab": the elements at 0 match, and the loop then reads `lhs[1]`, past `lhs`. While such reads stay inside `lhs`'s buffer the result is still `false`, which is correct; the defect is undefined behaviour when they leave the buffer | loop while `i < lhs.length && i < rhs.length` | not executed | `Guards.EqualLoopGuardOverrun` | `Views.Equal` |
