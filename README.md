# QStringView in Dafny

A model of Qt's `QStringView` (`src/corelib/text/qstringview.h`). A
`QStringView` is a non-owning, read-only view onto a run of UTF-16 code
units. It holds a size and a nullable data pointer. The model covers:

- which constructor an argument type selects (the admission traits);
- what every constructor makes of its argument;
- the accessors, the clamping slicers `left`/`right`, the strict slicers
  `first`/`last`/`sliced`/`chopped`, and `mid` given its helper's outcome;
- the in-place shrinkers `truncate`/`chop`;
- the single-character `compare`, `startsWith` and `endsWith`;
- `QChar::fromUcs4`.

Modules:

- `Memory` (memory.dfy): code units, `qsizetype` as a 64-bit signed
  newtype, the `size_t` conversion, and allocations (`Block`). A pointer is
  `Null` or `Into(block, offset)`, so "the same pointer" means the same
  block at the same offset.
- `Admission` (admission.dfy): the traits as predicates over a small
  description of C++ types (scalars, cv-qualifiers, references, pointers,
  arrays, `nullptr_t`, the string classes and other range classes). The
  platform's `sizeof(wchar_t)` is a parameter. `Classify` names the one
  constructor that fires.
- `StringView` (stringview.dfy): the value type `View(size, data)` with its
  invariant. A null view has size 0. A non-null view covers units of its
  block. `Units(v)` is the sequence the view shows. Every slicer is stated as
  a `SubView`: same block, start moved by `pos`, exactly those units.
- `ViewObject` (viewobject.dfy): a class whose `size` field `Truncate` and
  `Chop` assign in place. Each method's new value is tied to `First` and
  `Chopped`.
- `Utf16` (utf16.dfy): `fromUcs4` and its result struct. The partner is the
  RFC 2781 section 2.2 decoder. Round trips are proved in both directions.

Every `Q_ASSERT` is a precondition. The `while (*str++) ++result;` counting
loop is a method with loop invariants. It is proved to return the same count
as `qustrlen`, which the model gives as a function.

The header declares an array constructor `QStringView(const Char (&)[N])`
only for the documentation build (the `Q_CLANG_QDOC` branch at
qstringview.h:205-207); the compiled header has no such constructor.
`IsCompatiblePointer` is false for array types. An array therefore goes
through the container constructor. There, the
`lengthHelperContainer(const Char (&)[N])` overload gives `N - 1` without
looking at the last slot. The model follows the header. `FixedArray` is a
container value. `EmbeddedZeroArrayDiffersFromPointer` shows how it differs
from scanning.

## Model

| member | source | states |
|---|---|---|
| `Memory.ToSizeT` | src/corelib/text/qstringview.h:268-286 | `size_t(n)` is the value below 2^64 congruent to `n` modulo 2^64: a non-negative `n` is kept, a negative one exceeds every non-negative `qsizetype` |
| `Memory.SizeTComparison` | src/corelib/text/qstringview.h:268-275 | after the `size_t` conversion, `n >= size` holds exactly when `n` is negative or at least the size |
| `StringView.Default` | src/corelib/text/qstringview.h:191-194 | the default and `nullptr` views are valid, null and show no units |
| `StringView.FromPointerAndLength` | src/corelib/text/qstringview.h:196-199 | under `len >= 0` and `str || !len`, the view has exactly size `len` and pointer `str`, is null iff `str` is, and shows the `len` units at `str` |
| `StringView.FromPointerPair` | src/corelib/text/qstringview.h:201-203 | for `f <= l` in one object, the view starts at `f`, has size `l - f` and shows the units of `[f, l)` |
| `StringView.Qustrlen` | src/corelib/text/qstringview.h:165-169 | the length is the offset of the first zero unit: that unit is zero, and none before it is |
| `StringView.UnitsBeforeTerminator` | src/corelib/text/qstringview.h:159-161 | the count stops at the first zero of the sequence: that unit is zero and all units before it are nonzero |
| `StringView.LengthHelperPointer` | src/corelib/text/qstringview.h:155-166 | the counting loop returns `qustrlen`'s count: it stops at the first zero unit after the pointer |
| `StringView.FromNullTerminated` | src/corelib/text/qstringview.h:213-215 | a null pointer gives a null view of size 0; any other pointer gives a view at that pointer whose units are followed by the terminator and contain no zero |
| `StringView.ScannedViewTerminated` | src/corelib/text/qstringview.h:213-215 | a view from a scanned pointer shows the units before the first zero, contains no zero, and is followed by the zero |
| `StringView.FromOwning` | src/corelib/text/qstringview.h:222-224 | the view is null iff the `QString`/`QStringRef` is null, has its size and (when not null) its data; an empty non-null string gives an empty non-null view |
| `StringView.FromOwningIgnoringNull` | src/corelib/text/qstringview.h:417-421 | the view takes the string's `data()` and `size()` as they are |
| `StringView.IgnoringNullDiffersOnlyOnNull` | src/corelib/text/qstringview.h:420-421 | the two conversions from a string are equal unless it is null with a non-null `data()`, and show the same units always |
| `StringView.LiteralTerminatorIsLast` | src/corelib/text/qstringview.h:178-182 | in a string literal (only zero in the last slot) the scan finds a terminator, and the scanned length is `N - 1` |
| `StringView.LengthHelperContainer` | src/corelib/text/qstringview.h:172-182 | an array of extent `N` gives `N - 1`, which equals the scanned length `qustrlen` when the array is a string literal; any other container gives `std::size` |
| `StringView.FromContainer` | src/corelib/text/qstringview.h:227-229 | the view points at `std::data` (an array's first element, or the container's data) and is null only for a null container pointer; for an array it has size `N - 1` and shows all units but the last; otherwise it has the container's size |
| `StringView.LiteralArrayMatchesPointer` | src/corelib/text/qstringview.h:178-182 | for a string literal (only zero in the last slot) the array and pointer constructors give the same view |
| `StringView.EmbeddedZeroArrayDiffersFromPointer` | src/corelib/text/qstringview.h:178-182 | an array with a zero in front still gives `N - 1` units, while scanning from its start gives 0 |
| `StringView.Size` | src/corelib/text/qstringview.h:238 | `size()` is the number of units the view shows |
| `StringView.IsNull` | src/corelib/text/qstringview.h:402 | a null view has size 0 and shows no units |
| `StringView.Empty` | src/corelib/text/qstringview.h:395 | `empty()` holds iff the view shows no units, and every null view is empty |
| `StringView.Length` | src/corelib/text/qstringview.h:404-405 | under the 32-bit assertion, `length()` is the number of units |
| `StringView.At` | src/corelib/text/qstringview.h:243-244 | for `0 <= n < size()`, `operator[](n)` (and `at(n)`) is the `n`-th unit shown |
| `StringView.Front` | src/corelib/text/qstringview.h:396 | on a non-empty view `front()` is the first unit |
| `StringView.Back` | src/corelib/text/qstringview.h:397 | on a non-empty view `back()` is the last unit |
| `StringView.FrontBackAreEnds` | src/corelib/text/qstringview.h:396-397 | `front()` is `at(0)` and `back()` is `at(size() - 1)` |
| `StringView.Mid` | src/corelib/text/qstringview.h:260-265 | a `Null` outcome of the helper gives a null view; a range outcome `(pos, n)` gives that sub-range of the same buffer |
| `StringView.Left` | src/corelib/text/qstringview.h:266-271 | never fails; negative `n` or `n >= size()` gives the whole view, otherwise the first `n` units of the same buffer |
| `StringView.Right` | src/corelib/text/qstringview.h:272-277 | never fails; negative `n` or `n >= size()` gives the whole view, otherwise the last `n` units of the same buffer |
| `StringView.First` | src/corelib/text/qstringview.h:279-280 | for `0 <= n <= size()`, the first `n` units, starting at the same pointer |
| `StringView.Last` | src/corelib/text/qstringview.h:281-282 | for `0 <= n <= size()`, the last `n` units of the same buffer |
| `StringView.SlicedFrom` | src/corelib/text/qstringview.h:283-284 | for `0 <= pos <= size()`, the `size() - pos` units from `pos` on |
| `StringView.Sliced` | src/corelib/text/qstringview.h:285-286 | for `pos, n >= 0` with `pos + n <= size()` (as `size_t`), the `n` units from `pos` |
| `StringView.Chopped` | src/corelib/text/qstringview.h:287-288 | for `0 <= n <= size()`, keeps the start and shows all but the last `n` units |
| `StringView.StrictAgreesWithClamping` | src/corelib/text/qstringview.h:266-282 | within bounds `first`/`last` equal `left`/`right` |
| `StringView.SlicersRelate` | src/corelib/text/qstringview.h:279-288 | `chopped(n)` is `first(size()-n)`, `last(n)` is `sliced(size()-n)`, and `sliced(pos, n)` is `sliced(pos).first(n)` |
| `StringView.FirstAndSlicedPartition` | src/corelib/text/qstringview.h:279-284 | `first(n)` and `sliced(n)` concatenate to the whole view, and the second starts where the first ends |
| `StringView.SubViewTransitive` | src/corelib/text/qstringview.h:264-288 | a sub-range of a sub-range is a sub-range of the original buffer |
| `StringView.LexCompare` | src/corelib/text/qstringview.h:303-304 | the code-unit order that the case-sensitive `compare` follows: -1, 0 or 1, and 0 exactly for equal sequences |
| `StringView.LexCompareAntisymmetric` | src/corelib/text/qstringview.h:303-304 | swapping the operands of that order flips the sign |
| `StringView.CompareSingleCharHelper` | src/corelib/text/qstringview.h:412-413 | given the difference between the first unit and `c`, the result's sign is the code-unit order of the view against the one-unit string `c`, it is 0 iff the view is exactly `c`, and a nonzero difference is returned as it is |
| `StringView.CompareChar` | src/corelib/text/qstringview.h:306-307 | -1 for an empty view; else the first unit minus `c` when they differ; else 1 if `size() > 1`, else 0 |
| `StringView.CompareCharIsLexicographic` | src/corelib/text/qstringview.h:306-307 | the sign of `compare(c)` is the code-unit order of the view against the one-unit string `c`, and it is 0 iff the view is exactly `c` |
| `StringView.StartsWithChar` | src/corelib/text/qstringview.h:314-315 | true iff the view's units start with `c` (non-empty and `front() == c`) |
| `StringView.EndsWithChar` | src/corelib/text/qstringview.h:322-323 | true iff the view's units end with `c` (non-empty and `back() == c`) |
| `StringView.StartsEndsWithCharViaLeftRight` | src/corelib/text/qstringview.h:314-323 | `startsWith(c)` iff `left(1)` shows exactly `c`; `endsWith(c)` iff `right(1)` does |
| `ViewObject.QStringView.Truncate` | src/corelib/text/qstringview.h:290-291 | for `0 <= n <= size()`, the size becomes `n`; the new view is `first(n)` of the old, with pointer and null-ness unchanged |
| `ViewObject.QStringView.Chop` | src/corelib/text/qstringview.h:292-293 | for `0 <= n <= size()`, the size drops by `n`; the new view is `chopped(n)` of the old, with pointer and null-ness unchanged |
| `Admission.IsCompatibleCharType` | src/corelib/text/qstringview.h:79-88 | a compatible character type, after dropping references and cv-qualifiers, is a scalar as wide as `QChar` |
| `Admission.IsCompatiblePointer` | src/corelib/text/qstringview.h:90-97 | a compatible pointer, after dropping references and cv-qualifiers, is a pointer whose pointee is a scalar as wide as `QChar` |
| `Admission.MeetsRangeRequirements` | src/corelib/text/qstringview.h:102-112 | an array meets the `std::data`, `std::size`, value-type and `begin != end` requirements iff its element type is a compatible character type |
| `Admission.IsContainerCompatible` | src/corelib/text/qstringview.h:99-120 | an admitted container is an array or a range class, and never a compatible pointer or a `QString`/`QStringRef` |
| `Admission.IsQStringLike` | src/corelib/text/qstringview.h:148-149 | `QString` and `QStringRef` meet every range requirement on every platform |
| `Admission.Classify` | src/corelib/text/qstringview.h:78-152 | each constructor route is taken iff its enable-if condition holds (nullptr, copy, compatible pointer, QString-like, compatible container), so at most one constructor fires |
| `Admission.StringClassesLookLikeContainers` | src/corelib/text/qstringview.h:114-119 | `QString`, `QStringRef` and `QStringView` meet every range requirement, and only the exclusions keep them off the container path |
| `Admission.CharArraysAreContainers` | src/corelib/text/qstringview.h:99-120 | an array of compatible characters, with or without const and reference, goes through the container constructor |
| `Admission.WideStringsDependOnPlatform` | src/corelib/text/qstringview.h:85 | `wchar_t` pointers and arrays are admitted iff `wchar_t` is 16-bit |
| `Admission.IncompatibleElementsRejected` | src/corelib/text/qstringview.h:79-97 | pointers, arrays and ranges of `char`, `char32_t`, `short` or `int` convert by no constructor |
| `Admission.RangeClassAdmission` | src/corelib/text/qstringview.h:102-120 | a class goes through the container constructor iff its `std::data` is a compatible pointer, its size converts, its value type is compatible and its bounds compare |
| `Utf16.RequiresSurrogates` | src/corelib/text/qstringview.h:434-436 | a code point needing surrogates does not fit one code unit; one that does not need them is one code unit unchanged |
| `Utf16.HighSurrogate` | src/corelib/text/qstringview.h:434-435 | the RFC 2781 high surrogate equals Qt's `char16_t((c >> 10) + 0xD7C0)`, and is a high surrogate up to U+10FFFF |
| `Utf16.LowSurrogate` | src/corelib/text/qstringview.h:434-435 | the RFC 2781 low surrogate equals Qt's `char16_t(c % 0x400 + 0xDC00)`, and is always a low surrogate |
| `Utf16.FromUcs4` | src/corelib/text/qstringview.h:425-437 | two units iff the code point needs surrogates, in that case a high then a low surrogate (up to U+10FFFF); otherwise one unit equal to the code point |
| `Utf16.Size` | src/corelib/text/qstringview.h:430 | the struct reports one or two units |
| `Utf16.ToView` | src/corelib/text/qstringview.h:429 | the conversion to a view is non-null, has the struct's size and shows its units |
| `Utf16.DecodeFromUcs4` | src/corelib/text/qstringview.h:434-436 | decoding the units of `fromUcs4(c)` (RFC 2781 section 2.2) gives `c` back for every Unicode scalar value |
| `Utf16.FromUcs4Decode` | src/corelib/text/qstringview.h:434-436 | every well-formed one- or two-unit sequence is `fromUcs4` of the code point it decodes to |
| `Utf16.FromUcs4ViewSize` | src/corelib/text/qstringview.h:429-432 | the view of `fromUcs4(c)` has size 2 for a supplementary code point and 1 otherwise |

## Left out

- The algorithms delegated to `QtPrivate` are foreign calls whose code is not part of this model: `compareStrings`, `startsWith`/`endsWith` with a view or a case sensitivity, `findString` (`indexOf`), `contains` (which only tests `indexOf` against -1), `lastIndexOf`, `count`, `trimmed`, `isRightToLeft`, `isValidUtf16`, `split`, `tokenize`. The same holds for the `QLatin1String` overloads. `LexCompare` only gives the order the case-sensitive `compare` is meant to follow.
- Mid: the clamping rule of `QContainerImplHelper::mid` is not visible. So the helper's outcome is a parameter, and only what `mid` does with that outcome is stated.
- The encoding conversions `toLatin1`, `toUtf8`, `toLocal8Bit`, `toUcs4`, `toWCharArray`, `arg` and `toString` are left out: they are external converters.
- The numeric parsers `toShort` … `toULongLong` are external. `toFloat` and `toDouble` also use floating point.
- `toCFString` and `toNSString` are platform interop and are left out.
- The STL iterators (`begin`, `end`, the reverse iterators) are pointer plumbing and are left out. `castHelper` and the `reinterpret_cast`s only change the pointer's static type, so they are left out too.
- `data()`, `constData()` and `utf16()` return the `data` field; they add nothing and have no members of their own. `isEmpty()` is `Empty`, `at()` is `At`, and the no-argument `first()`/`last()` are `Front`/`Back`.
- The GCC `__builtin_constant_p` branch and `qustrlen` give the same count: the loop is `LengthHelperPointer`, and the library call is the function `Qustrlen`.
- The template and SFINAE machinery is not modelled, only the classification it encodes. The deduction of `Char` in the two-argument constructors is not modelled separately: their pointer arguments are taken to point to a compatible character type.
- Lifetimes are not modelled: a view's buffer never dies, and so no view dangles. A block is identified by an id and its contents, so aliasing is only modelled at the level of "same block".
- A violated `Q_ASSERT` is excluded by a precondition. The undefined behaviour of release builds is not modelled.
- Some preconditions are not `Q_ASSERT`s but unchecked obligations on the caller, whose violation is undefined behaviour: that `len` units at `str` are readable in `FromPointerAndLength` (and so in `FromContainer` and `FromOwning` through `ValidContainer` and `ValidOwning`), and that a terminator follows the pointer in `LengthHelperPointer` and `FromNullTerminated`.
- `QChar::requiresSurrogates`, `QChar::highSurrogate` and `QChar::lowSurrogate` live in qchar.h, which is not part of this model. They are given by the arithmetic of section 2.1 of RFC 2781, including the truncation to `char16_t`, and their contracts state that this equals Qt's shift-and-add form.
- FromUcs4: for values above U+10FFFF the computed units (including the `char16_t` truncation) are modelled, but nothing is proved about them, because RFC 2781 does not define them.
