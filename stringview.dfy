/**
  `QStringView`: a non-owning, read-only view of `size` consecutive code
  units starting at `data`. The view is a plain value; every operation
  here returns a new view (the two in-place shrinking operations are in
  module `ViewObject`).
 */
module StringView {
  import opened Memory

  /** The two data members `m_size` and `m_data`. */
  datatype View = View(size: QSizeType, data: Pointer)

  /** A view that may exist: a null view has size 0 and a non-null view
      covers units of its block. */
  predicate Valid(v: View) {
    && ValidPointer(v.data)
    && v.size >= 0
    && (v.data.Null? ==> v.size == 0)
    && (v.data.Into? ==> v.data.offset + v.size as int <= |v.data.block.units|)
  }

  /** The code units the view shows. */
  function Units(v: View): (s: seq<CodeUnit>)
    requires Valid(v)
    ensures |s| == v.size as int
  {
    if v.data.Null? then [] else v.data.block.units[v.data.offset .. v.data.offset + v.size as int]
  }

  /** `r` is the sub-range `[pos, pos + n)` of `v`: same block, offset
      moved by `pos`, and exactly those units. */
  predicate SubView(r: View, v: View, pos: int, n: int)
    requires Valid(v)
  {
    && 0 <= pos && 0 <= n && pos + n <= v.size as int
    && Valid(r) && r.size as int == n
    && (if v.data.Null? then r.data.Null? else r.data == Into(v.data.block, v.data.offset + pos))
    && Units(r) == Units(v)[pos .. pos + n]
  }

  /** A sub-range of the units is the matching slice of the block. */
  lemma UnitsSlice(v: View, pos: int, n: int)
    requires Valid(v) && 0 <= pos && 0 <= n && pos + n <= v.size as int
    ensures v.data.Into? ==> Units(v)[pos .. pos + n] == v.data.block.units[v.data.offset + pos .. v.data.offset + pos + n]
  {
    if v.data.Into? {
      var u, o := v.data.block.units, v.data.offset;
      assert Units(v) == u[o .. o + v.size as int];
      var w := Units(v)[pos .. pos + n];
      assert forall i :: 0 <= i < n ==> w[i] == u[o + pos + i];
    }
  }

  // ---------------------------------------------------------------------
  // Construction
  // ---------------------------------------------------------------------

  /** `QStringView()` and `QStringView(nullptr)`. */
  function Default(): (r: View)
    ensures Valid(r) && IsNull(r) && Units(r) == []
  {
    View(0, Null)
  }

  /** `QStringView(const Char *str, qsizetype len)`: both Q_ASSERTs become
      preconditions, and the caller guarantees `len` units are readable. */
  function FromPointerAndLength(str: Pointer, len: QSizeType): (r: View)
    requires ValidPointer(str)
    requires len >= 0
    requires str.Null? ==> len == 0
    requires str.Into? ==> str.offset + len as int <= |str.block.units|
    ensures Valid(r) && r.size == len && r.data == str
    ensures IsNull(r) <==> str.Null?
    ensures str.Into? ==> Units(r) == str.block.units[str.offset .. str.offset + len as int]
  {
    View(len, str)
  }

  /** `QStringView(const Char *f, const Char *l)`: the half-open range `[f, l)`. */
  function FromPointerPair(f: Pointer, l: Pointer): (r: View)
    requires ValidPointer(f) && ValidPointer(l)
    requires SameObject(f, l) && Distance(f, l) >= 0
    ensures Valid(r) && r.data == f && r.size as int == Distance(f, l)
    ensures f.Into? ==> Units(r) == f.block.units[f.offset .. l.offset]
  {
    FromPointerAndLength(f, Distance(f, l) as QSizeType)
  }

  /** There is a zero code unit at or after `str`. */
  predicate HasTerminator(str: Pointer)
    requires ValidPointer(str) && str.Into?
  {
    0 in str.block.units[str.offset..]
  }

  /** The number of units before the first zero of `s`. */
  function UnitsBeforeTerminator(s: seq<CodeUnit>): (k: nat)
    requires 0 in s
    ensures k < |s| && s[k] == 0
    ensures forall i :: 0 <= i < k ==> s[i] != 0
  {
    if s[0] == 0 then 0 else 1 + UnitsBeforeTerminator(s[1..])
  }

  /** `QtPrivate::qustrlen`: the length of the zero-terminated string at `str`. */
  function Qustrlen(str: Pointer): (k: nat)
    requires ValidPointer(str) && str.Into? && HasTerminator(str)
    ensures str.offset + k < |str.block.units| <= MaxQSize
    ensures str.block.units[str.offset + k] == 0
    ensures forall i :: str.offset <= i < str.offset + k ==> str.block.units[i] != 0
  {
    var s := str.block.units[str.offset..];
    var k := UnitsBeforeTerminator(s);
    assert forall i :: str.offset <= i < str.offset + k ==> str.block.units[i] == s[i - str.offset];
    k
  }

  /** `lengthHelperPointer`: the counting loop `while (*str++) ++result;`. */
  method LengthHelperPointer(str: Pointer) returns (result: QSizeType)
    requires ValidPointer(str) && str.Into? && HasTerminator(str)
    ensures result >= 0 && result as int == Qustrlen(str)
    ensures str.block.units[str.offset + result as int] == 0
    ensures forall i :: str.offset <= i < str.offset + result as int ==> str.block.units[i] != 0
  {
    var units := str.block.units;
    ghost var len := Qustrlen(str);
    var p := str.offset;
    result := 0;
    while units[p] != 0
      invariant p == str.offset + result as int
      invariant 0 <= result as int <= len
      invariant forall i :: str.offset <= i < p ==> units[i] != 0
      decreases len - result as int
    {
      p := p + 1;
      result := result + 1;
    }
  }

  /** `QStringView(const Pointer &str)`: a null pointer gives a null view,
      any other pointer is scanned up to its terminator. */
  function FromNullTerminated(str: Pointer): (r: View)
    requires ValidPointer(str)
    requires str.Into? ==> HasTerminator(str)
    ensures Valid(r) && r.data == str
    ensures IsNull(r) <==> str.Null?
    ensures str.Null? ==> r.size == 0
    ensures str.Into? ==> str.offset + r.size as int < |str.block.units|
    ensures str.Into? ==> str.block.units[str.offset .. str.offset + r.size as int + 1] == Units(r) + [0]
    ensures 0 !in Units(r)
  {
    if str.Null? then FromPointerAndLength(str, 0)
    else
      var r := FromPointerAndLength(str, Qustrlen(str) as QSizeType);
      ScannedViewTerminated(r);
      r
  }

  /** A view reaching up to the first zero after its start shows the units
      before that zero, and the zero follows them. */
  lemma ScannedViewTerminated(r: View)
    requires Valid(r) && r.data.Into? && HasTerminator(r.data)
    requires r.size as int == Qustrlen(r.data)
    ensures r.data.offset + r.size as int < |r.data.block.units|
    ensures r.data.block.units[r.data.offset .. r.data.offset + r.size as int + 1] == Units(r) + [0]
    ensures 0 !in Units(r)
  {
    var s, o, k := r.data.block.units, r.data.offset, r.size as int;
    var w := s[o .. o + k];
    assert Units(r) == w;
    assert forall i :: 0 <= i < k ==> w[i] == s[o + i];
    assert s[o .. o + k + 1] == w + [s[o + k]];
  }

  /** The two kinds of owning string with a dedicated constructor. */
  datatype OwningKind = QStringKind | QStringRefKind

  /** A `QString` or `QStringRef`, as the view sees it: `isNull()`,
      `data()` and `size()`. */
  datatype OwningString = OwningString(kind: OwningKind, isNull: bool, data: Pointer, size: int)

  /** The class invariant of the owning strings: a null string is empty,
      a non-null one has storage holding its units. */
  predicate ValidOwning(s: OwningString) {
    && ValidPointer(s.data)
    && s.size >= 0
    && (s.data.Null? ==> s.size == 0)
    && (s.data.Into? ==> s.data.offset + s.size <= |s.data.block.units|)
    && (s.isNull ==> s.size == 0)
    && (!s.isNull ==> s.data.Into?)
  }

  /** `QStringView(const QString &)` / `QStringView(const QStringRef &)`:
      null-ness is carried over, so an empty non-null string gives an
      empty non-null view. */
  function FromOwning(s: OwningString): (r: View)
    requires ValidOwning(s)
    ensures Valid(r) && r.size as int == s.size
    ensures IsNull(r) <==> s.isNull
    ensures !s.isNull ==> r.data == s.data
    ensures !s.isNull && s.size == 0 ==> !IsNull(r) && Empty(r)
  {
    FromPointerAndLength(if s.isNull then Null else s.data, s.size as QSizeType)
  }

  /** `qToStringViewIgnoringNull`: takes `data()` and `size()` as they are. */
  function FromOwningIgnoringNull(s: OwningString): (r: View)
    requires ValidOwning(s)
    ensures Valid(r) && r.size as int == s.size && r.data == s.data
  {
    FromPointerAndLength(s.data, s.size as QSizeType)
  }

  /** The two conversions agree except on a null string whose `data()`
      still points somewhere. */
  lemma IgnoringNullDiffersOnlyOnNull(s: OwningString)
    requires ValidOwning(s)
    ensures FromOwningIgnoringNull(s) == FromOwning(s) <==> (!s.isNull || s.data.Null?)
    ensures Units(FromOwningIgnoringNull(s)) == Units(FromOwning(s))
  {
  }

  /** The argument of the container constructor: a built-in array
      `const Char (&)[N]`, or any other compatible container with its
      `std::data` and `std::size`. */
  datatype ContainerValue =
    | FixedArray(storage: Block)
    | Sequence(data: Pointer, size: int)

  predicate ValidContainer(c: ContainerValue) {
    match c
    case FixedArray(b) => 1 <= |b.units| <= MaxQSize
    case Sequence(d, n) =>
      && ValidPointer(d) && 0 <= n
      && (d.Null? ==> n == 0)
      && (d.Into? ==> d.offset + n <= |d.block.units|)
  }

  /** A string literal: an array whose only zero is its last slot. */
  predicate IsLiteral(b: Block)
    requires 1 <= |b.units|
  {
    && b.units[|b.units| - 1] == 0
    && forall i :: 0 <= i < |b.units| - 1 ==> b.units[i] != 0
  }

  /** In a string literal the terminator the scan finds is the last slot. */
  lemma LiteralTerminatorIsLast(b: Block)
    requires 1 <= |b.units| <= MaxQSize
    ensures IsLiteral(b) ==> HasTerminator(Into(b, 0)) && Qustrlen(Into(b, 0)) == |b.units| - 1
  {
    if IsLiteral(b) {
      assert b.units[0..] == b.units;
      assert b.units[|b.units| - 1] in b.units;
    }
  }

  /** `lengthHelperContainer`: `N - 1` for an array (the last slot is
      taken as the terminator, without looking at it), which is the
      scanned length exactly when the array is a string literal;
      `std::size(c)` otherwise. */
  function LengthHelperContainer(c: ContainerValue): (n: int)
    requires ValidContainer(c)
    ensures c.FixedArray? ==> n == |c.storage.units| - 1
    ensures c.FixedArray? && IsLiteral(c.storage) ==>
              HasTerminator(Into(c.storage, 0)) && n == Qustrlen(Into(c.storage, 0))
    ensures c.Sequence? ==> n == c.size
  {
    match c
    case FixedArray(b) => LiteralTerminatorIsLast(b); |b.units| - 1
    case Sequence(_, n) => n
  }

  /** `QStringView(const Container &c)`: `std::data(c)`, where an array
      decays to a pointer to its first element, and `lengthHelperContainer(c)`. */
  function FromContainer(c: ContainerValue): (r: View)
    requires ValidContainer(c)
    ensures Valid(r) && !IsNull(r) == (c.FixedArray? || c.data.Into?)
    ensures c.FixedArray? ==> r.data == Into(c.storage, 0)
    ensures c.FixedArray? ==> r.size as int == |c.storage.units| - 1 && Units(r) == c.storage.units[.. |c.storage.units| - 1]
    ensures c.Sequence? ==> r.data == c.data && r.size as int == c.size
  {
    var data := if c.FixedArray? then Into(c.storage, 0) else c.data;
    FromPointerAndLength(data, LengthHelperContainer(c) as QSizeType)
  }

  /** For a string literal (an array whose only zero is its last slot) the
      array constructor and the scanning pointer constructor agree. */
  lemma LiteralArrayMatchesPointer(b: Block)
    requires 1 <= |b.units| <= MaxQSize
    requires b.units[|b.units| - 1] == 0
    requires forall i :: 0 <= i < |b.units| - 1 ==> b.units[i] != 0
    ensures HasTerminator(Into(b, 0))
    ensures FromContainer(FixedArray(b)) == FromNullTerminated(Into(b, 0))
  {
    assert IsLiteral(b);
    assert LengthHelperContainer(FixedArray(b)) == |b.units| - 1;
  }

  /** With an embedded zero the array constructor still covers `N - 1`
      units while the pointer constructor stops at the zero. */
  lemma EmbeddedZeroArrayDiffersFromPointer(b: Block)
    requires 2 <= |b.units| <= MaxQSize
    requires b.units[0] == 0
    ensures HasTerminator(Into(b, 0))
    ensures FromContainer(FixedArray(b)).size as int == |b.units| - 1
    ensures FromNullTerminated(Into(b, 0)).size == 0
  {
    assert b.units[0..][0] == 0;
  }

  // ---------------------------------------------------------------------
  // Accessors and predicates
  // ---------------------------------------------------------------------

  /** `size()`: the number of code units shown. */
  function Size(v: View): (n: QSizeType)
    requires Valid(v)
    ensures n >= 0 && n as int == |Units(v)|
  {
    v.size
  }

  /** `isNull()`: the data pointer is null; a valid null view shows nothing. */
  predicate IsNull(v: View)
    ensures IsNull(v) && Valid(v) ==> v.size == 0 && Units(v) == []
  {
    v.data.Null?
  }

  /** `empty()` (and its alias `isEmpty()`). */
  function Empty(v: View): (b: bool)
    requires Valid(v)
    ensures b <==> Units(v) == []
    ensures IsNull(v) ==> b
  {
    v.size == 0
  }

  /** `length()`: `size()` as an `int`, asserted to fit 32 bits. */
  function Length(v: View): (n: int)
    requires Valid(v)
    requires v.size as int < 0x8000_0000
    ensures 0 <= n < 0x8000_0000 && n == |Units(v)|
  {
    v.size as int
  }

  /** `operator[](n)` and `at(n)`. */
  function At(v: View, n: QSizeType): (u: CodeUnit)
    requires Valid(v)
    requires 0 <= n < v.size
    ensures u == Units(v)[n]
  {
    v.data.block.units[v.data.offset + n as int]
  }

  /** `front()`. */
  function Front(v: View): (u: CodeUnit)
    requires Valid(v) && !Empty(v)
    ensures u == Units(v)[0]
  {
    v.data.block.units[v.data.offset]
  }

  /** `back()`. */
  function Back(v: View): (u: CodeUnit)
    requires Valid(v) && !Empty(v)
    ensures u == Units(v)[|Units(v)| - 1]
  {
    v.data.block.units[v.data.offset + v.size as int - 1]
  }

  lemma FrontBackAreEnds(v: View)
    requires Valid(v) && !Empty(v)
    ensures Front(v) == At(v, 0)
    ensures Back(v) == At(v, v.size - 1)
  {
  }

  // ---------------------------------------------------------------------
  // Slicing
  // ---------------------------------------------------------------------

  /** The two outcomes of `QContainerImplHelper::mid`, whose clamping rule
      is not part of this model: `Null`, or the adjusted position and length. */
  datatype MidOutcome = MidNull | MidRange(pos: QSizeType, n: QSizeType)

  /** `mid(pos, n)`, given the helper's outcome for `(size(), pos, n)`,
      which is assumed to lie within the view. */
  function Mid(v: View, outcome: MidOutcome): (r: View)
    requires Valid(v)
    requires outcome.MidRange? ==> 0 <= outcome.pos && 0 <= outcome.n && outcome.pos as int + outcome.n as int <= v.size as int
    ensures Valid(r)
    ensures outcome.MidNull? ==> IsNull(r) && r.size == 0
    ensures outcome.MidRange? ==> SubView(r, v, outcome.pos as int, outcome.n as int)
  {
    match outcome
    case MidNull => Default()
    case MidRange(pos, n) => FromPointerAndLength(Advance(v.data, pos as int), n)
  }

  /** `left(n)`: never fails; a negative `n` or one at least `size()`
      (both large after the `size_t` conversion) yields the whole view. */
  function Left(v: View, n: QSizeType): (r: View)
    requires Valid(v)
    ensures Valid(r)
    ensures if n < 0 || n >= v.size then r == v else SubView(r, v, 0, n as int)
  {
    var m := if ToSizeT(n) >= ToSizeT(v.size) then v.size else n;
    FromPointerAndLength(v.data, m)
  }

  /** `right(n)`: clamps like `left`, and keeps the last `n` units. */
  function Right(v: View, n: QSizeType): (r: View)
    requires Valid(v)
    ensures Valid(r)
    ensures if n < 0 || n >= v.size then r == v else SubView(r, v, (v.size - n) as int, n as int)
  {
    var m := if ToSizeT(n) >= ToSizeT(v.size) then v.size else n;
    FromPointerAndLength(Advance(v.data, (v.size - m) as int), m)
  }

  /** `first(n)`: the first `n` units, `0 <= n <= size()` asserted. */
  function First(v: View, n: QSizeType): (r: View)
    requires Valid(v) && 0 <= n <= v.size
    ensures SubView(r, v, 0, n as int)
  {
    UnitsSlice(v, 0, n as int);
    FromPointerAndLength(v.data, n)
  }

  /** `last(n)`: the last `n` units, `0 <= n <= size()` asserted. */
  function Last(v: View, n: QSizeType): (r: View)
    requires Valid(v) && 0 <= n <= v.size
    ensures SubView(r, v, (v.size - n) as int, n as int)
  {
    FromPointerAndLength(Advance(v.data, (v.size - n) as int), n)
  }

  /** `sliced(pos)`: everything from `pos` on, `0 <= pos <= size()` asserted. */
  function SlicedFrom(v: View, pos: QSizeType): (r: View)
    requires Valid(v) && 0 <= pos <= v.size
    ensures SubView(r, v, pos as int, (v.size - pos) as int)
  {
    FromPointerAndLength(Advance(v.data, pos as int), v.size - pos)
  }

  /** `sliced(pos, n)`: `n` units from `pos`. The assertion adds the two
      as `size_t`; both are below 2^63, so the sum cannot wrap. */
  function Sliced(v: View, pos: QSizeType, n: QSizeType): (r: View)
    requires Valid(v) && 0 <= pos && 0 <= n
    requires ToSizeT(pos) + ToSizeT(n) <= ToSizeT(v.size)
    ensures SubView(r, v, pos as int, n as int)
  {
    FromPointerAndLength(Advance(v.data, pos as int), n)
  }

  /** `chopped(n)`: all but the last `n` units, `0 <= n <= size()` asserted. */
  function Chopped(v: View, n: QSizeType): (r: View)
    requires Valid(v) && 0 <= n <= v.size
    ensures SubView(r, v, 0, (v.size - n) as int)
  {
    FromPointerAndLength(v.data, v.size - n)
  }

  /** Within bounds the strict slicers agree with the clamping ones. */
  lemma StrictAgreesWithClamping(v: View, n: QSizeType)
    requires Valid(v) && 0 <= n <= v.size
    ensures First(v, n) == Left(v, n)
    ensures Last(v, n) == Right(v, n)
  {
  }

  /** Chopping `n` is taking the first `size() - n`; `last(n)` is
      slicing from `size() - n`; `sliced(pos, n)` is `first(n)` of `sliced(pos)`. */
  lemma SlicersRelate(v: View, pos: QSizeType, n: QSizeType)
    requires Valid(v) && 0 <= pos && 0 <= n && pos as int + n as int <= v.size as int
    ensures Chopped(v, n) == First(v, v.size - n)
    ensures Last(v, n) == SlicedFrom(v, v.size - n)
    ensures Sliced(v, pos, n) == First(SlicedFrom(v, pos), n)
  {
  }

  /** `first(n)` and `sliced(n)` split the view: their units concatenate
      to the whole, and the second starts where the first ends. */
  lemma FirstAndSlicedPartition(v: View, n: QSizeType)
    requires Valid(v) && 0 <= n <= v.size
    ensures Units(First(v, n)) + Units(SlicedFrom(v, n)) == Units(v)
    ensures SlicedFrom(v, n).data == Advance(First(v, n).data, n as int)
  {
    assert Units(v) == Units(v)[..n] + Units(v)[n..];
  }

  /** Sub-views compose: a sub-range of a sub-range is a sub-range of the original. */
  lemma SubViewTransitive(r: View, m: View, v: View, p: int, k: int, q: int, n: int)
    requires Valid(v) && SubView(m, v, p, k) && SubView(r, m, q, n)
    ensures SubView(r, v, p + q, n)
  {
    assert Units(m)[q .. q + n] == Units(v)[p + q .. p + q + n];
  }

  // ---------------------------------------------------------------------
  // Single-character comparison and prefix / suffix tests
  // ---------------------------------------------------------------------

  /** Code-unit-wise lexicographic order, as `-1`, `0` or `1`: the order
      the case-sensitive `compare` overloads follow. */
  function LexCompare(a: seq<CodeUnit>, b: seq<CodeUnit>): (r: int)
    ensures -1 <= r <= 1
    ensures r == 0 <==> a == b
  {
    if a == [] then (if b == [] then 0 else -1)
    else if b == [] then 1
    else if a[0] < b[0] then -1
    else if a[0] > b[0] then 1
    else LexCompare(a[1..], b[1..])
  }

  /** The order is antisymmetric: swapping the operands flips the sign. */
  lemma {:induction false} LexCompareAntisymmetric(a: seq<CodeUnit>, b: seq<CodeUnit>)
    ensures LexCompare(a, b) == -LexCompare(b, a)
  {
    if a != [] && b != [] && a[0] == b[0] {
      LexCompareAntisymmetric(a[1..], b[1..]);
    }
  }

  function Sign(x: int): int {
    if x < 0 then -1 else if x > 0 then 1 else 0
  }

  /** `compare_single_char_helper(diff)`, given the difference between the
      first unit and `c`: the result orders the view as the one-unit string
      `[c]` would be ordered against it, and is zero only when they are equal. */
  function CompareSingleCharHelper(v: View, c: CodeUnit, diff: int): (r: int)
    requires Valid(v) && !Empty(v) && diff == Front(v) as int - c as int
    ensures Sign(r) == LexCompare(Units(v), [c])
    ensures r == 0 <==> Units(v) == [c]
    ensures diff != 0 ==> r == diff
  {
    var u := Units(v);
    assert u[1..] == [] <==> v.size <= 1;
    if diff != 0 then diff else if v.size > 1 then 1 else 0
  }

  /** `compare(QChar c)`: -1 for an empty view, else the difference of the
      first unit and `c` when nonzero, else 1 when more units follow, else 0. */
  function CompareChar(v: View, c: CodeUnit): (r: int)
    requires Valid(v)
    ensures Empty(v) ==> r == -1
    ensures !Empty(v) && Front(v) != c ==> r == Front(v) as int - c as int
    ensures !Empty(v) && Front(v) == c ==> r == (if v.size > 1 then 1 else 0)
  {
    if v.size >= 1 then CompareSingleCharHelper(v, c, At(v, 0) as int - c as int) else -1
  }

  /** The single-character `compare` orders the view exactly as comparing
      its units with the one-unit string `[c]`. */
  lemma CompareCharIsLexicographic(v: View, c: CodeUnit)
    requires Valid(v)
    ensures Sign(CompareChar(v, c)) == LexCompare(Units(v), [c])
    ensures CompareChar(v, c) == 0 <==> Units(v) == [c]
  {
  }

  predicate HasPrefix(s: seq<CodeUnit>, p: seq<CodeUnit>) {
    |p| <= |s| && s[..|p|] == p
  }

  predicate HasSuffix(s: seq<CodeUnit>, p: seq<CodeUnit>) {
    |p| <= |s| && s[|s| - |p|..] == p
  }

  /** `startsWith(QChar c)`: `!empty() && front() == c`. */
  function StartsWithChar(v: View, c: CodeUnit): (b: bool)
    requires Valid(v)
    ensures b <==> HasPrefix(Units(v), [c])
  {
    !Empty(v) && Front(v) == c
  }

  /** `endsWith(QChar c)`: `!empty() && back() == c`. */
  function EndsWithChar(v: View, c: CodeUnit): (b: bool)
    requires Valid(v)
    ensures b <==> HasSuffix(Units(v), [c])
  {
    !Empty(v) && Back(v) == c
  }

  /** The single-character tests look at what `left(1)` / `right(1)` show. */
  lemma StartsEndsWithCharViaLeftRight(v: View, c: CodeUnit)
    requires Valid(v)
    ensures StartsWithChar(v, c) <==> Units(Left(v, 1)) == [c]
    ensures EndsWithChar(v, c) <==> Units(Right(v, 1)) == [c]
  {
    if v.size == 1 {
      assert Left(v, 1) == v && Right(v, 1) == v;
    }
  }
}
