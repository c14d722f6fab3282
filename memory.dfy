/**
  The storage a string view points into: 16-bit code units held in
  allocations ("blocks"), nullable pointers into them, and the signed
  (`qsizetype`) and unsigned (`size_t`) integer widths the view uses.
 */
module Memory {

  /** One UTF-16 code unit (`char16_t`, `QChar::unicode()`). */
  newtype CodeUnit = x: int | 0 <= x < 0x1_0000

  /** `qsizetype` (`std::ptrdiff_t`), which is as wide as a pointer; the
      model fixes a 64-bit target, so it is a 64-bit signed integer. */
  newtype QSizeType = x: int | -0x8000_0000_0000_0000 <= x < 0x8000_0000_0000_0000

  const MaxQSize: int := 0x7FFF_FFFF_FFFF_FFFF

  /** 2^64: the modulus of the 64-bit `size_t`. */
  const SizeTModulus: int := 0x1_0000_0000_0000_0000

  /** One allocation of code units, told apart from others by its identity. */
  datatype Block = Block(id: nat, units: seq<CodeUnit>)

  /** A `const char16_t *`: null, or an address inside (or one past the end of) a block. */
  datatype Pointer = Null | Into(block: Block, offset: nat)

  /** A pointer that may be formed: it stays within its block, and no block
      holds more units than `qsizetype` can count. */
  predicate ValidPointer(p: Pointer) {
    p.Into? ==> p.offset <= |p.block.units| <= MaxQSize
  }

  /** Pointer arithmetic `p + k`; `nullptr + 0` stays null. */
  function Advance(p: Pointer, k: int): (q: Pointer)
    requires ValidPointer(p)
    requires p.Null? ==> k == 0
    requires p.Into? ==> 0 <= p.offset + k <= |p.block.units|
    ensures ValidPointer(q) && q.Null? == p.Null?
    ensures q.Into? ==> q.block == p.block && q.offset == p.offset + k
  {
    match p
    case Null => Null
    case Into(b, o) => Into(b, o + k)
  }

  /** Two pointers whose difference is defined: both null, or both into one block. */
  predicate SameObject(f: Pointer, l: Pointer) {
    (f.Null? && l.Null?) || (f.Into? && l.Into? && f.block == l.block)
  }

  /** Pointer difference `l - f`. */
  function Distance(f: Pointer, l: Pointer): (d: int)
    requires SameObject(f, l)
    ensures f.Into? ==> f.offset + d == l.offset
    ensures f.Null? ==> d == 0
  {
    if f.Null? then 0 else l.offset - f.offset
  }

  /** The conversion `size_t(n)` of a `qsizetype`: the unsigned 64-bit value
      congruent to `n` modulo 2^64, so a non-negative `n` is kept and a
      negative one becomes larger than every non-negative `qsizetype`. */
  function ToSizeT(n: QSizeType): (u: nat)
    ensures u < SizeTModulus && (u - n as int) % SizeTModulus == 0
    ensures n >= 0 ==> u == n as int
    ensures n < 0 ==> u > MaxQSize
  {
    if n < 0 then n as int + SizeTModulus else n as int
  }

  /** Comparing two such conversions against a non-negative size clamps
      every negative `n` as if it were larger than the size. */
  lemma SizeTComparison(n: QSizeType, size: QSizeType)
    requires size >= 0
    ensures ToSizeT(n) >= ToSizeT(size) <==> (n < 0 || n >= size)
  {
  }
}
