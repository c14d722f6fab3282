/**
  `QChar::fromUcs4`: one UCS-4 code point as one or two UTF-16 code units
  (the surrogate-pair encoding of section 2.1 of RFC 2781), together with
  the decoding of section 2.2 of RFC 2781 that undoes it.
 */
module Utf16 {
  import opened Memory
  import StringView

  /** `char32_t`. */
  newtype Char32 = x: int | 0 <= x < 0x1_0000_0000

  const MaxCodePoint: int := 0x10_FFFF

  datatype Option<T> = None | Some(value: T)

  /** `QChar::requiresSurrogates`: outside the Basic Multilingual Plane,
      that is, too large for a single code unit. */
  predicate RequiresSurrogates(c: Char32)
    ensures RequiresSurrogates(c) ==> c as int > 0xFFFF
    ensures !RequiresSurrogates(c) ==> (c as int) as CodeUnit as int == c as int
  {
    c >= 0x1_0000
  }

  predicate IsHighSurrogate(u: CodeUnit) {
    0xD800 <= u <= 0xDBFF
  }

  predicate IsLowSurrogate(u: CodeUnit) {
    0xDC00 <= u <= 0xDFFF
  }

  /** `QChar::highSurrogate`: `0xD800` plus the top ten bits of `c - 0x10000`
      (section 2.1 of RFC 2781), truncated to `char16_t`, which only bites
      above U+10FFFF. It agrees with Qt's form `(c >> 10) + 0xD7C0`. */
  function HighSurrogate(c: Char32): (u: CodeUnit)
    requires RequiresSurrogates(c)
    ensures u as int == (c as int / 0x400 + 0xD7C0) % 0x1_0000
    ensures c as int <= MaxCodePoint ==> IsHighSurrogate(u)
  {
    ((0xD800 + (c as int - 0x1_0000) / 0x400) % 0x1_0000) as CodeUnit
  }

  /** `QChar::lowSurrogate`: `0xDC00` plus the low ten bits of `c - 0x10000`
      (section 2.1 of RFC 2781), which are the low ten bits of `c`. */
  function LowSurrogate(c: Char32): (u: CodeUnit)
    requires RequiresSurrogates(c)
    ensures u as int == c as int % 0x400 + 0xDC00
    ensures IsLowSurrogate(u)
  {
    (0xDC00 + (c as int - 0x1_0000) % 0x400) as CodeUnit
  }

  /** The local struct `R { char16_t chars[2]; }` that `fromUcs4` returns. */
  datatype Ucs4Units = Ucs4Units(first: CodeUnit, second: CodeUnit)

  /** `R::size()`: two units when the second slot is nonzero. */
  function Size(r: Ucs4Units): (n: int)
    ensures n == 1 || n == 2
  {
    if r.second != 0 then 2 else 1
  }

  /** The units between `R::begin()` and `R::end()`. */
  function Units(r: Ucs4Units): (s: seq<CodeUnit>)
    ensures |s| == Size(r) && s[0] == r.first
    ensures |s| == 2 ==> s[1] == r.second
  {
    [r.first, r.second][.. Size(r)]
  }

  /** `QChar::fromUcs4(c)`: a surrogate pair exactly when `c` needs one,
      otherwise the single unit `c`. */
  function FromUcs4(c: Char32): (r: Ucs4Units)
    ensures Size(r) == 2 <==> RequiresSurrogates(c)
    ensures !RequiresSurrogates(c) ==> Units(r) == [c as CodeUnit]
    ensures RequiresSurrogates(c) && c as int <= MaxCodePoint ==>
              IsHighSurrogate(Units(r)[0]) && IsLowSurrogate(Units(r)[1])
  {
    if RequiresSurrogates(c) then Ucs4Units(HighSurrogate(c), LowSurrogate(c))
    else Ucs4Units(c as CodeUnit, 0)
  }

  /** `R::operator QStringView()`: the view `{begin(), end()}` over the
      struct's own storage, `id` standing for the struct's address. */
  function ToView(r: Ucs4Units, id: nat): (v: StringView.View)
    ensures StringView.Valid(v) && !StringView.IsNull(v)
    ensures v.size as int == Size(r) && StringView.Units(v) == Units(r)
  {
    var storage := Block(id, [r.first, r.second]);
    StringView.FromPointerPair(Into(storage, 0), Into(storage, Size(r)))
  }

  /** Section 2.2 of RFC 2781: one non-surrogate unit, or a high surrogate
      followed by a low surrogate, is one code point; anything else is an error. */
  function Decode(w: seq<CodeUnit>): (r: Option<Char32>)
    ensures r.Some? ==> r.value as int <= MaxCodePoint && !(0xD800 <= r.value <= 0xDFFF)
  {
    if |w| == 1 && !(0xD800 <= w[0] <= 0xDFFF) then Some(w[0] as Char32)
    else if |w| == 2 && IsHighSurrogate(w[0]) && IsLowSurrogate(w[1]) then
      Some((0x1_0000 + (w[0] as int - 0xD800) * 0x400 + (w[1] as int - 0xDC00)) as Char32)
    else None
  }

  /** Decoding what `fromUcs4` produced gives the code point back, for
      every Unicode scalar value. */
  lemma DecodeFromUcs4(c: Char32)
    requires c as int <= MaxCodePoint && !(0xD800 <= c <= 0xDFFF)
    ensures Decode(Units(FromUcs4(c))) == Some(c)
  {
    if RequiresSurrogates(c) {
      var d := c as int - 0x1_0000;
      assert d == (d / 0x400) * 0x400 + d % 0x400;
    }
  }

  /** Conversely, every well-formed one- or two-unit sequence is what
      `fromUcs4` produces for the code point it decodes to. */
  lemma FromUcs4Decode(w: seq<CodeUnit>)
    requires Decode(w).Some?
    ensures Units(FromUcs4(Decode(w).value)) == w
  {
    if |w| == 2 {
      var hi := w[0] as int - 0xD800;
      var lo := w[1] as int - 0xDC00;
      var d := hi * 0x400 + lo;
      assert d / 0x400 == hi && d % 0x400 == lo;
    }
  }

  /** Converted to a view, the result has `R::size()` units: two for a
      supplementary code point, one otherwise. */
  lemma FromUcs4ViewSize(c: Char32, id: nat)
    ensures ToView(FromUcs4(c), id).size == (if RequiresSurrogates(c) then 2 else 1)
  {
  }
}
