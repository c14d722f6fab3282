/**
  Which `QStringView` constructor an argument type may select. The C++
  traits `IsCompatibleCharType`, `IsCompatiblePointer` and
  `IsContainerCompatibleWithQStringView` become predicates over a small
  description of C++ types; `Classify` names the constructor that fires.
 */
module Admission {

  /** `sizeof(wchar_t)` in bytes on the target: 2 on Windows, 4 on most others. */
  datatype Platform = Platform(wcharBytes: nat)

  /** `sizeof(QChar)`. */
  const QCharBytes: nat := 2

  /** The character-like scalar types an argument may be built from. */
  datatype Scalar = QChar | UShort | Char16 | WChar | PlainChar | Char32 | Short | Int

  /** `sizeof` of each scalar type in bytes. */
  function ScalarBytes(s: Scalar, p: Platform): nat {
    match s
    case QChar => 2
    case UShort => 2
    case Char16 => 2
    case WChar => p.wcharBytes
    case PlainChar => 1
    case Char32 => 4
    case Short => 2
    case Int => 4
  }

  /** A C++ type, as far as the constructor templates look at it. */
  datatype Type =
    | ScalarType(scalar: Scalar)
    | Qualified(base: Type)                  // const and/or volatile T
    | Reference(referent: Type)              // T& or T&&
    | PointerTo(pointee: Type)               // T*
    | ArrayOf(element: Type, extent: nat)    // T[N]
    | NullptrT                               // std::nullptr_t
    | ClassType(cls: Class)

  /** The classes of interest. `Range` is any other class, described by
      what `std::data`, `std::size` and `std::begin`/`std::end` give for it;
      `Opaque` is a class they do not apply to. */
  datatype Class =
    | QStringClass
    | QStringRefClass
    | QStringViewClass
    | Range(data: Type, sizeConvertible: bool, valueType: Type, boundsComparable: bool)
    | Opaque

  /** `std::remove_cv<std::remove_reference<T>::type>::type` (also what
      `std::decay_t` does to a class type). */
  function RemoveCvRef(t: Type): Type {
    var r := if t.Reference? then t.referent else t;
    if r.Qualified? then r.base else r
  }

  /** `const T`; a type that already carries a cv-qualifier keeps one. */
  function AddConst(t: Type): Type {
    if t.Qualified? then t else Qualified(t)
  }

  /** `IsCompatibleCharType`: QChar, ushort, char16_t, and wchar_t where it
      is as wide as QChar, ignoring references and cv-qualifiers. Every such
      type has the width of `QChar`, so its storage can be read as `QChar`s. */
  predicate IsCompatibleCharType(t: Type, p: Platform)
    ensures IsCompatibleCharType(t, p) ==>
              RemoveCvRef(t).ScalarType? && ScalarBytes(RemoveCvRef(t).scalar, p) == QCharBytes
  {
    var u := RemoveCvRef(t);
    u.ScalarType? &&
    (u.scalar == QChar || u.scalar == UShort || u.scalar == Char16 ||
     (u.scalar == WChar && p.wcharBytes == QCharBytes))
  }

  /** `IsCompatiblePointer`: a pointer (not an array) to a compatible char
      type, so one whose pointee has the width of `QChar`. */
  predicate IsCompatiblePointer(t: Type, p: Platform)
    ensures IsCompatiblePointer(t, p) ==>
              RemoveCvRef(t).PointerTo? &&
              var e := RemoveCvRef(RemoveCvRef(t).pointee);
              e.ScalarType? && ScalarBytes(e.scalar, p) == QCharBytes
  {
    var u := RemoveCvRef(t);
    u.PointerTo? && IsCompatibleCharType(u.pointee, p)
  }

  /** `std::data(declval<const T &>())`; an array decays to a pointer to its element. */
  function StdDataType(t: Type): (d: Type)
    requires t.ArrayOf? || t.ClassType?
  {
    match t
    case ArrayOf(e, _) => PointerTo(AddConst(e))
    case ClassType(c) =>
      match c
      case Range(d, _, _, _) => d
      case _ => PointerTo(Qualified(ScalarType(QChar)))   // QString, QStringRef, QStringView: const QChar *
  }

  /** The value type of `std::begin`'s iterator. */
  function BeginValueType(t: Type): Type
    requires t.ArrayOf? || t.ClassType?
  {
    match t
    case ArrayOf(e, _) => RemoveCvRef(e)
    case ClassType(c) =>
      match c
      case Range(_, _, vt, _) => vt
      case _ => ScalarType(QChar)
  }

  /** The four range requirements, for a type without references or
      cv-qualifiers (any other type meets none): `std::data` gives a
      compatible pointer, `std::size` converts to `qsizetype`, the iterator's
      value type is a compatible char type, and `begin != end` converts to
      `bool`. An array (whose element is not a reference) meets them exactly
      when its element type is a compatible char type. */
  predicate MeetsRangeRequirements(t: Type, p: Platform)
    ensures t.ArrayOf? && !t.element.Reference? ==>
              (MeetsRangeRequirements(t, p) <==> IsCompatibleCharType(t.element, p))
  {
    match t
    case ArrayOf(_, _) =>
      // std::size of an array is a size_t, and pointers compare to bool
      IsCompatiblePointer(StdDataType(t), p) && IsCompatibleCharType(BeginValueType(t), p)
    case ClassType(c) =>
      !c.Opaque? &&
      IsCompatiblePointer(StdDataType(t), p) &&
      (c.Range? ==> c.sizeConvertible && c.boundsComparable) &&
      IsCompatibleCharType(BeginValueType(t), p)
    case _ => false
  }

  /** `IsContainerCompatibleWithQStringView<T>`: the range requirements, and
      `T` is not `QString`, `QStringRef` or `QStringView` itself. What it
      admits is an array or a range class, never a pointer or a string class. */
  predicate IsContainerCompatible(t: Type, p: Platform)
    ensures IsContainerCompatible(t, p) ==>
              var u := RemoveCvRef(t);
              (u.ArrayOf? || (u.ClassType? && u.cls.Range?)) &&
              !IsCompatiblePointer(t, p) && !IsQStringLike(t)
  {
    var u := RemoveCvRef(t);
    && MeetsRangeRequirements(u, p)
    && u != ClassType(QStringClass)
    && u != ClassType(QStringRefClass)
    && u != ClassType(QStringViewClass)
  }

  /** `if_compatible_qstring_like`: `QString` or `QStringRef`, which on
      every platform meet all the range requirements of a container. */
  predicate IsQStringLike(t: Type)
    ensures IsQStringLike(t) ==> forall p :: MeetsRangeRequirements(RemoveCvRef(t), p)
  {
    var u := RemoveCvRef(t);
    u == ClassType(QStringClass) || u == ClassType(QStringRefClass)
  }

  /** The constructor a one-argument conversion selects. */
  datatype Route =
    | ViaNullptr       // QStringView(std::nullptr_t)
    | ViaCopy          // the implicit copy constructor
    | ViaPointer       // QStringView(const Pointer &), scanning to the terminator
    | ViaQStringLike   // QStringView(const String &), keeping null-ness
    | ViaContainer     // QStringView(const Container &), std::data and std::size
    | NotConvertible

  /** `t` converts to `QStringView` by exactly the named constructor; the
      enable-if conditions leave at most one candidate. */
  function Classify(t: Type, p: Platform): (r: Route)
    ensures r == ViaNullptr <==> RemoveCvRef(t) == NullptrT
    ensures r == ViaCopy <==> RemoveCvRef(t) == ClassType(QStringViewClass)
    ensures r == ViaPointer <==> IsCompatiblePointer(t, p)
    ensures r == ViaQStringLike <==> IsQStringLike(t)
    ensures r == ViaContainer <==> IsContainerCompatible(t, p)
  {
    var u := RemoveCvRef(t);
    if u == NullptrT then ViaNullptr
    else if u == ClassType(QStringViewClass) then ViaCopy
    else if IsCompatiblePointer(t, p) then ViaPointer
    else if IsQStringLike(t) then ViaQStringLike
    else if IsContainerCompatible(t, p) then ViaContainer
    else NotConvertible
  }

  /** The exclusion of `std::decay_t<T>` being `QString`, `QStringRef` or
      `QStringView` is needed: each of them meets every range requirement. */
  lemma StringClassesLookLikeContainers(p: Platform)
    ensures MeetsRangeRequirements(ClassType(QStringClass), p)
    ensures MeetsRangeRequirements(ClassType(QStringRefClass), p)
    ensures MeetsRangeRequirements(ClassType(QStringViewClass), p)
    ensures !IsContainerCompatible(ClassType(QStringClass), p)
    ensures !IsContainerCompatible(ClassType(QStringRefClass), p)
    ensures !IsContainerCompatible(ClassType(QStringViewClass), p)
  {
    assert IsCompatibleCharType(Qualified(ScalarType(QChar)), p);
  }

  /** An array of compatible characters (a `u"..."` literal) is admitted
      through the container constructor, never as a pointer. */
  lemma CharArraysAreContainers(e: Scalar, n: nat, p: Platform)
    requires IsCompatibleCharType(ScalarType(e), p)
    ensures Classify(ArrayOf(Qualified(ScalarType(e)), n), p) == ViaContainer
    ensures Classify(Reference(Qualified(ArrayOf(ScalarType(e), n))), p) == ViaContainer
  {
    assert IsCompatibleCharType(Qualified(ScalarType(e)), p);
  }

  /** `wchar_t` strings are admitted exactly where `wchar_t` is 16-bit. */
  lemma WideStringsDependOnPlatform(n: nat, p: Platform)
    ensures IsCompatiblePointer(PointerTo(Qualified(ScalarType(WChar))), p) <==> p.wcharBytes == 2
    ensures IsContainerCompatible(ArrayOf(Qualified(ScalarType(WChar)), n), p) <==> p.wcharBytes == 2
  {
    if p.wcharBytes == 2 {
      assert IsCompatibleCharType(Qualified(ScalarType(WChar)), p);
    }
  }

  /** Nothing built from a non-16-bit character type is admitted by the
      pointer or container constructors. */
  lemma IncompatibleElementsRejected(e: Scalar, n: nat, p: Platform)
    requires e == PlainChar || e == Char32 || e == Short || e == Int
    ensures Classify(PointerTo(Qualified(ScalarType(e))), p) == NotConvertible
    ensures Classify(ArrayOf(Qualified(ScalarType(e)), n), p) == NotConvertible
    ensures forall sc, bc :: Classify(ClassType(Range(PointerTo(Qualified(ScalarType(e))), sc, ScalarType(e), bc)), p) == NotConvertible
  {
  }

  /** A class is admitted as a container exactly when it meets all four
      range requirements; `std::u16string` is one. */
  lemma RangeClassAdmission(d: Type, sc: bool, vt: Type, bc: bool, p: Platform)
    ensures Classify(ClassType(Range(d, sc, vt, bc)), p) == ViaContainer
        <==> IsCompatiblePointer(d, p) && sc && IsCompatibleCharType(vt, p) && bc
  {
  }
}
