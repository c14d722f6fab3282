/**
  A `QStringView` object as an lvalue: `truncate` and `chop` shrink its
  own size field in place and leave the data pointer, and so the buffer
  and the null-ness, as they were.
 */
module ViewObject {
  import opened Memory
  import opened StringView

  class QStringView {
    var size: QSizeType
    var data: Pointer

    /** The view value the object currently holds. */
    function Value(): View
      reads this
    {
      View(size, data)
    }

    predicate Valid()
      reads this
    {
      StringView.Valid(Value())
    }

    constructor (v: View)
      requires StringView.Valid(v)
      ensures Valid() && Value() == v
    {
      size := v.size;
      data := v.data;
    }

    /** `truncate(n)`: keep the first `n` units, `0 <= n <= size()` asserted. */
    method Truncate(n: QSizeType)
      requires Valid() && 0 <= n <= size
      modifies this`size
      ensures Valid() && size == n && data == old(data)
      ensures Value() == First(old(Value()), n)
      ensures Units(Value()) == old(Units(Value()))[..n]
      ensures IsNull(Value()) == old(IsNull(Value()))
    {
      size := n;
    }

    /** `chop(n)`: drop the last `n` units, `0 <= n <= size()` asserted. */
    method Chop(n: QSizeType)
      requires Valid() && 0 <= n <= size
      modifies this`size
      ensures Valid() && size == old(size) - n && data == old(data)
      ensures Value() == Chopped(old(Value()), n)
      ensures Units(Value()) == old(Units(Value()))[..old(size) - n]
      ensures IsNull(Value()) == old(IsNull(Value()))
    {
      size := size - n;
    }
  }
}
