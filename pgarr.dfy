// The growable arrays of src/include/lib/pgarr.h and src/common/pgarr.c: a
// header with `size` and `capacity` (both uint32) and a pointer to the element
// storage, which is either placed right after the header in the same
// allocation ("inline") or allocated separately.  `elements` is that storage;
// `storage` says where it lives.  abort() is a `Failed(Abort)` outcome.

module PgArrs {
  import opened Wrappers
  import opened CInt

  /** MAXALIGN(sizeof(PgArrBase)): two uint32 and a pointer. */
  const HeaderSize: nat := 16
  /** PGARR_DEFAULT_ALLOC: the capacity pgarr_alloc asks for. */
  const DefaultAlloc: nat := 8
  /** PGARR_INLINE_LIMIT: the largest single allocation that holds the elements inline. */
  const InlineLimit: nat := 128

  /** Where `elementsp` points. */
  datatype Storage =
    | NoStorage   // NULL: a zeroed header that was never allocated
    | Inline      // right after the header, in the header's allocation
    | Separate    // a palloc'd buffer of its own

  /** pgarr_helper_alloc's choice: inline iff header and elements take at most 128 bytes. */
  predicate FitsInline(elemSize: nat, capacity: nat)
  {
    HeaderSize + elemSize * capacity <= InlineLimit
  }

  /**
   * The capacity pgarr_helper_reserve_realloc computes for `add` more
   * elements: abort when `add` or `size + add` exceed uint32; otherwise
   * max(2 * size, 8) doubled until it covers `size + add`, clamped to
   * UINT32_MAX.
   */
  function GrowthCapacity(size: nat, add: nat): (r: Result<int>)
    ensures r.Err? <==> add >= UINT32_MAX || size + add > UINT32_MAX
    ensures r.Ok? ==> r.value <= UINT32_MAX
  {
    if add >= UINT32_MAX then Err(Abort("pgarr: too many elements added"))
    else if size + add > UINT32_MAX then Err(Abort("pgarr: capacity overflow"))
    else
      var start := if 2 * size > DefaultAlloc then 2 * size else DefaultAlloc;
      var doubled := Doubled(start, size + add);
      Ok(if doubled > UINT32_MAX then UINT32_MAX else doubled)
  }

  /**
   * The growth rule: it aborts exactly on the two overflow conditions, and
   * otherwise the new capacity holds `size + add` elements, stays within
   * uint32, is at least max(2 * size, 8) unless clamped, and is that start
   * value times a power of two unless clamped.
   */
  lemma {:induction false} GrowthCapacityMeaning(size: nat, add: nat)
    ensures GrowthCapacity(size, add).Ok? <==> add < UINT32_MAX && size + add <= UINT32_MAX
    ensures GrowthCapacity(size, add).Ok? ==>
      var c := GrowthCapacity(size, add).value;
      var start := if 2 * size > DefaultAlloc then 2 * size else DefaultAlloc;
      size + add <= c <= UINT32_MAX &&
      (c == UINT32_MAX || (c >= start && c == start * Pow2(Doublings(start, size + add))))
  {
    if add < UINT32_MAX && size + add <= UINT32_MAX {
      var start := if 2 * size > DefaultAlloc then 2 * size else DefaultAlloc;
      DoubledMeaning(start, size + add);
    }
  }

  /**
   * The assertion at the top of pgarr_realloc, `newcapacity < PG_UINT32_MAX`.
   */
  predicate ReallocAssertion(newcapacity: nat)
  {
    newcapacity < UINT32_MAX
  }

  /**
   * pgarr_helper_reserve_realloc can hand pgarr_realloc exactly UINT32_MAX:
   * growing 2^31 elements by one doubles past uint32 and is clamped, which
   * the assertion rejects.
   */
  lemma {:induction false} GrowthReachesAssertedLimit()
    ensures GrowthCapacity(0x8000_0000, 1) == Ok(UINT32_MAX)
    ensures !ReallocAssertion(GrowthCapacity(0x8000_0000, 1).value)
  {
    assert Doubled(0x1_0000_0000, 0x8000_0001) == 0x1_0000_0000;
  }

  /**
   * What the assertion at the end of pgarr_helper_append relies on: growing
   * by one leaves a spare slot, `size + 1 < capacity`, for every size below
   * UINT32_MAX - 1.  At UINT32_MAX - 1 the clamped capacity leaves none.
   */
  lemma {:induction false} GrowthLeavesSpareSlot(size: nat)
    requires size + 1 <= UINT32_MAX
    ensures GrowthCapacity(size, 1).Ok?
    ensures size + 1 < UINT32_MAX <==> size + 1 < GrowthCapacity(size, 1).value
  {
    GrowthCapacityMeaning(size, 1);
    var start := if 2 * size > DefaultAlloc then 2 * size else DefaultAlloc;
    DoubledMeaning(start, size + 1);
  }

  class PgArr<T(0)> {
    var size: nat
    var capacity: nat
    var elements: array<T>
    var storage: Storage
    /** sizeof(elty) */
    const elemSize: nat

    /**
     * `size` never exceeds `capacity`, both are uint32, and the storage
     * holds exactly `capacity` elements (none for a NULL `elementsp`).
     */
    predicate Valid()
      reads this
    {
      size <= capacity <= UINT32_MAX && elemSize >= 1 &&
      (if storage == NoStorage then capacity == 0 && size == 0 && elements.Length == 0
       else elements.Length == capacity)
    }

    /** The elements in use. */
    function Elements(): seq<T>
      reads this, elements
      requires Valid()
    {
      elements[..size]
    }

    /** A zero-initialized header: no storage, nothing in it. */
    constructor Zeroed(elemSize: nat)
      requires elemSize >= 1
      ensures Valid() && Elements() == [] && capacity == 0 && storage == NoStorage
      ensures this.elemSize == elemSize
    {
      this.elemSize := elemSize;
      size := 0;
      capacity := 0;
      storage := NoStorage;
      elements := new T[0];
    }

    /** pgarr_helper_alloc_inline (and pgarr_alloc_ro): one allocation holding header and elements. */
    constructor AllocInline(elemSize: nat, capacity: nat)
      requires elemSize >= 1 && capacity <= UINT32_MAX
      ensures Valid() && Elements() == [] && this.capacity == capacity && storage == Inline
      ensures this.elemSize == elemSize && fresh(elements)
    {
      this.elemSize := elemSize;
      size := 0;
      this.capacity := capacity;
      storage := Inline;
      elements := new T[capacity];
    }

    /** pgarr_helper_alloc_outline: the header and the elements in two allocations. */
    constructor AllocOutline(elemSize: nat, capacity: nat)
      requires elemSize >= 1 && capacity <= UINT32_MAX
      ensures Valid() && Elements() == [] && this.capacity == capacity && storage == Separate
      ensures this.elemSize == elemSize && fresh(elements)
    {
      this.elemSize := elemSize;
      size := 0;
      this.capacity := capacity;
      storage := Separate;
      elements := new T[capacity];
    }

    /**
     * pgarr_helper_alloc (pgarr_alloc_capacity; pgarr_alloc is the capacity
     * DefaultAlloc): an empty array of the requested capacity, inline iff it
     * fits in InlineLimit bytes.
     */
    constructor Alloc(elemSize: nat, capacity: nat)
      requires elemSize >= 1 && capacity <= UINT32_MAX
      ensures Valid() && Elements() == [] && this.capacity == capacity
      ensures storage == (if FitsInline(elemSize, capacity) then Inline else Separate)
      ensures this.elemSize == elemSize && fresh(elements)
    {
      this.elemSize := elemSize;
      size := 0;
      this.capacity := capacity;
      storage := if FitsInline(elemSize, capacity) then Inline else Separate;
      elements := new T[capacity];
    }

    /** pgarr_empty: no element is in use. */
    predicate IsEmpty()
      reads this, elements
      requires Valid()
      ensures IsEmpty() <==> Elements() == []
    {
      size == 0
    }

    /**
     * pgarr_realloc with the inline case storing its new buffer: the size is
     * cut to the new capacity, the kept elements are preserved, and the
     * elements always end up in a separate buffer of `newcapacity` slots.
     */
    method Realloc(newcapacity: nat)
      requires Valid() && newcapacity <= UINT32_MAX
      modifies this
      ensures Valid() && capacity == newcapacity && storage == Separate && fresh(elements)
      ensures size == if old(size) > newcapacity then newcapacity else old(size)
      ensures Elements() == old(Elements())[..size]
    {
      if size > newcapacity {
        size := newcapacity;
      }
      var buffer := new T[newcapacity];
      match storage {
        case NoStorage =>
        case Inline =>
          forall i | 0 <= i < size {
            buffer[i] := elements[i];
          }
        case Separate =>
          // repalloc keeps as much of the old buffer as fits
          var keep := if elements.Length < newcapacity then elements.Length else newcapacity;
          forall i | 0 <= i < keep {
            buffer[i] := elements[i];
          }
      }
      elements := buffer;
      storage := Separate;
      capacity := newcapacity;
    }

    /**
     * pgarr_realloc as written: for inline storage the elements are copied
     * into a new buffer that is then dropped, so `elements` stays the inline
     * storage while `capacity` grows past it.
     */
    method ReallocAsWritten(newcapacity: nat)
      requires Valid() && newcapacity <= UINT32_MAX
      modifies this
      ensures capacity == newcapacity
      ensures size == if old(size) > newcapacity then newcapacity else old(size)
      ensures old(storage) == Inline ==> elements == old(elements) && storage == Inline
      ensures old(storage) == Inline && newcapacity > old(capacity) ==> !Valid()
      ensures old(storage) != Inline ==> Valid() && Elements() == old(Elements())[..size]
    {
      if size > newcapacity {
        size := newcapacity;
      }
      match storage {
        case NoStorage =>
          elements := new T[newcapacity];
          storage := Separate;
        case Inline =>
          var dropped := new T[newcapacity];
          forall i | 0 <= i < size {
            dropped[i] := elements[i];
          }
        case Separate =>
          var buffer := new T[newcapacity];
          var keep := if elements.Length < newcapacity then elements.Length else newcapacity;
          forall i | 0 <= i < keep {
            buffer[i] := elements[i];
          }
          elements := buffer;
      }
      capacity := newcapacity;
    }

    /** pgarr_helper_reserve_realloc: abort on overflow, else reallocate to GrowthCapacity. */
    method ReserveRealloc(add: nat) returns (r: Outcome)
      requires Valid() && add <= UINT64_MAX
      modifies this
      ensures Valid()
      ensures r.Failed? <==> GrowthCapacity(old(size), add).Err?
      ensures r.Failed? ==> r.fault.Abort? && unchanged(this)
      ensures r.Done? ==> capacity == GrowthCapacity(old(size), add).value && fresh(elements)
      ensures r.Done? ==> size + add <= capacity && Elements() == old(Elements())
    {
      GrowthCapacityMeaning(size, add);
      var grown := GrowthCapacity(size, add);
      if grown.Err? {
        return Failed(grown.fault);
      }
      Realloc(grown.value);
      r := Done;
    }

    /**
     * pgarr_helper_reserve: reallocates only when `size + add` exceeds the
     * capacity; afterwards there is room for `add` more elements.
     */
    method Reserve(add: nat) returns (r: Outcome)
      requires Valid() && add <= UINT64_MAX
      modifies this
      ensures Valid()
      ensures r.Failed? <==> old(size) + add > old(capacity) && GrowthCapacity(old(size), add).Err?
      ensures r.Failed? ==> r.fault.Abort? && unchanged(this)
      ensures r.Done? ==> size + add <= capacity && Elements() == old(Elements())
      ensures old(size) + add <= old(capacity) ==> unchanged(this) && r.Done?
      ensures elements == old(elements) || fresh(elements)
    {
      if size + add > capacity {
        r := ReserveRealloc(add);
      } else {
        r := Done;
      }
    }

    /**
     * pgarr_helper_append followed by the store of pgarr_append, as
     * written: the test `size + 1 >= capacity` is done in uint32, so at
     * size UINT32_MAX it wraps to 0, no room is made, and the store lands
     * one past the storage (an `Undefined` outcome, nothing written).
     */
    method AppendAsWritten(x: T) returns (r: Outcome)
      requires Valid()
      modifies this, elements
      ensures Valid()
      ensures r.Failed? <==> old(size) == UINT32_MAX
      ensures r.Failed? ==> r.fault.Undefined? && unchanged(this) && unchanged(elements)
      ensures r.Done? ==> Elements() == old(Elements()) + [x]
    {
      if ToUInt32(size + 1) >= capacity {
        r := ReserveRealloc(1);
      }
      if size >= capacity {
        return Failed(Undefined("pgarr_append: store past the storage"));
      }
      Store(x);
      r := Done;
    }

    /**
     * pgarr_append with the room test done without wrap-around: it makes
     * room when no spare slot is left and then stores `x` at the old size.
     * It aborts only when uint32 cannot count one more element.
     */
    method Append(x: T) returns (r: Outcome)
      requires Valid()
      modifies this, elements
      ensures Valid()
      ensures r.Failed? <==> old(size) == UINT32_MAX
      ensures r.Failed? ==> r.fault.Abort? && unchanged(this) && unchanged(elements)
      ensures r.Done? ==> Elements() == old(Elements()) + [x]
      ensures r.Done? && old(size) + 1 < old(capacity) ==> elements == old(elements) && capacity == old(capacity)
    {
      if size + 1 >= capacity {
        r := ReserveRealloc(1);
        if r.Failed? {
          return;
        }
      }
      Store(x);
      r := Done;
    }

    /** pgarr_append_reserved: the caller has made room beforehand. */
    method AppendReserved(x: T)
      requires Valid() && size < capacity
      modifies this, elements
      ensures Valid() && elements == old(elements) && capacity == old(capacity)
      ensures Elements() == old(Elements()) + [x]
    {
      Store(x);
    }

    /** `elementsp[size++] = x` */
    method Store(x: T)
      requires Valid() && size < capacity
      modifies this, elements
      ensures Valid() && elements == old(elements) && capacity == old(capacity) && storage == old(storage)
      ensures Elements() == old(Elements()) + [x]
    {
      elements[size] := x;
      size := size + 1;
    }

    /**
     * pgarr_helper_clone: a new array of capacity `size` (inline if that is
     * small enough) holding the same elements.
     */
    method Clone() returns (c: PgArr<T>)
      requires Valid()
      ensures fresh(c) && fresh(c.elements) && c.Valid()
      ensures c.Elements() == Elements() && c.capacity == size && c.elemSize == elemSize
      ensures c.storage == if FitsInline(elemSize, size) then Inline else Separate
    {
      c := new PgArr<T>.Alloc(elemSize, size);
      forall i | 0 <= i < size {
        c.elements[i] := elements[i];
      }
      c.size := size;
    }

    /**
     * pgarr_set_all: the size is reset, room is made for `n` elements, and
     * all `n` are set to `fill`.  `fill` stands for the element whose every
     * byte is the memset value.  If the reservation aborts the size has
     * already been set to 0.
     */
    method SetAll(n: nat, fill: T) returns (r: Outcome)
      requires Valid() && n <= UINT32_MAX
      modifies this, elements
      ensures Valid()
      ensures r.Failed? <==> n > old(capacity) && GrowthCapacity(0, n).Err?
      ensures r.Done? ==> size == n && forall i :: 0 <= i < n ==> Elements()[i] == fill
    {
      size := 0;
      r := Reserve(n);
      if r.Failed? {
        return;
      }
      forall i | 0 <= i < n {
        elements[i] := fill;
      }
      size := n;
    }

    /**
     * pgarr_copy: dst's size is reset, room is made for src's size, and the
     * elements are copied one by one.  Because src's size is read after
     * dst's is reset, copying an array onto itself empties it.
     */
    method CopyFrom(src: PgArr<T>) returns (r: Outcome)
      requires Valid() && src.Valid()
      requires src == this || src.elements != elements
      modifies this, elements
      ensures Valid()
      ensures r.Failed? <==> src != this && old(src.size) > old(capacity) && GrowthCapacity(0, old(src.size)).Err?
      ensures r.Done? && src == this ==> Elements() == []
      ensures r.Done? && src != this ==> Elements() == old(src.Elements())
    {
      size := 0;
      var n := src.size;
      r := Reserve(n);
      if r.Failed? {
        return;
      }
      var i := 0;
      while i < n
        invariant 0 <= i <= n && Valid() && n <= capacity && size == 0
        invariant src != this ==> src.Valid() && src.size == n && src.elements[..n] == old(src.elements[..src.size])
        invariant src != this ==> elements[..i] == src.elements[..i]
        invariant src == this ==> n == 0
        invariant elements == old(elements) || fresh(elements)
      {
        elements[i] := src.elements[i];
        i := i + 1;
      }
      size := n;
    }
  }

  /** pgarr_size: 0 for a NULL array, otherwise its size. */
  function ArrSize<T(0)>(arr: PgArr?<T>): (n: nat)
    reads arr
    ensures arr == null ==> n == 0
    ensures arr != null ==> n == arr.size
  {
    if arr == null then 0 else arr.size
  }
}
