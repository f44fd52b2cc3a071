// The extensible string buffer of src/include/lib/stringinfo.h and
// src/common/stringinfo.c: a palloc'd character array `data`, its allocated
// size `maxlen`, the used length `len` and a scan `cursor`.  Reallocation
// (repalloc) is a fresh array holding the old contents; an ereport(ERROR) is a
// `Failed` outcome that leaves the buffer as it was.

module StringInfos {
  import opened Wrappers
  import opened CInt
  import opened PgString

  /** MaxAllocSize: the largest request palloc accepts, 1 GB - 1. */
  const MaxAllocSize: int := 0x3FFF_FFFF

  /** The buffer size initStringInfo allocates. */
  const InitialSize: int := 1024

  /**
   * The buffer size enlargeStringInfoImpl chooses to make room for `needed`
   * more bytes and a NUL: the old size doubled at least once until it holds
   * `len + needed + 1` bytes, then clamped to MaxAllocSize.
   */
  function EnlargedSize(maxlen: int, len: int, needed: int): (r: int)
    requires maxlen >= 1
    ensures r <= MaxAllocSize
  {
    var newlen := Doubled(2 * maxlen, len + needed + 1);
    if newlen > MaxAllocSize then MaxAllocSize else newlen
  }

  /** The clamp never takes the size below what was asked for, nor below the old size. */
  lemma {:induction false} EnlargedSizeFits(maxlen: int, len: int, needed: int)
    requires 0 <= len < maxlen <= MaxAllocSize
    requires 0 <= needed < MaxAllocSize - len
    ensures len + needed < EnlargedSize(maxlen, len, needed) <= MaxAllocSize
    ensures maxlen <= EnlargedSize(maxlen, len, needed)
  {
    DoubledMeaning(2 * maxlen, len + needed + 1);
  }

  /** Whether enlargeStringInfo(str, datalen) takes the slow path. */
  predicate NeedsEnlarging(len: int, maxlen: int, datalen: int)
  {
    !IsInt32(len + datalen) || len + datalen >= maxlen
  }

  /** Whether enlargeStringInfoImpl rejects a request (elog/ereport ERROR). */
  predicate EnlargeRejects(len: int, needed: int)
  {
    needed < 0 || needed >= MaxAllocSize - len
  }

  /**
   * For a request the caller can make (a C `int` of at most MaxAllocSize - len
   * - 1 bytes) the fast path is taken exactly when the bytes and the NUL do
   * not fit, and a rejected request is always one that also needs enlarging.
   */
  lemma {:induction false} EnlargeDecision(len: int, maxlen: int, datalen: int)
    requires 0 <= len < maxlen <= MaxAllocSize && IsInt32(datalen)
    ensures !NeedsEnlarging(len, maxlen, datalen) <==> len + datalen < maxlen
    ensures NeedsEnlarging(len, maxlen, datalen) ==> datalen >= 0
    ensures NeedsEnlarging(len, maxlen, datalen) && EnlargeRejects(len, datalen) <==> datalen >= MaxAllocSize - len
  {
  }

  class StringInfo {
    var data: array<char>
    var len: int
    var maxlen: int
    var cursor: int

    /** `maxlen` is the size of `data`, and always more than `len`. */
    predicate Valid()
      reads this
    {
      data.Length == maxlen && 0 <= len < maxlen <= MaxAllocSize && IsInt32(cursor)
    }

    /** The documented terminator: a NUL at data[len]. */
    predicate Terminated()
      reads this, data
      requires Valid()
    {
      data[len] == '\0'
    }

    /** The string held. */
    function Contents(): string
      reads this, data
      requires Valid()
    {
      data[..len]
    }

    /** initStringInfo: a 1024-byte buffer holding the empty string. */
    constructor Init()
      ensures Valid() && Terminated() && fresh(data)
      ensures Contents() == [] && maxlen == InitialSize && cursor == 0
    {
      data := new char[InitialSize];
      maxlen := InitialSize;
      len := 0;
      cursor := 0;
      new;
      data[0] := '\0';
    }

    /** resetStringInfo: same buffer and size, empty contents, cursor back at 0. */
    method Reset()
      requires Valid()
      modifies this, data
      ensures Valid() && Terminated()
      ensures data == old(data) && maxlen == old(maxlen)
      ensures Contents() == [] && cursor == 0
      ensures data[1..] == old(data[1..])
    {
      data[0] := '\0';
      len := 0;
      cursor := 0;
    }

    /**
     * enlargeStringInfoImpl.  Rejects a negative request and one that would
     * reach MaxAllocSize; otherwise reallocates to EnlargedSize, keeping the
     * old bytes.  The C code asserts that it is only called when the request
     * does not already fit.
     */
    method EnlargeImpl(needed: int) returns (r: Outcome)
      requires Valid() && IsInt32(needed)
      requires EnlargeRejects(len, needed) || len + needed >= maxlen
      modifies this
      ensures Valid()
      ensures r.Failed? <==> EnlargeRejects(old(len), needed)
      ensures r.Failed? ==> if needed < 0 then r.fault.Abort? else r.fault.OutOfMemory?
      ensures r.Failed? ==> unchanged(this)
      ensures r.Done? ==> fresh(data) && maxlen == EnlargedSize(old(maxlen), old(len), needed)
      ensures r.Done? ==> len + needed < maxlen && len == old(len) && cursor == old(cursor)
      ensures r.Done? ==> old(maxlen) <= maxlen && data[..old(maxlen)] == old(data[..])
    {
      if needed < 0 {
        return Failed(Abort("invalid string enlargement request size"));
      }
      if needed >= MaxAllocSize - len {
        return Failed(OutOfMemory("Cannot enlarge string buffer"));
      }
      var total := needed + len + 1;
      var newlen := 2 * maxlen;
      while total > newlen
        invariant 1 <= newlen <= 2 * MaxAllocSize
        invariant Doubled(newlen, total) == Doubled(2 * maxlen, total)
        decreases total - newlen
      {
        newlen := 2 * newlen;
      }
      if newlen > MaxAllocSize {
        newlen := MaxAllocSize;
      }
      EnlargedSizeFits(maxlen, len, needed);
      var grown := new char[newlen];
      forall i | 0 <= i < maxlen {
        grown[i] := data[i];
      }
      data := grown;
      maxlen := newlen;
      r := Done;
    }

    /**
     * enlargeStringInfo: nothing happens when `len + datalen` neither
     * overflows nor reaches `maxlen`; otherwise the slow path.  It fails
     * exactly when `datalen` bytes and a NUL cannot stay under MaxAllocSize.
     */
    method Enlarge(datalen: int) returns (r: Outcome)
      requires Valid() && IsInt32(datalen)
      modifies this
      ensures Valid()
      ensures r.Failed? <==> datalen >= MaxAllocSize - old(len)
      ensures r.Failed? ==> r.fault.OutOfMemory? && unchanged(this)
      ensures r.Done? ==> len == old(len) && cursor == old(cursor) && len + datalen < maxlen
      ensures r.Done? ==> old(maxlen) <= maxlen && data[..old(maxlen)] == old(data[..])
      ensures r.Done? && !NeedsEnlarging(old(len), old(maxlen), datalen) ==> unchanged(this)
      ensures r.Done? && NeedsEnlarging(old(len), old(maxlen), datalen) ==>
                fresh(data) && maxlen == EnlargedSize(old(maxlen), old(len), datalen)
    {
      EnlargeDecision(len, maxlen, datalen);
      if NeedsEnlarging(len, maxlen, datalen) {
        r := EnlargeImpl(datalen);
      } else {
        r := Done;
      }
    }

    /**
     * appendBinaryStringInfo: `bytes` appended and the NUL rewritten after
     * them.  A failed enlargement leaves everything as it was.
     */
    method AppendBinary(bytes: seq<char>) returns (r: Outcome)
      requires Valid() && |bytes| <= INT32_MAX
      modifies this, data
      ensures Valid()
      ensures r.Failed? <==> |bytes| >= MaxAllocSize - old(len)
      ensures r.Failed? ==> unchanged(this) && unchanged(data)
      ensures r.Done? ==> Contents() == old(Contents()) + bytes && Terminated() && cursor == old(cursor)
    {
      ghost var before := Contents();
      r := Enlarge(|bytes|);
      if r.Failed? {
        return;
      }
      assert data[..len] == before;
      CopyInto(data, len, bytes);
      len := len + |bytes|;
      data[len] := '\0';
      assert data[..len] == before + bytes;
    }

    /**
     * appendBinaryStringInfoNT: the same, except that no NUL is written, so
     * the buffer need not be terminated afterwards.
     */
    method AppendBinaryNT(bytes: seq<char>) returns (r: Outcome)
      requires Valid() && |bytes| <= INT32_MAX
      modifies this, data
      ensures Valid()
      ensures r.Failed? <==> |bytes| >= MaxAllocSize - old(len)
      ensures r.Failed? ==> unchanged(this) && unchanged(data)
      ensures r.Done? ==> Contents() == old(Contents()) + bytes && cursor == old(cursor)
    {
      ghost var before := Contents();
      r := Enlarge(|bytes|);
      if r.Failed? {
        return;
      }
      assert data[..len] == before;
      CopyInto(data, len, bytes);
      len := len + |bytes|;
      assert data[..len] == before + bytes;
    }

    /** appendStringInfoString: appendBinaryStringInfo of the bytes before the first NUL. */
    method AppendString(s: seq<char>) returns (r: Outcome)
      requires Valid() && '\0' in s && |s| <= INT32_MAX
      modifies this, data
      ensures Valid()
      ensures r.Failed? <==> CStrLen(s) >= MaxAllocSize - old(len)
      ensures r.Failed? ==> unchanged(this) && unchanged(data)
      ensures r.Done? ==> Contents() == old(Contents()) + s[..CStrLen(s)] && Terminated() && cursor == old(cursor)
    {
      r := AppendBinary(s[..CStrLen(s)]);
    }

    /** appendStringInfoChar */
    method AppendChar(ch: char) returns (r: Outcome)
      requires Valid()
      modifies this, data
      ensures Valid()
      ensures r.Failed? <==> old(len) + 1 >= MaxAllocSize
      ensures r.Failed? ==> unchanged(this) && unchanged(data)
      ensures r.Done? ==> Contents() == old(Contents()) + [ch] && Terminated() && cursor == old(cursor)
    {
      ghost var before := Contents();
      r := Enlarge(1);
      if r.Failed? {
        return;
      }
      assert data[..len] == before;
      data[len] := ch;
      len := len + 1;
      data[len] := '\0';
      assert data[..len] == before + [ch];
    }

    /**
     * appendStringInfoSpaces: `count` spaces and a NUL when `count` is
     * positive; nothing at all otherwise.
     */
    method AppendSpaces(count: int) returns (r: Outcome)
      requires Valid() && IsInt32(count)
      modifies this, data
      ensures Valid()
      ensures r.Failed? <==> count > 0 && count >= MaxAllocSize - old(len)
      ensures r.Failed? || count <= 0 ==> unchanged(this) && unchanged(data)
      ensures r.Done? && count > 0 ==>
                Contents() == old(Contents()) + Repeat(' ', count) && Terminated() && cursor == old(cursor)
    {
      if count <= 0 {
        return Done;
      }
      ghost var before := Contents();
      r := Enlarge(count);
      if r.Failed? {
        return;
      }
      ghost var start := len;
      var left := count;
      while left > 0
        invariant Valid() && start <= len == start + (count - left) && 0 <= left <= count
        invariant (data == old(data) || fresh(data)) && cursor == old(cursor)
        invariant len + left < maxlen
        invariant forall k :: 0 <= k < start ==> data[k] == before[k]
        invariant forall k :: start <= k < len ==> data[k] == ' '
        decreases left
      {
        data[len] := ' ';
        len := len + 1;
        left := left - 1;
      }
      data[len] := '\0';
      ghost var want := before + Repeat(' ', count);
      assert |data[..len]| == |want|;
      forall k | 0 <= k < len
        ensures data[..len][k] == want[k]
      {
        if k < start {
          assert want[k] == before[k];
        } else {
          assert want[k] == Repeat(' ', count)[k - start];
        }
      }
      assert data[..len] == want;
    }

    /**
     * appendStringInfoInt32: room for MAXINT32LEN more bytes, then
     * pg_int32tostr_nn at the end of the string and a new NUL.
     */
    method AppendInt32(v: int) returns (r: Outcome)
      requires Valid() && IsInt32(v)
      modifies this, data
      ensures Valid()
      ensures r.Failed? <==> MAXINT32LEN >= MaxAllocSize - old(len)
      ensures r.Failed? ==> unchanged(this) && unchanged(data)
      ensures r.Done? ==> Contents() == old(Contents()) + Decimal(v) && Terminated() && cursor == old(cursor)
    {
      r := Enlarge(MAXINT32LEN);
      if r.Failed? {
        return;
      }
      DecimalLengthBounds(v);
      PutInt32(v);
    }

    /** appendStringInfoUInt32 */
    method AppendUInt32(v: int) returns (r: Outcome)
      requires Valid() && IsUInt32(v)
      modifies this, data
      ensures Valid()
      ensures r.Failed? <==> MAXINT32LEN >= MaxAllocSize - old(len)
      ensures r.Failed? ==> unchanged(this) && unchanged(data)
      ensures r.Done? ==> Contents() == old(Contents()) + Decimal(v) && Terminated() && cursor == old(cursor)
    {
      r := Enlarge(MAXINT32LEN);
      if r.Failed? {
        return;
      }
      DecimalLengthBounds(v);
      PutUInt32(v);
    }

    /**
     * appendStringInfoInt64 as written: room for only MAXINT64LEN (13) more
     * bytes, then pg_int64tostr_nn of the value converted from the `uint64`
     * parameter to `int64`.  When the digits and the NUL run past the
     * buffer, the C code writes out of bounds; here that is an `Undefined`
     * outcome and nothing is written.
     */
    method AppendInt64AsWritten(val: int) returns (r: Outcome)
      requires Valid() && IsUInt64(val)
      modifies this, data
      ensures Valid()
      ensures r.Failed? && r.fault.Undefined? <==>
                MAXINT64LEN < MaxAllocSize - old(len) &&
                Int64Overruns(old(len), old(maxlen), ToInt64(val))
      ensures r.Done? ==> Contents() == old(Contents()) + Decimal(ToInt64(val)) && Terminated()
    {
      r := Enlarge(MAXINT64LEN);
      if r.Failed? {
        return;
      }
      var v := ToInt64(val);
      assert Int64Overruns(old(len), old(maxlen), v) <==> len + |Decimal(v)| >= maxlen;
      if len + |Decimal(v)| >= maxlen {
        return Failed(Undefined("write past the end of the buffer"));
      }
      PutInt64(v);
    }

    /**
     * appendStringInfoInt64 with the room it needs: the 20 characters of
     * the widest value and the NUL (MAXINT64DIGITS).
     */
    method AppendInt64(val: int) returns (r: Outcome)
      requires Valid() && IsUInt64(val)
      modifies this, data
      ensures Valid()
      ensures r.Failed? <==> MAXINT64DIGITS >= MaxAllocSize - old(len)
      ensures r.Failed? ==> unchanged(this) && unchanged(data)
      ensures r.Done? ==> Contents() == old(Contents()) + Decimal(ToInt64(val)) && Terminated() && cursor == old(cursor)
    {
      r := Enlarge(MAXINT64DIGITS);
      if r.Failed? {
        return;
      }
      var v := ToInt64(val);
      DecimalLengthBounds(v);
      PutInt64(v);
    }

    /** appendStringInfoUInt64 as written: the same shortfall as the signed version. */
    method AppendUInt64AsWritten(val: int) returns (r: Outcome)
      requires Valid() && IsUInt64(val)
      modifies this, data
      ensures Valid()
      ensures r.Failed? && r.fault.Undefined? <==>
                MAXINT64LEN < MaxAllocSize - old(len) &&
                Int64Overruns(old(len), old(maxlen), val)
      ensures r.Done? ==> Contents() == old(Contents()) + Decimal(val) && Terminated()
    {
      r := Enlarge(MAXINT64LEN);
      if r.Failed? {
        return;
      }
      assert Int64Overruns(old(len), old(maxlen), val) <==> len + |Decimal(val)| >= maxlen;
      if len + |Decimal(val)| >= maxlen {
        return Failed(Undefined("write past the end of the buffer"));
      }
      PutUInt64(val);
    }

    /** The tail of the signed 32-bit append: pg_int32tostr_nn at `len`, then the NUL. */
    method PutInt32(v: int)
      requires Valid() && IsInt32(v) && len + |Decimal(v)| < maxlen
      modifies this, data
      ensures Valid() && data == old(data) && maxlen == old(maxlen) && cursor == old(cursor)
      ensures Contents() == old(Contents()) + Decimal(v) && Terminated()
    {
      var after := Int32ToStrNN(data, len, v);
      assert data[..after] == data[..len] + data[len..after];
      len := after;
      data[len] := '\0';
    }

    /** The tail of the unsigned 32-bit append: pg_uint32tostr_nn at `len`, then the NUL. */
    method PutUInt32(v: int)
      requires Valid() && IsUInt32(v) && len + |Decimal(v)| < maxlen
      modifies this, data
      ensures Valid() && data == old(data) && maxlen == old(maxlen) && cursor == old(cursor)
      ensures Contents() == old(Contents()) + Decimal(v) && Terminated()
    {
      var after := UInt32ToStrNN(data, len, v);
      assert data[..after] == data[..len] + data[len..after];
      len := after;
      data[len] := '\0';
    }

    /** The tail of the signed 64-bit appends: pg_int64tostr_nn at `len`, then the NUL. */
    method PutInt64(v: int)
      requires Valid() && IsInt64(v) && len + |Decimal(v)| < maxlen
      modifies this, data
      ensures Valid() && data == old(data) && maxlen == old(maxlen) && cursor == old(cursor)
      ensures Contents() == old(Contents()) + Decimal(v) && Terminated()
    {
      var after := Int64ToStrNN(data, len, v);
      assert data[..after] == data[..len] + data[len..after];
      len := after;
      data[len] := '\0';
    }

    /** The tail of the unsigned 64-bit appends: pg_uint64tostr_nn at `len`, then the NUL. */
    method PutUInt64(v: int)
      requires Valid() && IsUInt64(v) && len + |Decimal(v)| < maxlen
      modifies this, data
      ensures Valid() && data == old(data) && maxlen == old(maxlen) && cursor == old(cursor)
      ensures Contents() == old(Contents()) + Decimal(v) && Terminated()
    {
      var after := UInt64ToStrNN(data, len, v);
      assert data[..after] == data[..len] + data[len..after];
      len := after;
      data[len] := '\0';
    }

    /** appendStringInfoUInt64 with room for MAXINT64DIGITS more bytes. */
    method AppendUInt64(val: int) returns (r: Outcome)
      requires Valid() && IsUInt64(val)
      modifies this, data
      ensures Valid()
      ensures r.Failed? <==> MAXINT64DIGITS >= MaxAllocSize - old(len)
      ensures r.Failed? ==> unchanged(this) && unchanged(data)
      ensures r.Done? ==> Contents() == old(Contents()) + Decimal(val) && Terminated() && cursor == old(cursor)
    {
      r := Enlarge(MAXINT64DIGITS);
      if r.Failed? {
        return;
      }
      DecimalLengthBounds(val);
      PutUInt64(val);
    }
  }

  /** The size a 64-bit conversion needs: the widest value's 20 characters and a NUL. */
  const MAXINT64DIGITS: int := 21

  /**
   * Whether, after enlargeStringInfo(str, MAXINT64LEN) from a buffer with
   * `len` bytes used of `maxlen`, the decimal text of `v` and its NUL overrun
   * the buffer.
   */
  predicate Int64Overruns(len: int, maxlen: int, v: int)
    requires 1 <= maxlen
  {
    var size := if NeedsEnlarging(len, maxlen, MAXINT64LEN) then EnlargedSize(maxlen, len, MAXINT64LEN) else maxlen;
    len + |Decimal(v)| >= size
  }

  /**
   * A buffer with 1010 of its 1024 bytes used has room for MAXINT64LEN more,
   * so it is not enlarged, yet INT64_MIN and UINT64_MAX need 20 characters and
   * a NUL past byte 1010.  One byte fewer used and the request is still
   * satisfied without enlarging.
   */
  lemma {:induction false} AppendInt64Overrun()
    ensures MAXINT64LEN == 13
    ensures !NeedsEnlarging(1010, InitialSize, MAXINT64LEN)
    ensures Int64Overruns(1010, InitialSize, INT64_MIN)
    ensures Int64Overruns(1010, InitialSize, UINT64_MAX)
  {
    WidestDecimals();
  }

  /** With MAXINT64DIGITS the room always suffices, for every 64-bit value. */
  lemma {:induction false} AppendInt64Fits(len: int, maxlen: int, v: int)
    requires 0 <= len < maxlen && len + MAXINT64DIGITS < maxlen
    requires IsInt64(v) || IsUInt64(v)
    ensures len + |Decimal(v)| < maxlen
  {
    DecimalLengthBounds(v);
  }

  /** Writes `bytes` into `a` from `at`, leaving the rest of `a` as it was (the memcpy). */
  method CopyInto(a: array<char>, at: nat, bytes: seq<char>)
    requires at + |bytes| <= a.Length
    modifies a
    ensures a[at..at + |bytes|] == bytes
    ensures a[..at] == old(a[..at]) && a[at + |bytes|..] == old(a[at + |bytes|..])
  {
    var i := 0;
    while i < |bytes|
      invariant 0 <= i <= |bytes|
      invariant a[at..at + i] == bytes[..i]
      invariant a[..at] == old(a[..at]) && a[at + |bytes|..] == old(a[at + |bytes|..])
    {
      a[at + i] := bytes[i];
      i := i + 1;
    }
  }
}
