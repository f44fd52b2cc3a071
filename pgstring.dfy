// The string helpers of src/common/string.c and src/include/common/string.h:
// decimal conversion of integers into a caller-supplied buffer (digits are
// produced least significant first and then reversed in place), the
// zero-padded variant, suffix test, ASCII cleaning and CR/LF stripping.

module PgString {
  import opened CInt
  import Wrappers

  // ---------------------------------------------------------------------
  // Decimal text of integers

  /** Decimal digits of n, most significant first, no leading zeros ("0" for zero). */
  function Digits(n: nat): (s: string)
    ensures 1 <= |s|
    decreases n
  {
    if n < 10 then [DigitChar(n)] else Digits(n / 10) + [DigitChar(n % 10)]
  }

  /** Every character of the digits of `n` is a decimal digit. */
  lemma {:induction false} DigitsAreDigits(n: nat)
    ensures AllDigits(Digits(n))
    decreases n
  {
    if n >= 10 {
      DigitsAreDigits(n / 10);
      var d := Digits(n / 10);
      assert Digits(n) == d + [DigitChar(n % 10)];
      forall i | 0 <= i < |Digits(n)|
        ensures IsDigit(Digits(n)[i])
      {
        if i < |d| {
          assert Digits(n)[i] == d[i];
        }
      }
    }
  }

  predicate AllDigits(s: string)
  {
    forall i :: 0 <= i < |s| ==> IsDigit(s[i])
  }

  /** The number a string of decimal digits denotes. */
  function DigitsValue(s: string): nat
    requires AllDigits(s)
  {
    if s == [] then 0 else DigitsValue(s[..|s| - 1]) * 10 + DigitValue(s[|s| - 1])
  }

  function Abs(v: int): nat { if v < 0 then -v else v }

  /** The text pg_int32tostr_nn, pg_int64tostr_nn and the unsigned writers produce for v. */
  function Decimal(v: int): string
  {
    if v < 0 then "-" + Digits(-v) else Digits(v)
  }

  lemma {:induction false} DigitsRoundTrip(n: nat)
    ensures AllDigits(Digits(n)) && DigitsValue(Digits(n)) == n
    decreases n
  {
    DigitsAreDigits(n);
    if n >= 10 {
      DigitsRoundTrip(n / 10);
      var s := Digits(n);
      assert s[..|s| - 1] == Digits(n / 10);
    }
  }

  lemma {:induction false} DigitsNoLeadingZero(n: nat)
    ensures Digits(n)[0] == '0' <==> n == 0
    decreases n
  {
    if n >= 10 {
      DigitsNoLeadingZero(n / 10);
      assert Digits(n)[0] == Digits(n / 10)[0];
    }
  }

  /** The sign comes first exactly for negative values; the digits of the magnitude follow. */
  lemma {:induction false} DecimalParts(v: int)
    ensures |Decimal(v)| >= 1 && (Decimal(v)[0] == '-' <==> v < 0)
    ensures Decimal(v)[if v < 0 then 1 else 0..] == Digits(Abs(v))
  {
    if v >= 0 {
      DigitsAreDigits(v);
      assert IsDigit(Digits(v)[0]);
    }
  }

  /** Every character of a decimal text is a digit, but a leading '-'. */
  lemma {:induction false} DecimalChars(v: int)
    ensures forall x :: 0 <= x < |Decimal(v)| ==> IsDigit(Decimal(v)[x]) || (x == 0 && Decimal(v)[x] == '-')
  {
    DecimalSplit(v);
    var d := Digits(Abs(v));
    DigitsAreDigits(Abs(v));
    forall x | 0 <= x < |Decimal(v)|
      ensures IsDigit(Decimal(v)[x]) || (x == 0 && Decimal(v)[x] == '-')
    {
      if v < 0 && x > 0 {
        assert Decimal(v)[x] == d[x - 1];
      } else if v >= 0 {
        assert Decimal(v)[x] == d[x];
      }
    }
  }

  /** The text of an integer determines the integer. */
  lemma {:induction false} DecimalInjective(a: int, b: int)
    requires Decimal(a) == Decimal(b)
    ensures a == b
  {
    DecimalParts(a);
    DecimalParts(b);
    DigitsRoundTrip(Abs(a));
    DigitsRoundTrip(Abs(b));
  }

  /** n has at most k digits exactly when n < 10^k. */
  lemma {:induction false} DigitsLength(n: nat, k: nat)
    requires 1 <= k
    ensures |Digits(n)| <= k <==> n < Pow10(k)
    decreases k
  {
    if n >= 10 {
      if k == 1 {
        assert |Digits(n)| == |Digits(n / 10)| + 1;
      } else {
        DigitsLength(n / 10, k - 1);
      }
    }
  }

  /** Room each width needs, not counting the NUL. */
  lemma {:induction false} DecimalLengthBounds(v: int)
    ensures IsInt32(v) ==> |Decimal(v)| <= 11
    ensures IsUInt32(v) ==> |Decimal(v)| <= 10
    ensures IsInt64(v) ==> |Decimal(v)| <= 20
    ensures IsUInt64(v) ==> |Decimal(v)| <= 20
  {
    Pow10Table();
    DecimalParts(v);
    DigitsLength(Abs(v), 10);
    DigitsLength(Abs(v), 19);
    DigitsLength(Abs(v), 20);
  }

  lemma {:induction false} Pow10Table()
    ensures Pow10(9) == 1_000_000_000 && Pow10(10) == 10_000_000_000
    ensures Pow10(18) == 1_000_000_000_000_000_000 && Pow10(19) == 10_000_000_000_000_000_000
    ensures Pow10(20) == 100_000_000_000_000_000_000
  {
    assert Pow10(1) == 10;
    assert Pow10(2) == 100;
    assert Pow10(3) == 1000;
    assert Pow10(4) == 10000;
    assert Pow10(5) == 100000;
    assert Pow10(6) == 1000000;
    assert Pow10(7) == 10000000;
    assert Pow10(8) == 100000000;
    assert Pow10(9) == 1000000000;
    assert Pow10(10) == 10000000000;
    assert Pow10(11) == 100000000000;
    assert Pow10(12) == 1000000000000;
    assert Pow10(13) == 10000000000000;
    assert Pow10(14) == 100000000000000;
    assert Pow10(15) == 1000000000000000;
    assert Pow10(16) == 10000000000000000;
    assert Pow10(17) == 100000000000000000;
    assert Pow10(18) == 1000000000000000000;
    assert Pow10(19) == 10000000000000000000;
    assert Pow10(20) == 100000000000000000000;
  }

  /** The bounds above are reached: INT64_MIN and UINT64_MAX take 20 characters. */
  lemma {:induction false} WidestDecimals()
    ensures |Decimal(INT64_MIN)| == 20 && |Decimal(UINT64_MAX)| == 20
    ensures |Decimal(INT32_MIN)| == 11
  {
    Pow10Table();
    WidestInt64();
    WidestUInt64();
    WidestInt32();
  }

  lemma {:induction false} WidestInt64()
    requires Pow10(18) < -INT64_MIN < Pow10(19)
    ensures |Decimal(INT64_MIN)| == 20
  {
    DigitsLength(-INT64_MIN, 19);
    DigitsLength(-INT64_MIN, 18);
    DecimalParts(INT64_MIN);
  }

  lemma {:induction false} WidestUInt64()
    requires Pow10(19) < UINT64_MAX < Pow10(20)
    ensures |Decimal(UINT64_MAX)| == 20
  {
    DigitsLength(UINT64_MAX, 20);
    DigitsLength(UINT64_MAX, 19);
    DecimalParts(UINT64_MAX);
  }

  lemma {:induction false} WidestInt32()
    requires Pow10(9) < -INT32_MIN < Pow10(10)
    ensures |Decimal(INT32_MIN)| == 11
  {
    DigitsLength(-INT32_MIN, 10);
    DigitsLength(-INT32_MIN, 9);
    DecimalParts(INT32_MIN);
  }

  function Reverse(s: string): (r: string)
    ensures |r| == |s|
    ensures forall k :: 0 <= k < |s| ==> r[k] == s[|s| - 1 - k]
  {
    if s == [] then [] else Reverse(s[1..]) + [s[0]]
  }

  /** Digits of n, least significant first: the order the writers emit them. */
  function RevDigits(n: nat): string
    decreases n
  {
    if n < 10 then [DigitChar(n)] else [DigitChar(n % 10)] + RevDigits(n / 10)
  }

  lemma {:induction false} RevDigitsReversed(n: nat)
    ensures Reverse(RevDigits(n)) == Digits(n)
    decreases n
  {
    if n >= 10 {
      RevDigitsReversed(n / 10);
      var r := RevDigits(n);
      assert r[1..] == RevDigits(n / 10);
    }
  }

  /** One step of the C digit loop: divide by ten, truncating, and take the remainder by subtraction. */
  lemma {:induction false} TruncatingStep(x: int)
    ensures Abs(CQuot10(x)) == Abs(x) / 10
    ensures x >= 0 ==> x - CQuot10(x) * 10 == Abs(x) % 10
    ensures x < 0 ==> -(x - CQuot10(x) * 10) == Abs(x) % 10
    ensures (x < 0 ==> CQuot10(x) <= 0) && (x >= 0 ==> CQuot10(x) >= 0)
  {
  }

  /** The slice [lo, hi) of `a` holds `s` end for end. */
  lemma {:induction false} ReversedSlice(a: string, s: string, lo: nat, hi: nat)
    requires lo <= hi <= |a| && |s| == hi - lo
    requires forall k :: lo <= k < hi ==> a[k] == s[hi - 1 - k]
    ensures a[lo..hi] == Reverse(s)
  {
    var r, b := Reverse(s), a[lo..hi];
    assert |b| == |r|;
    forall k | 0 <= k < |b|
      ensures b[k] == r[k]
    {
      assert b[k] == a[lo + k];
      assert r[k] == s[|s| - 1 - k];
    }
    assert b == r;
  }

  /** Two equally long strings that agree outside [lo, hi) have the same prefix and suffix. */
  lemma {:induction false} SameOutside(a: string, b: string, lo: nat, hi: nat)
    requires lo <= hi <= |a| == |b|
    requires forall k :: 0 <= k < lo || hi <= k < |a| ==> a[k] == b[k]
    ensures a[..lo] == b[..lo] && a[hi..] == b[hi..]
  {
    assert forall k :: 0 <= k < |a| - hi ==> a[hi..][k] == a[hi + k];
    assert forall k :: 0 <= k < |a| - hi ==> b[hi..][k] == b[hi + k];
  }

  /** The reversal loop shared by every writer: swaps str[lo..hi) end for end. */
  method ReverseRange(str: array<char>, lo: nat, hi: nat)
    requires lo <= hi <= str.Length
    modifies str
    ensures str[lo..hi] == Reverse(old(str[lo..hi]))
    ensures str[..lo] == old(str[..lo]) && str[hi..] == old(str[hi..])
  {
    ghost var a0 := str[..];
    ghost var s := str[lo..hi];
    var i, j := lo, hi;
    while i + 1 < j
      invariant lo <= i <= j <= hi && i - lo == hi - j
      invariant forall k :: lo <= k < i || j <= k < hi ==> str[k] == s[hi - 1 - k]
      invariant forall k :: i <= k < j ==> str[k] == s[k - lo]
      invariant forall k :: 0 <= k < lo || hi <= k < str.Length ==> str[k] == a0[k]
    {
      str[i], str[j - 1] := str[j - 1], str[i];
      i, j := i + 1, j - 1;
    }
    ghost var a := str[..];
    ReversedSlice(a, s, lo, hi);
    SameOutside(a, a0, lo, hi);
    assert str[lo..hi] == a[lo..hi];
    assert str[..lo] == a[..lo] && str[hi..] == a[hi..];
  }

  /**
   * The digit loop of the writers: a do-while that divides `value` by ten
   * with C's truncating division and writes each remainder as a digit
   * ('0' - remainder for a negative value, so the most negative value is
   * never negated), least significant digit first.
   */
  method WriteRevDigits(str: array<char>, start: nat, value: int) returns (p: nat)
    requires start + |RevDigits(Abs(value))| <= str.Length
    modifies str
    ensures p == start + |RevDigits(Abs(value))| && str[start..p] == RevDigits(Abs(value))
    ensures str[..start] == old(str[..start]) && str[p..] == old(str[p..])
  {
    var negative := value < 0;
    ghost var all := RevDigits(Abs(value));
    ghost var a0 := str[..];
    var num := value;
    var more := true;
    p := start;
    while more
      invariant start <= p <= start + |all|
      invariant negative ==> num <= 0
      invariant !negative ==> num >= 0
      invariant more ==> all[p - start..] == RevDigits(Abs(num))
      invariant !more ==> p == start + |all|
      invariant forall k :: start <= k < p ==> str[k] == all[k - start]
      invariant forall k :: 0 <= k < start || start + |all| <= k < str.Length ==> str[k] == old(str[k])
      decreases if more then Abs(num) + 1 else 0
    {
      var oldval := num;
      num := CQuot10(num);
      var remainder := oldval - num * 10;
      DigitStep(all, p - start, oldval);
      var ch: char;
      if negative {
        ch := ('0' as int - remainder) as char;
      } else {
        ch := ('0' as int + remainder) as char;
      }
      assert ch == all[p - start];
      str[p] := ch;
      p := p + 1;
      more := num != 0;
    }
    ghost var a := str[..];
    SliceHolds(a, all, start, p);
    SameOutside(a, a0, start, p);
    assert str[start..p] == a[start..p];
    assert str[..start] == a[..start] && str[p..] == a[p..];
  }

  /** The slice [lo, hi) of `a` holds `s`. */
  lemma {:induction false} SliceHolds(a: string, s: string, lo: nat, hi: nat)
    requires lo <= hi <= |a| && |s| == hi - lo
    requires forall k :: lo <= k < hi ==> a[k] == s[k - lo]
    ensures a[lo..hi] == s
  {
    assert forall k :: 0 <= k < hi - lo ==> a[lo..hi][k] == a[lo + k];
  }

  /** What one round of the digit loop contributes, when `all[k..]` are the digits still to come. */
  lemma {:induction false} DigitStep(all: string, k: nat, x: int)
    requires k <= |all| && all[k..] == RevDigits(Abs(x))
    ensures k < |all|
    ensures x >= 0 ==> 0 <= x - CQuot10(x) * 10 <= 9
    ensures x < 0 ==> -9 <= x - CQuot10(x) * 10 <= 0
    ensures x >= 0 ==> all[k] == ('0' as int + (x - CQuot10(x) * 10)) as char
    ensures x < 0 ==> all[k] == ('0' as int - (x - CQuot10(x) * 10)) as char
    ensures CQuot10(x) != 0 ==> all[k + 1..] == RevDigits(Abs(CQuot10(x)))
    ensures CQuot10(x) == 0 ==> k + 1 == |all|
    ensures (x < 0 ==> CQuot10(x) <= 0) && (x >= 0 ==> CQuot10(x) >= 0)
    ensures Abs(CQuot10(x)) < Abs(x) || CQuot10(x) == 0
  {
    TruncatingStep(x);
    var r := RevDigits(Abs(x));
    assert all[k] == r[0];
    if Abs(x) >= 10 {
      assert all[k + 1..] == r[1..];
    }
  }

  /**
   * The common body of pg_int32tostr_nn, pg_int64tostr_nn and (for a
   * non-negative value) pg_uint32tostr_nn and pg_uint64tostr_nn: a '-' for a
   * negative value, the digits written backwards, then reversed in place.
   * No NUL is written; the result is the position after the last character.
   */
  method WriteDecimal(str: array<char>, pos: nat, value: int) returns (end: nat)
    requires pos + |Decimal(value)| <= str.Length
    modifies str
    ensures end == pos + |Decimal(value)|
    ensures str[pos..end] == Decimal(value)
    ensures str[..pos] == old(str[..pos]) && str[end..] == old(str[end..])
  {
    DecimalSplit(value);
    var start := pos;
    if value < 0 {
      str[start] := '-';
      start := start + 1;
    }
    ghost var head := str[..start];
    assert head[pos..] == Sign(value);
    end := WriteDigits(str, start, value);
    assert str[pos..end] == head[pos..] + str[start..end];
  }

  /** The digits of |value|, in order: the backwards loop followed by the reversal. */
  method WriteDigits(str: array<char>, start: nat, value: int) returns (end: nat)
    requires start + |Digits(Abs(value))| <= str.Length
    modifies str
    ensures end == start + |Digits(Abs(value))| && str[start..end] == Digits(Abs(value))
    ensures str[..start] == old(str[..start]) && str[end..] == old(str[end..])
  {
    RevDigitsReversed(Abs(value));
    end := WriteRevDigits(str, start, value);
    ReverseRange(str, start, end);
  }

  function Sign(v: int): string { if v < 0 then "-" else "" }

  lemma {:induction false} DecimalSplit(v: int)
    ensures Decimal(v) == Sign(v) + Digits(Abs(v))
  {
  }

  /** pg_int16tostr_nn: widens to int32 and defers to pg_int32tostr_nn. */
  method Int16ToStrNN(str: array<char>, pos: nat, value: int) returns (end: nat)
    requires IsInt16(value) && pos + |Decimal(value)| <= str.Length
    modifies str
    ensures end == pos + |Decimal(value)| && str[pos..end] == Decimal(value)
    ensures str[..pos] == old(str[..pos]) && str[end..] == old(str[end..])
  {
    end := Int32ToStrNN(str, pos, value);
  }

  /** pg_int32tostr_nn */
  method Int32ToStrNN(str: array<char>, pos: nat, value: int) returns (end: nat)
    requires IsInt32(value) && pos + |Decimal(value)| <= str.Length
    modifies str
    ensures end == pos + |Decimal(value)| && str[pos..end] == Decimal(value)
    ensures str[..pos] == old(str[..pos]) && str[end..] == old(str[end..])
  {
    end := WriteDecimal(str, pos, value);
  }

  /** pg_uint32tostr_nn */
  method UInt32ToStrNN(str: array<char>, pos: nat, value: int) returns (end: nat)
    requires IsUInt32(value) && pos + |Decimal(value)| <= str.Length
    modifies str
    ensures end == pos + |Decimal(value)| && str[pos..end] == Decimal(value)
    ensures str[..pos] == old(str[..pos]) && str[end..] == old(str[end..])
  {
    end := WriteDecimal(str, pos, value);
  }

  /** pg_int64tostr_nn */
  method Int64ToStrNN(str: array<char>, pos: nat, value: int) returns (end: nat)
    requires IsInt64(value) && pos + |Decimal(value)| <= str.Length
    modifies str
    ensures end == pos + |Decimal(value)| && str[pos..end] == Decimal(value)
    ensures str[..pos] == old(str[..pos]) && str[end..] == old(str[end..])
  {
    end := WriteDecimal(str, pos, value);
  }

  /** pg_uint64tostr_nn */
  method UInt64ToStrNN(str: array<char>, pos: nat, value: int) returns (end: nat)
    requires IsUInt64(value) && pos + |Decimal(value)| <= str.Length
    modifies str
    ensures end == pos + |Decimal(value)| && str[pos..end] == Decimal(value)
    ensures str[..pos] == old(str[..pos]) && str[end..] == old(str[end..])
  {
    end := WriteDecimal(str, pos, value);
  }

  /** pg_int32tostr and its siblings: the `_nn` text followed by a NUL, which `end` points at. */
  method Int32ToStr(str: array<char>, pos: nat, value: int) returns (end: nat)
    requires IsInt32(value) && pos + |Decimal(value)| < str.Length
    modifies str
    ensures end == pos + |Decimal(value)| && str[pos..end] == Decimal(value) && str[end] == '\0'
    ensures str[..pos] == old(str[..pos]) && str[end + 1..] == old(str[end + 1..])
  {
    end := Int32ToStrNN(str, pos, value);
    str[end] := '\0';
  }

  /** pg_int16tostr */
  method Int16ToStr(str: array<char>, pos: nat, value: int) returns (end: nat)
    requires IsInt16(value) && pos + |Decimal(value)| < str.Length
    modifies str
    ensures end == pos + |Decimal(value)| && str[pos..end] == Decimal(value) && str[end] == '\0'
    ensures str[..pos] == old(str[..pos]) && str[end + 1..] == old(str[end + 1..])
  {
    end := Int16ToStrNN(str, pos, value);
    str[end] := '\0';
  }

  /** pg_int64tostr */
  method Int64ToStr(str: array<char>, pos: nat, value: int) returns (end: nat)
    requires IsInt64(value) && pos + |Decimal(value)| < str.Length
    modifies str
    ensures end == pos + |Decimal(value)| && str[pos..end] == Decimal(value) && str[end] == '\0'
    ensures str[..pos] == old(str[..pos]) && str[end + 1..] == old(str[end + 1..])
  {
    end := Int64ToStrNN(str, pos, value);
    str[end] := '\0';
  }

  /** pg_uint32tostr */
  method UInt32ToStr(str: array<char>, pos: nat, value: int) returns (end: nat)
    requires IsUInt32(value) && pos + |Decimal(value)| < str.Length
    modifies str
    ensures end == pos + |Decimal(value)| && str[pos..end] == Decimal(value) && str[end] == '\0'
    ensures str[..pos] == old(str[..pos]) && str[end + 1..] == old(str[end + 1..])
  {
    end := UInt32ToStrNN(str, pos, value);
    str[end] := '\0';
  }

  /** pg_uint64tostr */
  method UInt64ToStr(str: array<char>, pos: nat, value: int) returns (end: nat)
    requires IsUInt64(value) && pos + |Decimal(value)| < str.Length
    modifies str
    ensures end == pos + |Decimal(value)| && str[pos..end] == Decimal(value) && str[end] == '\0'
    ensures str[..pos] == old(str[..pos]) && str[end + 1..] == old(str[end + 1..])
  {
    end := UInt64ToStrNN(str, pos, value);
    str[end] := '\0';
  }

  /**
   * MAXINT16LEN, MAXINT32LEN and MAXINT64LEN are `sizeof(CppAsString(PG_INTnn_MIN))`.
   * CppAsString stringizes its argument without expanding it, so each is the
   * size of the macro's NAME as a string literal: 12 characters and a NUL.
   */
  const MAXINT16LEN: nat := |"PG_INT16_MIN"| + 1
  const MAXINT32LEN: nat := |"PG_INT32_MIN"| + 1
  const MAXINT64LEN: nat := |"PG_INT64_MIN"| + 1

  // ---------------------------------------------------------------------
  // Zero-padded conversion

  /** Last k digits of n, zero-filled on the left: what k rounds of the padding loop write. */
  function LastDigits(n: nat, k: nat): (s: string)
    ensures |s| == k
  {
    if k == 0 then [] else LastDigits(n / 10, k - 1) + [DigitChar(n % 10)]
  }

  /** n with its last k digits dropped: the magnitude of `num` after k rounds. */
  function DropDigits(n: nat, k: nat): nat
  {
    if k == 0 then n else DropDigits(n / 10, k - 1)
  }

  /**
   * The text pg_int32tostr_nn_zeropad produces for `width` = minwidth: the
   * sign and then the last width-1 (negative) or width digits, unless the
   * value had more digits than that, in which case the plain text.
   */
  function ZeroPadded(v: int, width: nat): string
  {
    var w := if width >= |Sign(v)| then width - |Sign(v)| else 0;
    if DropDigits(Abs(v), w) == 0 then Sign(v) + LastDigits(Abs(v), w) else Decimal(v)
  }

  lemma {:induction false} DropDigitsZero(n: nat, k: nat)
    ensures DropDigits(n, k) == 0 <==> (n == 0 || |Digits(n)| <= k)
    decreases k
  {
    if k > 0 {
      DropDigitsZero(n / 10, k - 1);
      if n >= 10 {
        assert |Digits(n)| == |Digits(n / 10)| + 1;
      }
    }
  }

  lemma {:induction false} LastDigitsPadded(n: nat, k: nat)
    requires n == 0 || |Digits(n)| <= k
    requires k >= 1
    ensures LastDigits(n, k) == Repeat('0', k - |Digits(n)|) + Digits(n)
    decreases k
  {
    if n < 10 {
      if k > 1 {
        LastDigitsZeros(n / 10, k - 1);
        assert LastDigits(n, k) == Repeat('0', k - 1) + [DigitChar(n)];
      }
    } else {
      assert |Digits(n)| == |Digits(n / 10)| + 1;
      LastDigitsPadded(n / 10, k - 1);
      assert Digits(n) == Digits(n / 10) + [DigitChar(n % 10)];
    }
  }

  lemma {:induction false} LastDigitsZeros(n: nat, k: nat)
    requires n == 0
    ensures LastDigits(n, k) == Repeat('0', k)
    decreases k
  {
    if k > 0 {
      LastDigitsZeros(n / 10, k - 1);
    }
  }

  lemma {:induction false} ZerosValue(n: nat, s: string)
    requires AllDigits(s)
    ensures AllDigits(Repeat('0', n) + s) && DigitsValue(Repeat('0', n) + s) == DigitsValue(s)
    decreases |s|
  {
    if s == [] {
      assert Repeat('0', n) + s == Repeat('0', n);
      ZerosValueOnly(n);
    } else {
      var t := Repeat('0', n) + s;
      assert t[..|t| - 1] == Repeat('0', n) + s[..|s| - 1];
      ZerosValue(n, s[..|s| - 1]);
    }
  }

  lemma {:induction false} ZerosValueOnly(n: nat)
    ensures AllDigits(Repeat('0', n)) && DigitsValue(Repeat('0', n)) == 0
    decreases n
  {
    if n > 0 {
      assert Repeat('0', n)[..n - 1] == Repeat('0', n - 1);
      ZerosValueOnly(n - 1);
    }
  }

  /** When the plain text fits, the zero-padded text is sign, zeros and digits, exactly `width` long. */
  lemma {:induction false} ZeroPaddedFits(v: int, width: nat)
    requires 1 <= width && |Decimal(v)| <= width
    ensures ZeroPadded(v, width) == Sign(v) + Repeat('0', width - |Decimal(v)|) + Digits(Abs(v))
  {
    DecimalSplit(v);
    var sign, n := Sign(v), Abs(v);
    var w := width - |sign|;
    DropDigitsZero(n, w);
    LastDigitsPadded(n, w);
    assert ZeroPadded(v, width) == sign + LastDigits(n, w);
    Wrappers.ConcatAssoc(sign, Repeat('0', w - |Digits(n)|), Digits(n));
  }

  /** When the plain text is at least `width` long, the zero-padded text is the plain text. */
  lemma {:induction false} ZeroPaddedOverflows(v: int, width: nat)
    requires 1 <= width <= |Decimal(v)|
    ensures ZeroPadded(v, width) == Decimal(v)
  {
    DecimalSplit(v);
    var w := if width >= |Sign(v)| then width - |Sign(v)| else 0;
    DropDigitsZero(Abs(v), w);
    if DropDigits(Abs(v), w) == 0 {
      ZeroPaddedFits(v, width);
      assert Repeat('0', 0) == [];
    }
  }

  /**
   * What the zero-padded text means: it is never shorter than `width` nor
   * than the plain text, starts with the sign, and the digits after the
   * sign denote |v|.
   */
  lemma {:induction false} ZeroPaddedMeaning(v: int, width: nat)
    requires width >= 1
    ensures |ZeroPadded(v, width)| == if |Decimal(v)| <= width then width else |Decimal(v)|
    ensures var s := ZeroPadded(v, width); var body := s[|Sign(v)|..];
      |s| > |Sign(v)| && s[..|Sign(v)|] == Sign(v) && AllDigits(body) && DigitsValue(body) == Abs(v)
  {
    DecimalSplit(v);
    DigitsRoundTrip(Abs(v));
    DigitsAreDigits(Abs(v));
    var sign, digits := Sign(v), Digits(Abs(v));
    var body: string;
    if |Decimal(v)| <= width {
      ZeroPaddedFits(v, width);
      var z := Repeat('0', width - |Decimal(v)|);
      Wrappers.ConcatAssoc(sign, z, digits);
      body := z + digits;
      ZerosValue(width - |Decimal(v)|, digits);
    } else {
      ZeroPaddedOverflows(v, width);
      body := digits;
    }
    SplitAtSign(ZeroPadded(v, width), sign, body);
  }

  lemma {:induction false} SplitAtSign(s: string, sign: string, body: string)
    requires s == sign + body
    ensures s[..|sign|] == sign && s[|sign|..] == body
  {
  }

  /** What one round of the padding loop contributes, when `all[..k]` are the digits still to write. */
  lemma {:induction false} PadStep(all: string, k: nat, x: int)
    requires 1 <= k <= |all| && all[..k] == LastDigits(Abs(x), k)
    ensures x >= 0 ==> all[k - 1] == ('0' as int + (x - CQuot10(x) * 10)) as char
    ensures x < 0 ==> all[k - 1] == ('0' as int - (x - CQuot10(x) * 10)) as char
    ensures all[..k - 1] == LastDigits(Abs(CQuot10(x)), k - 1)
    ensures DropDigits(Abs(CQuot10(x)), k - 1) == DropDigits(Abs(x), k)
    ensures (x < 0 ==> CQuot10(x) <= 0) && (x >= 0 ==> CQuot10(x) >= 0)
  {
    TruncatingStep(x);
    assert all[..k - 1] == all[..k][..k - 1];
  }

  /**
   * The loop of pg_int32tostr_nn_zeropad: `while (minwidth--)` stores the
   * last digit of `num` at start[minwidth] and divides `num` by ten with
   * C's truncating division; it returns what is left of `num`.
   */
  method FillPadded(str: array<char>, start: nat, value: int, width: nat) returns (num: int)
    requires start + width <= str.Length
    modifies str
    ensures str[start..start + width] == LastDigits(Abs(value), width)
    ensures Abs(num) == DropDigits(Abs(value), width)
    ensures str[..start] == old(str[..start]) && str[start + width..] == old(str[start + width..])
  {
    ghost var all := LastDigits(Abs(value), width);
    var negative := value < 0;
    num := value;
    var mw := width;
    while mw > 0
      invariant 0 <= mw <= width
      invariant negative ==> num <= 0
      invariant !negative ==> num >= 0
      invariant DropDigits(Abs(num), mw) == DropDigits(Abs(value), width)
      invariant all[..mw] == LastDigits(Abs(num), mw)
      invariant str[start + mw..start + width] == all[mw..]
      invariant str[..start] == old(str[..start]) && str[start + width..] == old(str[start + width..])
    {
      PadStep(all, mw, num);
      mw := mw - 1;
      var oldval := num;
      num := CQuot10(num);
      var remainder := oldval - num * 10;
      if negative {
        str[start + mw] := ('0' as int - remainder) as char;
      } else {
        str[start + mw] := ('0' as int + remainder) as char;
      }
      assert str[start + mw..start + width] == [str[start + mw]] + str[start + mw + 1..start + width];
    }
  }

  /**
   * pg_int32tostr_nn_zeropad: writes the sign, fills the remaining width
   * from the last digit; if `num` was not divided down to zero the width
   * was too small and pg_int32tostr_nn writes the plain text instead.
   */
  method Int32ToStrNNZeroPad(str: array<char>, pos: nat, value: int, minwidth: int) returns (end: nat)
    requires IsInt32(value) && minwidth > 0
    requires pos + minwidth <= str.Length && pos + |Decimal(value)| <= str.Length
    modifies str
    ensures end == pos + |ZeroPadded(value, minwidth)| && str[pos..end] == ZeroPadded(value, minwidth)
    ensures str[..pos] == old(str[..pos]) && str[end..] == old(str[end..])
  {
    var num;
    end, num := SignAndFill(str, pos, value, minwidth);
    if num != 0 {
      assert |Decimal(value)| > minwidth by {
        DropDigitsZero(Abs(value), minwidth - |Sign(value)|);
        DecimalSplit(value);
      }
      ghost var mid := str[..];
      end := Int32ToStrNN(str, pos, value);
      assert str[end..] == mid[end..];
    }
  }

  /**
   * The first part of pg_int32tostr_nn_zeropad: the '-' of a negative value,
   * then the padding loop over the rest of the width.  `num` is what is left
   * of the value; when it is zero, the text written is ZeroPadded.
   */
  method SignAndFill(str: array<char>, pos: nat, value: int, minwidth: int) returns (end: nat, num: int)
    requires minwidth > 0 && pos + minwidth <= str.Length
    modifies str
    ensures end == pos + minwidth
    ensures Abs(num) == DropDigits(Abs(value), minwidth - |Sign(value)|)
    ensures num == 0 ==> str[pos..end] == ZeroPadded(value, minwidth)
    ensures str[..pos] == old(str[..pos]) && str[end..] == old(str[end..])
  {
    var start := pos;
    var width := minwidth;
    if value < 0 {
      str[start] := '-';
      start := start + 1;
      width := width - 1;
    }
    ghost var head := str[..start];
    assert head[pos..] == Sign(value) && head[..pos] == old(str[..pos]);
    num := FillPadded(str, start, value, width);
    end := start + width;
    assert str[pos..end] == head[pos..] + str[start..end];
    assert str[..pos] == head[..pos];
  }

  // ---------------------------------------------------------------------
  // Other helpers of string.c

  /** pg_str_endswith: whether `end` is a suffix of `str`. */
  function StrEndsWith(str: string, end: string): (r: bool)
    ensures r <==> |end| <= |str| && forall i :: 0 <= i < |end| ==> str[|str| - |end| + i] == end[i]
  {
    if |end| > |str| then false else str[|str| - |end|..] == end
  }

  /** strlen: the index of the first NUL. */
  function CStrLen(s: seq<char>): (n: nat)
    requires '\0' in s
    ensures n < |s| && s[n] == '\0' && forall k :: 0 <= k < n ==> s[k] != '\0'
  {
    NulFromFirst(s, 0);
    NulFrom(s, 0)
  }

  /** The index of the first NUL, the search starting at `i` with none before it. */
  function NulFrom(s: seq<char>, i: nat): (n: nat)
    requires i <= |s| && '\0' in s && forall k :: 0 <= k < i ==> s[k] != '\0'
    ensures i <= n < |s| && s[n] == '\0'
    decreases |s| - i
  {
    if s[i] == '\0' then i else NulFrom(s, i + 1)
  }

  /** NulFrom passes over no NUL. */
  lemma {:induction false} NulFromFirst(s: seq<char>, i: nat)
    requires i <= |s| && '\0' in s && forall k :: 0 <= k < i ==> s[k] != '\0'
    ensures forall k :: 0 <= k < NulFrom(s, i) ==> s[k] != '\0'
    decreases |s| - i
  {
    if s[i] != '\0' {
      NulFromFirst(s, i + 1);
    }
  }

  /** A NUL-free prefix moves the first NUL by its length. */
  lemma {:induction false} CStrLenSkip(a: seq<char>, b: seq<char>)
    requires '\0' !in a && '\0' in b
    ensures '\0' in a + b && CStrLen(a + b) == |a| + CStrLen(b)
  {
    var s, j := a + b, CStrLen(b);
    assert s[|a| + j] == '\0';
    forall k | 0 <= k < |a| + j
      ensures s[k] != '\0'
    {
      if k < |a| {
        assert s[k] == a[k];
      } else {
        assert s[k] == b[k - |a|];
      }
    }
  }

  /** The character pg_clean_ascii leaves in place of c. */
  function CleanChar(c: char): (r: char)
    ensures ' ' <= r <= '~'
    ensures ' ' <= c <= '~' ==> r == c
    ensures r != c ==> r == '?'
  {
    if (c as int) < 32 || (c as int) > 126 then '?' else c
  }

  function Cleaned(s: string): (r: string)
    ensures |r| == |s| && forall i :: 0 <= i < |s| ==> r[i] == CleanChar(s[i])
  {
    if s == [] then [] else [CleanChar(s[0])] + Cleaned(s[1..])
  }

  lemma {:induction false} CleanedIdempotent(s: string)
    ensures Cleaned(Cleaned(s)) == Cleaned(s)
  {
  }

  /** pg_clean_ascii: replaces, up to the terminating NUL, every character outside ' '..'~' by '?'. */
  method CleanAscii(str: array<char>)
    requires '\0' in str[..]
    modifies str
    ensures var n := CStrLen(old(str[..]));
      str[..n] == Cleaned(old(str[..n])) && str[n..] == old(str[n..])
  {
    ghost var n := CStrLen(str[..]);
    var p := 0;
    while str[p] != '\0'
      invariant 0 <= p <= n
      invariant forall k :: 0 <= k < p ==> str[k] == CleanChar(old(str[k]))
      invariant forall k :: p <= k < str.Length ==> str[k] == old(str[k])
      decreases n - p
    {
      assert old(str[..])[p] == str[p] && p != n;
      if (str[p] as int) < 32 || (str[p] as int) > 126 {
        str[p] := '?';
      }
      p := p + 1;
    }
  }

  predicate IsCrLf(c: char) { c == '\n' || c == '\r' }

  /**
   * pg_strip_crlf: overwrites the trailing run of '\n' and '\r' before the
   * NUL with NULs and returns the new length; nothing before it changes.
   */
  method StripCrLf(str: array<char>) returns (len: nat)
    requires '\0' in str[..]
    modifies str
    ensures var n := CStrLen(old(str[..]));
      && len <= n
      && str[..len] == old(str[..len])
      && (len == 0 || !IsCrLf(str[len - 1]))
      && (forall k :: len <= k < n ==> IsCrLf(old(str[k])) && str[k] == '\0')
      && str[n..] == old(str[n..])
  {
    len := 0;
    while str[len] != '\0'
      invariant len <= CStrLen(str[..])
      invariant str[..] == old(str[..])
      decreases CStrLen(str[..]) - len
    {
      assert str[..][len] == str[len];
      len := len + 1;
    }
    ghost var n := len;
    while len > 0 && IsCrLf(str[len - 1])
      invariant len <= n
      invariant str[..len] == old(str[..len]) && str[n..] == old(str[n..])
      invariant forall k :: len <= k < n ==> IsCrLf(old(str[k])) && str[k] == '\0'
    {
      len := len - 1;
      str[len] := '\0';
    }
  }
}
