// The C integer types and character classes that the modelled code relies
// on. Dafny's integers are unbounded, so every width, every wrap-around
// conversion and C's truncating division are written out here.

module CInt {

  const INT8_MIN: int := -0x80
  const INT8_MAX: int := 0x7F
  const INT16_MIN: int := -0x8000
  const INT16_MAX: int := 0x7FFF
  const UINT16_MAX: int := 0xFFFF
  const INT32_MIN: int := -0x8000_0000
  const INT32_MAX: int := 0x7FFF_FFFF
  const UINT32_MAX: int := 0xFFFF_FFFF
  const INT64_MIN: int := -0x8000_0000_0000_0000
  const INT64_MAX: int := 0x7FFF_FFFF_FFFF_FFFF
  const UINT64_MAX: int := 0xFFFF_FFFF_FFFF_FFFF

  predicate IsInt16(v: int) { INT16_MIN <= v <= INT16_MAX }
  predicate IsUInt16(v: int) { 0 <= v <= UINT16_MAX }
  predicate IsInt32(v: int) { INT32_MIN <= v <= INT32_MAX }
  predicate IsUInt32(v: int) { 0 <= v <= UINT32_MAX }
  predicate IsInt64(v: int) { INT64_MIN <= v <= INT64_MAX }
  predicate IsUInt64(v: int) { 0 <= v <= UINT64_MAX }

  /** Conversion to `signed char` (two's complement wrap, as gcc does). */
  function ToInt8(v: int): (r: int)
    ensures INT8_MIN <= r <= INT8_MAX
    ensures (r - v) % 0x100 == 0
    ensures INT8_MIN <= v <= INT8_MAX ==> r == v
  {
    (v - INT8_MIN) % 0x100 + INT8_MIN
  }

  /** Conversion to `int16` (two's complement wrap). */
  function ToInt16(v: int): (r: int)
    ensures IsInt16(r)
    ensures (r - v) % 0x1_0000 == 0
    ensures IsInt16(v) ==> r == v
  {
    (v - INT16_MIN) % 0x1_0000 + INT16_MIN
  }

  /** Conversion to `uint16`: reduction modulo 2^16, as C defines it. */
  function ToUInt16(v: int): (r: int)
    ensures IsUInt16(r)
    ensures (r - v) % 0x1_0000 == 0
    ensures IsUInt16(v) ==> r == v
  {
    v % 0x1_0000
  }

  /** Conversion to `int32` (two's complement wrap). */
  function ToInt32(v: int): (r: int)
    ensures IsInt32(r)
    ensures (r - v) % 0x1_0000_0000 == 0
    ensures IsInt32(v) ==> r == v
  {
    (v - INT32_MIN) % 0x1_0000_0000 + INT32_MIN
  }

  /** Conversion to `uint32`: reduction modulo 2^32, as C defines it. */
  function ToUInt32(v: int): (r: int)
    ensures IsUInt32(r)
    ensures (r - v) % 0x1_0000_0000 == 0
    ensures IsUInt32(v) ==> r == v
  {
    v % 0x1_0000_0000
  }

  /** Conversion to `int64` (two's complement wrap). */
  function ToInt64(v: int): (r: int)
    ensures IsInt64(r)
    ensures (r - v) % 0x1_0000_0000_0000_0000 == 0
    ensures IsInt64(v) ==> r == v
  {
    (v - INT64_MIN) % 0x1_0000_0000_0000_0000 + INT64_MIN
  }

  /** Conversion to `uint64`: reduction modulo 2^64, as C defines it. */
  function ToUInt64(v: int): (r: int)
    ensures IsUInt64(r)
    ensures (r - v) % 0x1_0000_0000_0000_0000 == 0
    ensures IsUInt64(v) ==> r == v
  {
    v % 0x1_0000_0000_0000_0000
  }

  /** C's `a / 10`: the quotient truncated toward zero. */
  function CQuot10(a: int): (q: int)
    ensures a >= 0 ==> 0 <= q * 10 <= a < q * 10 + 10
    ensures a < 0 ==> q * 10 - 10 < a <= q * 10 <= 0
  {
    if a >= 0 then a / 10 else -((-a) / 10)
  }

  /** C's `a % 10`: the remainder takes the sign of the dividend. */
  function CRem10(a: int): (r: int)
    ensures a == CQuot10(a) * 10 + r
    ensures a >= 0 ==> 0 <= r < 10
    ensures a < 0 ==> -10 < r <= 0
  {
    a - CQuot10(a) * 10
  }

  /** isspace() in the C locale. */
  predicate IsSpace(c: char)
  {
    c == ' ' || c == '\t' || c == '\n' || c == '\r' || c == '\U{C}' || c == '\U{B}'
  }

  /** isdigit() in the C locale. */
  predicate IsDigit(c: char) { '0' <= c <= '9' }

  /** isalnum() in the C locale. */
  predicate IsAlnum(c: char)
  {
    IsDigit(c) || ('a' <= c <= 'z') || ('A' <= c <= 'Z')
  }

  function DigitValue(c: char): (d: nat)
    requires IsDigit(c)
    ensures d < 10
  {
    c as int - '0' as int
  }

  function DigitChar(d: nat): (c: char)
    requires d < 10
    ensures IsDigit(c) && DigitValue(c) == d
  {
    ('0' as int + d) as char
  }

  function Pow10(k: nat): (p: nat)
    ensures p >= 1
  {
    if k == 0 then 1 else 10 * Pow10(k - 1)
  }

  function Pow2(k: nat): (p: nat)
    ensures p >= 1
  {
    if k == 0 then 1 else 2 * Pow2(k - 1)
  }

  /**
   * The doubling loops of enlargeStringInfoImpl and
   * pgarr_helper_reserve_realloc: `newlen` doubled while below `needed`.
   */
  function Doubled(newlen: int, needed: int): int
    requires newlen >= 1
    decreases needed - newlen
  {
    if needed > newlen then Doubled(2 * newlen, needed) else newlen
  }

  /** How many times the loop doubles. */
  function Doublings(newlen: int, needed: int): nat
    requires newlen >= 1
    decreases needed - newlen
  {
    if needed > newlen then 1 + Doublings(2 * newlen, needed) else 0
  }

  /**
   * The doubling loop stops at the first power-of-two multiple of its start
   * that reaches `needed`: the result is `newlen * 2^k`, it is at least
   * `needed`, and one doubling fewer would not have been enough.
   */
  lemma {:induction false} DoubledMeaning(newlen: int, needed: int)
    requires newlen >= 1
    ensures Doubled(newlen, needed) == newlen * Pow2(Doublings(newlen, needed))
    ensures Doubled(newlen, needed) >= needed && Doubled(newlen, needed) >= newlen
    ensures Doublings(newlen, needed) > 0 ==> newlen * Pow2(Doublings(newlen, needed) - 1) < needed
    decreases needed - newlen
  {
    if needed > newlen {
      DoubledMeaning(2 * newlen, needed);
      var k := Doublings(2 * newlen, needed);
      assert 2 * newlen * Pow2(k) == newlen * Pow2(k + 1);
      if k > 0 {
        assert 2 * newlen * Pow2(k - 1) == newlen * Pow2(k);
      }
    }
  }

  /** `n` copies of the character `c`: a run of padding characters. */
  function Repeat(c: char, n: nat): (s: string)
    ensures |s| == n && forall i :: 0 <= i < n ==> s[i] == c
  {
    if n == 0 then [] else Repeat(c, n - 1) + [c]
  }
}
