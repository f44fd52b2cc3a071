// Text to integer conversion of src/backend/utils/adt/numutils.c.  A C string
// is a character sequence holding a NUL; scanning stops at the first one.

module NumUtils {
  import opened Wrappers
  import opened CInt
  import opened PgString

  // ---------------------------------------------------------------------
  // Scanning a C string

  /** Where a run of whitespace starting at `p` ends. */
  function SkipSpaces(s: seq<char>, p: nat): (q: nat)
    requires '\0' in s && p <= CStrLen(s)
    ensures p <= q <= CStrLen(s) && !IsSpace(s[q])
    decreases CStrLen(s) - p
  {
    if IsSpace(s[p]) then SkipSpaces(s, p + 1) else p
  }

  /** Where a run of decimal digits starting at `p` ends. */
  function DigitRun(s: seq<char>, p: nat): (q: nat)
    requires '\0' in s && p <= CStrLen(s)
    ensures p <= q <= CStrLen(s) && !IsDigit(s[q])
    decreases CStrLen(s) - p
  {
    if IsDigit(s[p]) then DigitRun(s, p + 1) else p
  }

  /** Everything DigitRun passes over is a digit. */
  lemma {:induction false} DigitRunDigits(s: seq<char>, p: nat)
    requires '\0' in s && p <= CStrLen(s)
    ensures forall j :: p <= j < DigitRun(s, p) ==> IsDigit(s[j])
    decreases CStrLen(s) - p
  {
    if IsDigit(s[p]) {
      DigitRunDigits(s, p + 1);
    }
  }

  /** A run of `n` whitespace characters followed by a non-space ends where expected. */
  lemma {:induction false} SkipSpacesOver(s: seq<char>, p: nat, n: nat)
    requires '\0' in s && p + n <= CStrLen(s)
    requires forall i :: p <= i < p + n ==> IsSpace(s[i])
    requires !IsSpace(s[p + n])
    ensures SkipSpaces(s, p) == p + n
    decreases n
  {
    if n > 0 {
      SkipSpacesOver(s, p + 1, n - 1);
    }
  }

  /** The same for a run of digits. */
  lemma {:induction false} DigitRunOver(s: seq<char>, p: nat, n: nat)
    requires '\0' in s && p + n <= CStrLen(s)
    requires forall i :: p <= i < p + n ==> IsDigit(s[i])
    requires !IsDigit(s[p + n])
    ensures DigitRun(s, p) == p + n
    decreases n
  {
    if n > 0 {
      DigitRunOver(s, p + 1, n - 1);
    }
  }

  /** Dropping trailing digits never increases the value. */
  lemma {:induction false} DigitsValuePrefix(t: string, m: nat)
    requires AllDigits(t) && m <= |t|
    ensures AllDigits(t[..m]) && DigitsValue(t[..m]) <= DigitsValue(t)
    decreases |t|
  {
    if m < |t| {
      var u := t[..|t| - 1];
      assert u[..m] == t[..m];
      DigitsValuePrefix(u, m);
    } else {
      assert t[..m] == t;
    }
  }

  /** CStrLen is the position of the first NUL. */
  lemma {:induction false} CStrLenFirst(s: seq<char>, m: nat)
    requires m < |s| && s[m] == '\0' && '\0' !in s[..m]
    ensures '\0' in s && CStrLen(s) == m
    decreases m
  {
    assert s[m] == '\0';
    if m > 0 {
      assert s[0] == s[..m][0];
      assert s[1..][..m - 1] == s[..m][1..];
      CStrLenFirst(s[1..], m - 1);
    }
  }

  /** The first NUL of `u + NUL + rest` is the one after `u`. */
  lemma {:induction false} CStrLenAfter(u: seq<char>, rest: seq<char>)
    requires '\0' !in u
    ensures '\0' in u + ['\0'] + rest && CStrLen(u + ['\0'] + rest) == |u|
  {
    var s := u + ['\0'] + rest;
    assert s[..|u|] == u;
    CStrLenFirst(s, |u|);
  }

  // ---------------------------------------------------------------------
  // pg_strtoint16 and pg_strtoint32

  function InvalidSyntax(typename: string): Fault
  {
    BadInput("invalid input syntax for type " + typename)
  }

  function Overflow(typename: string): Fault
  {
    OutOfRange("value is out of range for type " + typename)
  }

  /**
   * What pg_strtoint16 (`lo` = INT16_MIN) and pg_strtoint32 (`lo` =
   * INT32_MIN) compute, stated on the parts of the text: leading
   * whitespace, an optional sign, a digit run whose magnitude is at most
   * -lo (the digit loop accumulates -magnitude and stops when that would go
   * below `lo`), trailing whitespace and the NUL; -lo itself is allowed only
   * after a '-'.
   */
  function StrToIntSpec(s: seq<char>, lo: int, typename: string): (r: Result<int>)
    requires '\0' in s && lo < 0
    ensures r.Ok? ==> lo <= r.value <= -lo - 1
  {
    var i := SkipSpaces(s, 0);
    var j := if s[i] == '-' || s[i] == '+' then i + 1 else i;
    if !IsDigit(s[j]) then Err(InvalidSyntax(typename))
    else
      var k := DigitRun(s, j);
      DigitRunDigits(s, j);
      Finish(RunValue(s, j, k), s[SkipSpaces(s, k)] == '\0', s[i] == '-', lo, typename)
  }

  /**
   * The checks after the sign and the first digit, in the C code's order:
   * overflow in the digit loop, then trailing garbage, then the positive
   * value -lo.
   */
  function Finish(mag: nat, atEnd: bool, neg: bool, lo: int, typename: string): (r: Result<int>)
    ensures r.Ok? && lo < 0 ==> lo <= r.value <= -lo - 1
  {
    if mag > -lo then Err(Overflow(typename))
    else if !atEnd then Err(InvalidSyntax(typename))
    else if !neg && mag == -lo then Err(Overflow(typename))
    else Ok(if neg then -(mag as int) else mag)
  }

  /** At the end of the text, Finish yields the signed magnitude when it is in range. */
  lemma {:induction false} FinishInRange(mag: nat, neg: bool, lo: int, typename: string)
    requires lo < 0
    ensures var v := if neg then -(mag as int) else mag;
      Finish(mag, true, neg, lo, typename) == if lo <= v <= -lo - 1 then Ok(v) else Err(Overflow(typename))
  {
  }

  /**
   * The common body of pg_strtoint16 and pg_strtoint32: skip spaces, take
   * the sign, require a digit, accumulate the digits as a negative number
   * with overflow checks against [lo, -lo - 1], skip trailing spaces,
   * require the NUL, and negate unless the text was negative.
   */
  method StrToInt(s: seq<char>, lo: int, typename: string) returns (r: Result<int>)
    requires '\0' in s && lo < 0
    ensures r == StrToIntSpec(s, lo, typename)
  {
    var p := ScanSpaces(s, 0);
    ghost var i := p;
    var neg := false;
    if s[p] == '-' {
      p := p + 1;
      neg := true;
    } else if s[p] == '+' {
      p := p + 1;
    }
    if !IsDigit(s[p]) {
      return Err(InvalidSyntax(typename));
    }
    ghost var j := p;
    ghost var k := DigitRun(s, j);
    SpecAfterSign(s, lo, typename, i, j);
    var tmp, overflow;
    p, tmp, overflow := ScanDigits(s, p, lo);
    if overflow {
      return Err(Overflow(typename));
    }
    p := ScanSpaces(s, p);
    if s[p] != '\0' {
      return Err(InvalidSyntax(typename));
    }
    if !neg {
      if tmp == lo {
        return Err(Overflow(typename));
      }
      tmp := -tmp;
    }
    r := Ok(tmp);
  }

  /** Once the spaces and the sign are behind and a digit follows, the result is decided by Finish. */
  lemma {:induction false} SpecAfterSign(s: seq<char>, lo: int, typename: string, i: nat, j: nat)
    requires '\0' in s && lo < 0
    requires i == SkipSpaces(s, 0) && j == (if s[i] == '-' || s[i] == '+' then i + 1 else i)
    requires j < |s| && IsDigit(s[j])
    ensures AllDigits(s[j..DigitRun(s, j)])
    ensures var k := DigitRun(s, j);
      StrToIntSpec(s, lo, typename) == Finish(DigitsValue(s[j..k]), s[SkipSpaces(s, k)] == '\0', s[i] == '-', lo, typename)
  {
    DigitRunDigits(s, j);
    RunValueIsDigitsValue(s, j, DigitRun(s, j));
  }

  /** Skips whitespace from `start`: the loop that advances `ptr` past spaces. */
  method ScanSpaces(s: seq<char>, start: nat) returns (p: nat)
    requires '\0' in s && start <= CStrLen(s)
    ensures p == SkipSpaces(s, start)
  {
    p := start;
    while s[p] != '\0' && IsSpace(s[p])
      invariant start <= p <= CStrLen(s) && SkipSpaces(s, p) == SkipSpaces(s, start)
      decreases CStrLen(s) - p
    {
      p := p + 1;
    }
  }

  /**
   * The digit loop: `tmp = tmp * 10 - digit` with the overflow checks of
   * pg_mul_s32_overflow and pg_sub_s32_overflow against [lo, -lo - 1].  It
   * reports overflow exactly when the magnitude of the whole digit run
   * exceeds -lo; otherwise it ends after the run with `tmp` = -magnitude.
   */
  method ScanDigits(s: seq<char>, start: nat, lo: int) returns (p: nat, tmp: int, overflow: bool)
    requires '\0' in s && start <= CStrLen(s) && lo < 0
    ensures AllDigits(s[start..DigitRun(s, start)])
    ensures overflow <==> DigitsValue(s[start..DigitRun(s, start)]) > -lo
    ensures !overflow ==> p == DigitRun(s, start) && tmp == -(DigitsValue(s[start..p]) as int)
  {
    var hi := -lo - 1;
    ghost var k := DigitRun(s, start);
    DigitRunDigits(s, start);
    RunValueIsDigitsValue(s, start, k);
    ghost var t := s[start..k];
    p := start;
    tmp := 0;
    while s[p] != '\0' && IsDigit(s[p])
      invariant start <= p <= k && DigitRun(s, p) == k && t == s[start..k]
      invariant AllDigits(t[..p - start]) && tmp == -(DigitsValue(t[..p - start]) as int) && lo <= tmp <= 0
      decreases CStrLen(s) - p
    {
      var digit := DigitValue(s[p]);
      assert t[p - start] == s[p];
      DigitStep(t, p - start, tmp, lo);
      p := p + 1;
      if tmp * 10 < lo || tmp * 10 > hi || tmp * 10 - digit < lo || tmp * 10 - digit > hi {
        return p, tmp, true;
      }
      tmp := tmp * 10 - digit;
    }
    assert t[..p - start] == s[start..p];
    overflow := false;
  }

  /**
   * One step of the digit loop on the digit run `t`, after `m` digits:
   * the new accumulator is -(value of m + 1 digits), and the overflow
   * checks fire only when the whole run's value exceeds -lo.
   */
  lemma {:induction false} DigitStep(t: string, m: nat, tmp: int, lo: int)
    requires AllDigits(t) && m < |t| && lo < 0
    requires AllDigits(t[..m]) && tmp == -(DigitsValue(t[..m]) as int) && lo <= tmp <= 0
    ensures var next := tmp * 10 - DigitValue(t[m]);
      AllDigits(t[..m + 1]) && next == -(DigitsValue(t[..m + 1]) as int) &&
      (tmp * 10 < lo || tmp * 10 > -lo - 1 || next < lo || next > -lo - 1 ==> DigitsValue(t) > -lo) &&
      (next <= 0)
  {
    assert t[..m + 1][..m] == t[..m];
    DigitsValuePrefix(t, m + 1);
  }

  /** pg_strtoint16 */
  method StrToInt16(s: seq<char>) returns (r: Result<int>)
    requires '\0' in s
    ensures r == StrToIntSpec(s, INT16_MIN, "smallint")
  {
    r := StrToInt(s, INT16_MIN, "smallint");
  }

  /** pg_strtoint32 */
  method StrToInt32(s: seq<char>) returns (r: Result<int>)
    requires '\0' in s
    ensures r == StrToIntSpec(s, INT32_MIN, "integer")
  {
    r := StrToInt(s, INT32_MIN, "integer");
  }

  /** A parsed value is always in the target range [lo, -lo - 1]. */
  lemma {:induction false} StrToIntInRange(s: seq<char>, lo: int, typename: string)
    requires '\0' in s && lo < 0
    ensures StrToIntSpec(s, lo, typename).Ok? ==> lo <= StrToIntSpec(s, lo, typename).value <= -lo - 1
  {
  }

  predicate AllSpaces(w: string)
  {
    forall i :: 0 <= i < |w| ==> IsSpace(w[i])
  }

  /** The characters of `s` from `a` to `b` are those of `t`. */
  predicate SliceIs(s: seq<char>, a: nat, t: string)
  {
    a + |t| <= |s| && s[a..a + |t|] == t
  }

  /**
   * StrToIntSpec on text laid out by position: spaces up to `i`, an
   * optional sign, the digits of `mag` from `j` to `k`, spaces up to the
   * NUL at `t`.
   */
  lemma {:induction false} StrToIntAt(s: seq<char>, i: nat, j: nat, k: nat, t: nat, mag: nat, neg: bool, lo: int, typename: string)
    requires '\0' in s && lo < 0 && i <= j < k <= t <= CStrLen(s)
    requires SkipSpaces(s, 0) == i && DigitRun(s, j) == k && SkipSpaces(s, k) == t && s[t] == '\0'
    requires if j == i + 1 then s[i] == '-' || s[i] == '+' else j == i && IsDigit(s[i])
    requires forall x :: j <= x < k ==> IsDigit(s[x])
    requires RunValue(s, j, k) == mag && (s[i] == '-') == neg
    ensures StrToIntSpec(s, lo, typename) == Finish(mag, true, neg, lo, typename)
  {
  }

  /** Where the scanning functions stop on text laid out by position. */
  lemma {:induction false} Positions(s: seq<char>, i: nat, j: nat, k: nat, t: nat)
    requires '\0' in s && i <= j <= k <= t == CStrLen(s)
    requires forall x :: 0 <= x < i ==> IsSpace(s[x])
    requires forall x :: j <= x < k ==> IsDigit(s[x])
    requires forall x :: k <= x < t ==> IsSpace(s[x])
    requires !IsSpace(s[i]) && !IsDigit(s[k])
    ensures SkipSpaces(s, 0) == i && DigitRun(s, j) == k && SkipSpaces(s, k) == t && s[t] == '\0'
  {
    SkipSpacesOver(s, 0, i);
    DigitRunOver(s, j, k - j);
    SkipSpacesOver(s, k, t - k);
  }

  /**
   * The characters of `w1 + sign + d + w2 + NUL + rest`, position by
   * position: the parts are laid out one after the other.
   */
  lemma {:induction false} Layout(w1: string, sign: string, d: string, w2: string, rest: seq<char>)
    ensures LaidOut(w1 + sign + d + w2 + ['\0'] + rest, w1, sign, d, w2)
  {
    var s := w1 + sign + d + w2 + ['\0'] + rest;
    var i := |w1|; var j := i + |sign|; var k := j + |d|; var t := k + |w2|;
    assert s == w1 + (sign + (d + (w2 + (['\0'] + rest))));
  }

  /** The layout of the accepted form, position by position. */
  predicate LaidOut(s: seq<char>, w1: string, sign: string, d: string, w2: string)
  {
    var i := |w1|; var j := i + |sign|; var k := j + |d|; var t := k + |w2|;
    t < |s| && s[t] == '\0' &&
    (forall x :: 0 <= x < i ==> s[x] == w1[x]) &&
    (forall x :: i <= x < j ==> s[x] == sign[x - i]) &&
    (forall x :: j <= x < k ==> s[x] == d[x - j]) &&
    (forall x :: k <= x < t ==> s[x] == w2[x - k])
  }

  /** The characters of the accepted form, one position at a time, and the value of its digits. */
  lemma {:induction false} LaidOutChars(s: seq<char>, w1: string, sign: string, d: string, w2: string)
    requires AllSpaces(w1) && AllSpaces(w2) && (sign == "" || sign == "+" || sign == "-")
    requires |d| >= 1 && AllDigits(d) && LaidOut(s, w1, sign, d, w2)
    ensures var i := |w1|; var j := i + |sign|; var k := j + |d|; var t := k + |w2|;
      t < |s| && s[t] == '\0' &&
      (forall x :: 0 <= x < i ==> IsSpace(s[x])) &&
      (forall x :: j <= x < k ==> IsDigit(s[x])) &&
      (forall x :: k <= x < t ==> IsSpace(s[x])) &&
      (forall x :: i <= x < j ==> s[x] == '-' || s[x] == '+') &&
      !IsSpace(s[i]) && !IsDigit(s[k]) &&
      (s[i] == '-' <==> sign == "-") &&
      (if j == i + 1 then s[i] == '-' || s[i] == '+' else j == i && IsDigit(s[i])) &&
      RunValue(s, j, k) == DigitsValue(d)
  {
    var i := |w1|;
    var j := i + |sign|;
    var k := j + |d|;
    var t := k + |w2|;
    forall x | 0 <= x < i ensures IsSpace(s[x]) { assert IsSpace(w1[x]); }
    forall x | k <= x < t ensures IsSpace(s[x]) { assert IsSpace(w2[x - k]); }
    forall x | i <= x < j ensures s[x] == '-' || s[x] == '+' { assert s[x] == sign[x - i]; }
    if sign != "" { assert s[i] == sign[0]; } else { assert s[i] == d[0]; }
    if w2 != [] { assert s[k] == w2[0]; assert IsSpace(w2[0]); }
    RunValueOf(s, j, d);
  }

  /** In the accepted form the first NUL is the one after the trailing whitespace. */
  lemma {:induction false} LaidOutEnd(s: seq<char>, i: nat, j: nat, k: nat, t: nat)
    requires i <= j <= k <= t < |s| && s[t] == '\0'
    requires forall x :: 0 <= x < i ==> IsSpace(s[x])
    requires forall x :: i <= x < j ==> s[x] == '-' || s[x] == '+'
    requires forall x :: j <= x < k ==> IsDigit(s[x])
    requires forall x :: k <= x < t ==> IsSpace(s[x])
    ensures '\0' in s && CStrLen(s) == t
  {
    assert '\0' !in s[..t] by {
      forall x | 0 <= x < t ensures s[..t][x] != '\0' {
        if x < i { assert IsSpace(s[x]); }
        else if x < j { assert s[x] == '-' || s[x] == '+'; }
        else if x < k { assert IsDigit(s[x]); }
        else { assert IsSpace(s[x]); }
      }
    }
    CStrLenFirst(s, t);
  }

  /** Where the scanning functions stop on text in the accepted form. */
  lemma {:induction false} LaidOutScan(s: seq<char>, i: nat, j: nat, k: nat, t: nat)
    requires i <= j <= k <= t < |s| && s[t] == '\0'
    requires forall x :: 0 <= x < i ==> IsSpace(s[x])
    requires forall x :: i <= x < j ==> s[x] == '-' || s[x] == '+'
    requires forall x :: j <= x < k ==> IsDigit(s[x])
    requires forall x :: k <= x < t ==> IsSpace(s[x])
    requires !IsSpace(s[i]) && !IsDigit(s[k])
    ensures '\0' in s && t == CStrLen(s)
    ensures SkipSpaces(s, 0) == i && DigitRun(s, j) == k && SkipSpaces(s, k) == t
  {
    LaidOutEnd(s, i, j, k, t);
    Positions(s, i, j, k, t);
  }

  /** StrToIntAccepts for a text `s` whose layout is given position by position. */
  lemma {:induction false} AcceptsOn(s: seq<char>, w1: string, sign: string, d: string, w2: string, lo: int, typename: string)
    requires AllSpaces(w1) && AllSpaces(w2) && (sign == "" || sign == "+" || sign == "-")
    requires |d| >= 1 && AllDigits(d) && lo < 0 && LaidOut(s, w1, sign, d, w2)
    ensures '\0' in s && StrToIntSpec(s, lo, typename) == Finish(DigitsValue(d), true, sign == "-", lo, typename)
  {
    var i := |w1|;
    var j := i + |sign|;
    var k := j + |d|;
    var t := k + |w2|;
    LaidOutChars(s, w1, sign, d, w2);
    LaidOutScan(s, i, j, k, t);
    StrToIntAt(s, i, j, k, t, DigitsValue(d), sign == "-", lo, typename);
  }

  /**
   * The accepted form: whitespace, an optional sign, one or more digits,
   * whitespace, then the NUL (anything may follow it).  The result is the
   * signed value of the digits when it lies in [lo, -lo - 1], and "out of
   * range" otherwise.
   */
  lemma {:induction false} StrToIntAccepts(w1: string, sign: string, d: string, w2: string, rest: seq<char>, lo: int, typename: string)
    requires AllSpaces(w1) && AllSpaces(w2) && (sign == "" || sign == "+" || sign == "-")
    requires |d| >= 1 && AllDigits(d) && lo < 0
    ensures var s := w1 + sign + d + w2 + ['\0'] + rest;
      var v := if sign == "-" then -(DigitsValue(d) as int) else DigitsValue(d);
      '\0' in s &&
      StrToIntSpec(s, lo, typename) == if lo <= v <= -lo - 1 then Ok(v) else Err(Overflow(typename))
  {
    Layout(w1, sign, d, w2, rest);
    AcceptsOn(w1 + sign + d + w2 + ['\0'] + rest, w1, sign, d, w2, lo, typename);
    FinishInRange(DigitsValue(d), sign == "-", lo, typename);
  }

  /** The C string of a decimal text, in the accepted form's parts. */
  lemma {:induction false} DecimalText(v: int)
    ensures AllDigits(Digits(Abs(v))) && AllSpaces([])
    ensures Decimal(v) + ['\0'] == [] + Sign(v) + Digits(Abs(v)) + [] + ['\0'] + []
  {
    DecimalSplit(v);
    DigitsAreDigits(Abs(v));
  }

  /**
   * pg_strtoint32 inverts pg_int32tostr, and pg_strtoint16 pg_int16tostr:
   * the decimal text of any value in [lo, -lo - 1] reads back as that value,
   * and the text of any value outside it is "out of range".
   */
  lemma {:induction false} StrToIntRoundTrip(v: int, lo: int, typename: string)
    requires lo < 0
    ensures '\0' in Decimal(v) + ['\0']
    ensures StrToIntSpec(Decimal(v) + ['\0'], lo, typename) ==
      if lo <= v <= -lo - 1 then Ok(v) else Err(Overflow(typename))
  {
    var sign, d := Sign(v), Digits(Abs(v));
    DecimalText(v);
    DigitsRoundTrip(Abs(v));
    StrToIntAccepts([], sign, d, [], [], lo, typename);
    assert (if sign == "-" then -(DigitsValue(d) as int) else DigitsValue(d)) == v;
  }

  /** The most negative value is accepted, its positive counterpart is not. */
  lemma {:induction false} StrToIntLimits()
    ensures StrToIntSpec(Decimal(INT32_MIN) + ['\0'], INT32_MIN, "integer") == Ok(INT32_MIN)
    ensures StrToIntSpec(Decimal(-INT32_MIN) + ['\0'], INT32_MIN, "integer") == Err(Overflow("integer"))
    ensures StrToIntSpec(Decimal(INT16_MIN) + ['\0'], INT16_MIN, "smallint") == Ok(INT16_MIN)
    ensures StrToIntSpec(Decimal(-INT16_MIN) + ['\0'], INT16_MIN, "smallint") == Err(Overflow("smallint"))
  {
    StrToIntRoundTrip(INT32_MIN, INT32_MIN, "integer");
    StrToIntRoundTrip(-INT32_MIN, INT32_MIN, "integer");
    StrToIntRoundTrip(INT16_MIN, INT16_MIN, "smallint");
    StrToIntRoundTrip(-INT16_MIN, INT16_MIN, "smallint");
  }

  /**
   * Text in which no digit follows the whitespace and the sign is invalid
   * syntax, and so is a digit run followed by anything but whitespace and
   * the NUL, provided its magnitude did not already overflow.
   */
  lemma {:induction false} StrToIntRejects(s: seq<char>, lo: int, typename: string)
    requires '\0' in s && lo < 0
    ensures var i := SkipSpaces(s, 0);
      var j := if s[i] == '-' || s[i] == '+' then i + 1 else i;
      AllDigits(s[j..DigitRun(s, j)])
    ensures var i := SkipSpaces(s, 0);
      var j := if s[i] == '-' || s[i] == '+' then i + 1 else i;
      (!IsDigit(s[j]) ==> StrToIntSpec(s, lo, typename) == Err(InvalidSyntax(typename))) &&
      ((IsDigit(s[j]) && DigitsValue(s[j..DigitRun(s, j)]) <= -lo && s[SkipSpaces(s, DigitRun(s, j))] != '\0')
         ==> StrToIntSpec(s, lo, typename) == Err(InvalidSyntax(typename)))
  {
    var i := SkipSpaces(s, 0);
    var j := if s[i] == '-' || s[i] == '+' then i + 1 else i;
    DigitRunDigits(s, j);
    RunValueIsDigitsValue(s, j, DigitRun(s, j));
  }

  // ---------------------------------------------------------------------
  // strtol and strtoul with base 10, as the C library defines them (the
  // platform's `long` is 64 bits wide)

  /** What strtol(s + i, &endptr, 10) reports: the value, where it stopped, and errno == ERANGE. */
  datatype Strtol = Strtol(value: int, stop: nat, erange: bool)

  /** Where the optional sign ends, after leading whitespace. */
  function SignEnd(s: seq<char>, i: nat): (k: nat)
    requires '\0' in s && i <= CStrLen(s)
    ensures k <= CStrLen(s)
  {
    var j := SkipSpaces(s, i);
    if s[j] == '-' || s[j] == '+' then j + 1 else j
  }

  /** The number the digits from `k` up to `e` denote, read by position. */
  function RunValue(s: seq<char>, k: nat, e: nat): nat
    requires k <= e <= |s| && forall j :: k <= j < e ==> IsDigit(s[j])
    decreases e - k
  {
    if e == k then 0 else RunValue(s, k, e - 1) * 10 + DigitValue(s[e - 1])
  }

  /** RunValue is the value of the slice the positions span. */
  lemma {:induction false} RunValueIsDigitsValue(s: seq<char>, k: nat, e: nat)
    requires k <= e <= |s| && forall j :: k <= j < e ==> IsDigit(s[j])
    ensures AllDigits(s[k..e]) && RunValue(s, k, e) == DigitsValue(s[k..e])
    decreases e - k
  {
    if e > k {
      RunValueIsDigitsValue(s, k, e - 1);
      assert s[k..e][..e - k - 1] == s[k..e - 1];
    }
  }

  /** RunValue over positions that hold the digit string `d` is the value of `d`. */
  lemma {:induction false} RunValueOf(s: seq<char>, j: nat, d: string)
    requires j + |d| <= |s| && AllDigits(d) && forall x :: j <= x < j + |d| ==> s[x] == d[x - j]
    ensures forall x :: j <= x < j + |d| ==> IsDigit(s[x])
    ensures RunValue(s, j, j + |d|) == DigitsValue(d)
    decreases |d|
  {
    assert forall x :: j <= x < j + |d| ==> IsDigit(s[x]) by {
      forall x | j <= x < j + |d| ensures IsDigit(s[x]) { assert IsDigit(d[x - j]); }
    }
    if d != [] {
      var u := d[..|d| - 1];
      assert forall x :: j <= x < j + |u| ==> s[x] == u[x - j] by {
        forall x | j <= x < j + |u| ensures s[x] == u[x - j] { assert u[x - j] == d[x - j]; }
      }
      RunValueOf(s, j, u);
      assert s[j + |d| - 1] == d[|d| - 1];
    }
  }

  /**
   * strtol: whitespace, an optional sign, a digit run; the value is clamped
   * to [LONG_MIN, LONG_MAX] with ERANGE. Without a digit nothing is
   * converted and the end pointer is the start.
   */
  function StrtolAt(s: seq<char>, i: nat): (r: Strtol)
    requires '\0' in s && i <= CStrLen(s)
    ensures i <= r.stop <= CStrLen(s) && IsInt64(r.value)
  {
    var k := SignEnd(s, i);
    if !IsDigit(s[k]) then Strtol(0, i, false)
    else
      var e := DigitRun(s, k);
      DigitRunDigits(s, k);
      var mag := RunValue(s, k, e);
      var v := if s[SkipSpaces(s, i)] == '-' then -(mag as int) else mag;
      if v > INT64_MAX then Strtol(INT64_MAX, e, true)
      else if v < INT64_MIN then Strtol(INT64_MIN, e, true)
      else Strtol(v, e, false)
  }

  /**
   * strtoul: the same syntax; a magnitude above ULONG_MAX gives ULONG_MAX
   * with ERANGE, and a '-' negates in unsigned arithmetic.
   */
  function StrtoulAt(s: seq<char>, i: nat): (r: Strtol)
    requires '\0' in s && i <= CStrLen(s)
    ensures i <= r.stop <= CStrLen(s) && IsUInt64(r.value)
  {
    var k := SignEnd(s, i);
    if !IsDigit(s[k]) then Strtol(0, i, false)
    else
      var e := DigitRun(s, k);
      DigitRunDigits(s, k);
      var mag := RunValue(s, k, e);
      if mag > UINT64_MAX then Strtol(UINT64_MAX, e, true)
      else if s[SkipSpaces(s, i)] == '-' then Strtol(ToUInt64(-(mag as int)), e, false)
      else Strtol(mag, e, false)
  }

  /** atoi: glibc's `(int) strtol(nptr, NULL, 10)`. */
  function AtoiAt(s: seq<char>, i: nat): (r: int)
    requires '\0' in s && i <= CStrLen(s)
    ensures IsInt32(r)
  {
    ToInt32(StrtolAt(s, i).value)
  }

  /** Where the scan of a decimal text followed by a non-digit stops, part by part. */
  lemma {:induction false} DecimalScan(s: seq<char>, i: nat, v: int)
    requires '\0' in s && i + |Decimal(v)| <= CStrLen(s)
    requires s[i..i + |Decimal(v)|] == Decimal(v) && !IsDigit(s[i + |Decimal(v)|])
    ensures SkipSpaces(s, i) == i && (s[i] == '-' <==> v < 0)
    ensures SignEnd(s, i) == i + |Sign(v)| && IsDigit(s[i + |Sign(v)|])
    ensures DigitRun(s, i + |Sign(v)|) == i + |Decimal(v)|
    ensures s[i + |Sign(v)|..i + |Decimal(v)|] == Digits(Abs(v))
  {
    DecimalSplit(v);
    DecimalChars(v);
    DigitsAreDigits(Abs(v));
    var sign, d := Sign(v), Digits(Abs(v));
    var k := i + |sign|;
    var e := k + |d|;
    var text := s[i..i + |Decimal(v)|];
    assert s[i] == text[0];
    assert s[k] == text[|sign|] == d[0];
    forall x | k <= x < e
      ensures IsDigit(s[x])
    {
      assert s[x] == text[x - i];
    }
    DigitRunOver(s, k, |d|);
    assert s[k..e] == text[|sign|..];
  }

  /**
   * The decimal text of a value, followed by a character that is not a
   * digit, is read back by strtol as that value (every int64 fits a long)
   * and by strtoul when it is a uint64, stopping right after the text.
   */
  lemma {:induction false} StrtolDecimal(s: seq<char>, i: nat, v: int)
    requires '\0' in s && i + |Decimal(v)| <= CStrLen(s)
    requires s[i..i + |Decimal(v)|] == Decimal(v) && !IsDigit(s[i + |Decimal(v)|])
    ensures IsInt64(v) ==> StrtolAt(s, i) == Strtol(v, i + |Decimal(v)|, false)
    ensures IsUInt64(v) ==> StrtoulAt(s, i) == Strtol(v, i + |Decimal(v)|, false)
    ensures IsInt32(v) ==> AtoiAt(s, i) == v
  {
    DecimalScan(s, i, v);
    DigitsRoundTrip(Abs(v));
    DigitsAreDigits(Abs(v));
    var k := i + |Sign(v)|;
    var e := i + |Decimal(v)|;
    assert forall j :: k <= j < e ==> IsDigit(s[j]) by {
      forall j | k <= j < e ensures IsDigit(s[j]) { assert s[j] == s[k..e][j - k]; }
    }
    RunValueIsDigitsValue(s, k, e);
  }

  // ---------------------------------------------------------------------
  // pg_atoi's checks after strtol

  /** Where pg_atoi's trailing loop stops: at a NUL, at `c`, or at a non-space. */
  function SkipSpacesBefore(s: seq<char>, p: nat, c: char): (q: nat)
    requires '\0' in s && p <= CStrLen(s)
    ensures p <= q <= CStrLen(s)
    ensures forall i :: p <= i < q ==> IsSpace(s[i]) && s[i] != c
    ensures s[q] == '\0' || s[q] == c || !IsSpace(s[q])
    decreases CStrLen(s) - p
  {
    if s[p] != '\0' && s[p] != c && IsSpace(s[p]) then SkipSpacesBefore(s, p + 1, c) else p
  }

  /**
   * pg_atoi on NULL (`None`), an empty string, a strtol that consumed
   * nothing, an unsupported size, a value out of the size's range, and text
   * left over after the number.
   */
  function AtoiSpec(s: Option<seq<char>>, size: int, c: char): Result<int>
    requires s.Some? ==> '\0' in s.value
  {
    if s.None? then Err(Undefined("NULL pointer"))
    else if s.value[0] == '\0' then Err(InvalidSyntax("integer"))
    else
      var scan := StrtolAt(s.value, 0);
      if scan.stop == 0 then Err(InvalidSyntax("integer"))
      else if size == 4 && (scan.erange || !IsInt32(scan.value)) then Err(Overflow("integer"))
      else if size == 2 && (scan.erange || !IsInt16(scan.value)) then Err(Overflow("smallint"))
      else if size == 1 && (scan.erange || !(INT8_MIN <= scan.value <= INT8_MAX)) then Err(Overflow("8-bit integer"))
      else if size != 4 && size != 2 && size != 1 then Err(SchemaError("unsupported result size"))
      else
        var q := SkipSpacesBefore(s.value, scan.stop, c);
        if s.value[q] != '\0' && s.value[q] != c then Err(InvalidSyntax("integer"))
        else Ok(ToInt32(scan.value))
  }

  /** pg_atoi: strtol, then the checks on its outcome and on what follows the number. */
  method Atoi(s: Option<seq<char>>, size: int, c: char) returns (r: Result<int>)
    requires s.Some? ==> '\0' in s.value
    ensures r == AtoiSpec(s, size, c)
  {
    if s.None? {
      return Err(Undefined("NULL pointer"));
    }
    var str := s.value;
    if str[0] == '\0' {
      return Err(InvalidSyntax("integer"));
    }
    var scan := StrtolAt(str, 0);
    if scan.stop == 0 {
      return Err(InvalidSyntax("integer"));
    }
    var l := scan.value;
    if size == 4 {
      if scan.erange || l < INT32_MIN || l > INT32_MAX {
        return Err(Overflow("integer"));
      }
    } else if size == 2 {
      if scan.erange || l < INT16_MIN || l > INT16_MAX {
        return Err(Overflow("smallint"));
      }
    } else if size == 1 {
      if scan.erange || l < INT8_MIN || l > INT8_MAX {
        return Err(Overflow("8-bit integer"));
      }
    } else {
      return Err(SchemaError("unsupported result size"));
    }
    var p := scan.stop;
    while str[p] != '\0' && str[p] != c && IsSpace(str[p])
      invariant scan.stop <= p <= CStrLen(str)
      invariant SkipSpacesBefore(str, p, c) == SkipSpacesBefore(str, scan.stop, c)
      decreases CStrLen(str) - p
    {
      p := p + 1;
    }
    if str[p] != '\0' && str[p] != c {
      return Err(InvalidSyntax("integer"));
    }
    r := Ok(ToInt32(l));
  }

  /** Any stopping point with only non-`c` whitespace before it is the one the loop finds. */
  lemma {:induction false} SkipSpacesBeforeUnique(s: seq<char>, p: nat, c: char, q: nat)
    requires '\0' in s && p <= q <= CStrLen(s)
    requires s[q] == '\0' || s[q] == c
    requires forall i :: p <= i < q ==> IsSpace(s[i]) && s[i] != c
    ensures SkipSpacesBefore(s, p, c) == q
    decreases q - p
  {
    if p < q {
      SkipSpacesBeforeUnique(s, p + 1, c, q);
    }
  }

  /**
   * pg_atoi succeeds exactly when the string is non-empty, strtol consumed
   * something without ERANGE, `size` is 4, 2 or 1 and the value fits it,
   * and after the number only whitespace comes before a NUL or `c`; the
   * result is strtol's value unchanged.
   */
  lemma {:induction false} AtoiMeaning(s: Option<seq<char>>, size: int, c: char)
    requires s.Some? ==> '\0' in s.value
    ensures AtoiSpec(s, size, c).Ok? <==>
      s.Some? && s.value[0] != '\0' &&
      var scan := StrtolAt(s.value, 0);
      scan.stop > 0 && !scan.erange &&
      ((size == 4 && IsInt32(scan.value)) || (size == 2 && IsInt16(scan.value)) ||
       (size == 1 && INT8_MIN <= scan.value <= INT8_MAX)) &&
      var q := SkipSpacesBefore(s.value, scan.stop, c); s.value[q] == '\0' || s.value[q] == c
    ensures AtoiSpec(s, size, c).Ok? ==> AtoiSpec(s, size, c).value == StrtolAt(s.value, 0).value
  {
  }

  /**
   * pg_atoi inverts pg_int32tostr: the decimal text of a value of the
   * size's range, then a NUL or the terminator `c` after any whitespace,
   * reads back as that value.
   */
  lemma {:induction false} AtoiRoundTrip(v: int, size: int, w: string, c: char, rest: seq<char>)
    requires (size == 4 && IsInt32(v)) || (size == 2 && IsInt16(v)) || (size == 1 && INT8_MIN <= v <= INT8_MAX)
    requires AllSpaces(w) && c != '\0' && !IsDigit(c) && '\0' in rest && (forall k :: 0 <= k < |w| ==> w[k] != c)
    ensures '\0' in Decimal(v) + w + [c] + rest
    ensures AtoiSpec(Some(Decimal(v) + w + [c] + rest), size, c) == Ok(v)
  {
    var u := Decimal(v) + w + [c];
    var s := u + rest;
    var n := |Decimal(v)|;
    DecimalChars(v);
    assert '\0' !in u by {
      forall x | 0 <= x < |u| ensures u[x] != '\0' {
        if x < n {
          assert u[x] == Decimal(v)[x];
        } else if x < n + |w| {
          assert u[x] == w[x - n];
          assert IsSpace(w[x - n]);
        }
      }
    }
    CStrLenSkip(u, rest);
    forall x | n <= x < n + |w| ensures IsSpace(s[x]) && s[x] != c {
      assert s[x] == w[x - n];
    }
    assert s[..n] == Decimal(v);
    AtoiOnText(s, v, size, c, n + |w|);
  }

  /** AtoiRoundTrip on a text given position by position: the number, whitespace up to `q`, then `c`. */
  lemma {:induction false} AtoiOnText(s: seq<char>, v: int, size: int, c: char, q: nat)
    requires (size == 4 && IsInt32(v)) || (size == 2 && IsInt16(v)) || (size == 1 && INT8_MIN <= v <= INT8_MAX)
    requires c != '\0' && !IsDigit(c)
    requires '\0' in s && |Decimal(v)| <= q < CStrLen(s) && s[..|Decimal(v)|] == Decimal(v)
    requires forall x :: |Decimal(v)| <= x < q ==> IsSpace(s[x]) && s[x] != c
    requires s[q] == c
    ensures AtoiSpec(Some(s), size, c) == Ok(v)
  {
    var n := |Decimal(v)|;
    assert s[0..n] == Decimal(v);
    assert !IsDigit(s[n]) by {
      if n < q { assert IsSpace(s[n]); }
    }
    StrtolDecimal(s, 0, v);
    DecimalChars(v);
    assert s[0] == Decimal(v)[0];
    SkipSpacesBeforeUnique(s, n, c, q);
    AtoiAcceptsAt(s, size, c, v, n, q);
  }

  /** pg_atoi's outcome once strtol's result and the stopping point of the trailing loop are known. */
  lemma {:induction false} AtoiAcceptsAt(s: seq<char>, size: int, c: char, v: int, n: nat, q: nat)
    requires '\0' in s && s[0] != '\0' && StrtolAt(s, 0) == Strtol(v, n, false)
    requires 0 < n <= q <= CStrLen(s) && SkipSpacesBefore(s, n, c) == q
    requires (size == 4 && IsInt32(v)) || (size == 2 && IsInt16(v)) || (size == 1 && INT8_MIN <= v <= INT8_MAX)
    requires s[q] == '\0' || s[q] == c
    ensures AtoiSpec(Some(s), size, c) == Ok(v)
  {
  }
}
