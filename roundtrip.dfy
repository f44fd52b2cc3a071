// The reader inverts the writer: text produced by nodeout_* for a leaf
// value (src/backend/nodes/outfuncs_new.c), read back by the matching
// nodein_* routine (src/backend/nodes/readfuncs_new.c), gives the value
// again. Each lemma places the written text in a larger input at some
// position, after blanks, and followed by whatever ends a token, as it is
// inside a serialized node.

module RoundTrip {
  import opened Wrappers
  import opened CInt
  import opened NodeInfo
  import opened NodeValues
  import opened PgString
  import opened NodeTokens
  import opened NumUtils
  import opened NodeOut
  import opened NodeIn

  // ---------------------------------------------------------------------
  // Words: text the tokenizer reads as a single token

  /** No delimiter, and every backslash has a character other than NUL after it. */
  predicate Word(w: string)
    decreases |w|
  {
    || w == []
    || (w[0] == '\\' && |w| >= 2 && w[1] != '\0' && Word(w[2..]))
    || (w[0] != '\\' && !IsDelim(w[0]) && Word(w[1..]))
  }

  /** `w` sits at `q`, before the first NUL, and a delimiter follows it. */
  predicate WrittenAt(s: string, q: nat, w: string)
  {
    '\0' in s && q + |w| <= CStrLen(s) && s[q .. q + |w|] == w && IsDelim(s[q + |w|])
  }

  /** Only blanks from `p` up to `q`. */
  predicate BlanksBetween(s: string, p: nat, q: nat)
  {
    p <= q <= |s| && forall j :: p <= j < q ==> IsBlank(s[j])
  }

  /** A text without delimiters and backslashes is a word. */
  lemma {:induction false} PlainWord(w: string)
    requires forall j :: 0 <= j < |w| ==> w[j] != '\\' && !IsDelim(w[j])
    ensures Word(w)
    decreases |w|
  {
    if w != [] {
      assert forall j :: 0 <= j < |w[1..]| ==> w[1..][j] == w[j + 1];
      PlainWord(w[1..]);
    }
  }

  /** Words are closed under concatenation. */
  lemma {:induction false} WordAppend(a: string, b: string)
    requires Word(a) && Word(b)
    ensures Word(a + b)
    decreases |a|
  {
    if a == [] {
      assert a + b == b;
    } else if a[0] == '\\' && |a| >= 2 && a[1] != '\0' && Word(a[2..]) {
      WordAppend(a[2..], b);
      assert (a + b)[2..] == a[2..] + b;
    } else {
      WordAppend(a[1..], b);
      assert (a + b)[1..] == a[1..] + b;
    }
  }

  /** nodeout_token's escaping makes a NUL-free string one word. */
  lemma {:induction false} EscapeIsWord(x: string)
    requires '\0' !in x
    ensures Word(Escape(x))
    decreases |x|
  {
    if x != [] {
      var c := x[0];
      assert '\0' !in x[1..] by {
        forall j | 0 <= j < |x[1..]| ensures x[1..][j] != '\0' { assert x[1..][j] == x[j + 1]; }
      }
      EscapeIsWord(x[1..]);
      var e := EscapeChar(c);
      if NeedsEscape(c) {
        assert e[2..] == [];
      } else {
        PlainWord(e);
      }
      WordAppend(e, Escape(x[1..]));
    }
  }

  /** The tokenizer's word scan stops right after a word. */
  lemma {:induction false} WordEndAt(s: string, q: nat, w: string)
    requires Word(w) && '\0' in s && q + |w| <= CStrLen(s) && IsDelim(s[q + |w|])
    requires forall x :: q <= x < q + |w| ==> s[x] == w[x - q]
    ensures WordEnd(s, q) == q + |w|
    decreases |w|
  {
    if w != [] {
      if w[0] == '\\' && |w| >= 2 && w[1] != '\0' && Word(w[2..]) {
        var u := w[2..];
        assert s[q] == w[0] && s[q + 1] == w[1];
        forall x | q + 2 <= x < q + 2 + |u| ensures s[x] == u[x - (q + 2)] {
          assert s[x] == w[x - q];
        }
        WordEndAt(s, q + 2, u);
      } else {
        var u := w[1..];
        assert s[q] == w[0];
        forall x | q + 1 <= x < q + 1 + |u| ensures s[x] == u[x - (q + 1)] {
          assert s[x] == w[x - q];
        }
        WordEndAt(s, q + 1, u);
      }
    }
  }

  /** nodein_strtok on a written word: the word's position and length (0 for `<>`), the cursor after it. */
  lemma {:induction false} StrtokWord(s: string, p: nat, q: nat, w: string)
    requires WrittenAt(s, q, w) && Word(w) && w != [] && BlanksBetween(s, p, q)
    ensures Strtok(s, p) == Scan(Tok(q, if w == "<>" then 0 else |w|), q + |w|)
  {
    SkipBlanksFrom(s, p, q);
    assert s[q] == w[0];
    forall x | q <= x < q + |w| ensures s[x] == w[x - q] {
      assert s[x] == s[q .. q + |w|][x - q];
    }
    WordEndAt(s, q, w);
    if |w| == 2 {
      assert w == [s[q], s[q + 1]];
    }
  }

  /** nodein_strtok on a bracket: a token of length one. */
  lemma {:induction false} StrtokBracket(s: string, p: nat, q: nat)
    requires '\0' in s && q < CStrLen(s) && IsBracket(s[q]) && BlanksBetween(s, p, q)
    ensures Strtok(s, p) == Scan(Tok(q, 1), q + 1)
  {
    SkipBlanksFrom(s, p, q);
  }

  /** The decimal text of a number is a word other than `<>`. */
  lemma {:induction false} DecimalIsWord(v: int)
    ensures Word(Decimal(v)) && Decimal(v) != [] && Decimal(v) != "<>"
  {
    DecimalChars(v);
    PlainWord(Decimal(v));
    DecimalSplit(v);
  }

  /** `Decimal(v)` with a NUL after it is a C string of that length. */
  lemma {:induction false} DecimalCString(v: int)
    ensures '\0' in Decimal(v) + ['\0'] && CStrLen(Decimal(v) + ['\0']) == |Decimal(v)|
  {
    DecimalChars(v);
    var w := Decimal(v) + ['\0'];
    assert w[|Decimal(v)|] == '\0';
    var n := CStrLen(w);
    if n < |Decimal(v)| {
      assert w[n] == Decimal(v)[n];
    }
  }

  // ---------------------------------------------------------------------
  // Strings, characters and booleans

  /** nodein_debackslash undoes nodeout_token's escaping. */
  lemma {:induction false} UnescapeEscape(x: string)
    ensures Unescape(Escape(x)) == x
    decreases |x|
  {
    if x != [] {
      var e := Escape(x);
      var rest := Escape(x[1..]);
      assert e == EscapeChar(x[0]) + rest;
      UnescapeEscape(x[1..]);
      if NeedsEscape(x[0]) {
        assert e[0] == '\\' && e[1] == x[0] && e[2..] == rest;
      } else {
        assert e[0] == x[0] && e[1..] == rest;
      }
    }
  }

  /** A NUL-free string is written as its escaped text between double quotes. */
  lemma {:induction false} QuotedForm(x: string)
    requires '\0' !in x
    ensures Quoted(x) == "\"" + Escape(x) + "\""
    ensures Quoted(x)[1 .. |Quoted(x)| - 1] == Escape(x)
    ensures Word(Quoted(x))
  {
    if x == [] {
      assert Quoted(x) == "\"\"";
    }
    var w := "\"" + Escape(x) + "\"";
    assert w[1 .. |w| - 1] == Escape(x);
    EscapeIsWord(x);
    PlainWord("\"");
    WordAppend("\"", Escape(x));
    WordAppend("\"" + Escape(x), "\"");
  }

  /** A `char *` field or String node written by the writer is read back as the same string. */
  lemma {:induction false} ReadStringQuoted(s: string, p: nat, q: nat, x: string)
    requires '\0' !in x && WrittenAt(s, q, Quoted(x)) && BlanksBetween(s, p, q)
    ensures ReadString(s, Strtok(s, p)) == Ok(Parsed(Str(Some(x)), q + |Quoted(x)|))
  {
    var w := Quoted(x);
    QuotedForm(x);
    StrtokWord(s, p, q, w);
    ReadStringAt(s, p, q, w);
    UnescapeEscape(x);
  }

  /** A quoted word written at `q` reads back as its unescaped inside. */
  lemma {:induction false} ReadStringAt(s: string, p: nat, q: nat, w: string)
    requires InText(s, p) && |w| >= 2 && w[0] == '"' && w[|w| - 1] == '"' && WrittenAt(s, q, w)
    requires Strtok(s, p) == Scan(Tok(q, |w|), q + |w|)
    ensures ReadString(s, Strtok(s, p)) == Ok(Parsed(Str(Some(Unescape(w[1 .. |w| - 1]))), q + |w|))
  {
    var n := |w|;
    assert s[q] == s[q .. q + n][0];
    assert s[q + n - 1] == s[q .. q + n][n - 1];
    assert s[q + 1 .. q + n - 1] == s[q .. q + n][1 .. n - 1];
  }

  /** A `char` field is read back as the same character, NUL included. */
  lemma {:induction false} ReadCharWritten(s: string, p: nat, q: nat, c: char)
    requires WrittenAt(s, q, OutChar(c)) && BlanksBetween(s, p, q)
    ensures ReadChar(s, Strtok(s, p)) == Ok(Parsed(Char(c), q + |OutChar(c)|))
  {
    var w := OutChar(c);
    if c == '\0' {
      PlainWord(w);
    } else if !IsAlnum(c) {
      assert w[2..] == [];
    } else {
      PlainWord(w);
    }
    StrtokWord(s, p, q, w);
    assert s[q] == w[0];
    if |w| == 2 {
      assert s[q + 1] == w[1];
    }
  }

  /** "true" and "false" are words. */
  lemma {:induction false} BoolWord(b: bool)
    ensures Word(OutBool(b))
  {
    var w := OutBool(b);
    assert forall j :: 0 <= j < |w| ==> w[j] in "truefals";
    PlainWord(w);
  }

  /** A `bool` field is read back as the same truth value. */
  lemma {:induction false} ReadBoolWritten(s: string, p: nat, q: nat, b: bool)
    requires WrittenAt(s, q, OutBool(b)) && BlanksBetween(s, p, q)
    ensures ReadBool(s, Strtok(s, p)) == Ok(Parsed(Bool(b), q + |OutBool(b)|))
  {
    var w := OutBool(b);
    BoolWord(b);
    StrtokWord(s, p, q, w);
    assert s[q] == w[0];
    assert TokText(s, Tok(q, |w|)) == w;
  }

  // ---------------------------------------------------------------------
  // Numbers and enums

  /** nodein_strtok on a written number: the number's text is the token. */
  lemma {:induction false} StrtokDecimal(s: string, p: nat, q: nat, n: int)
    requires WrittenAt(s, q, Decimal(n)) && BlanksBetween(s, p, q)
    ensures Strtok(s, p) == Scan(Tok(q, |Decimal(n)|), q + |Decimal(n)|)
    ensures TokText(s, Tok(q, |Decimal(n)|)) == Decimal(n)
  {
    DecimalIsWord(n);
    StrtokWord(s, p, q, Decimal(n));
  }

  /** The kinds nodein_field reads with strtoul or atoi at the token. */
  lemma {:induction false} ReadIntegerInPlace(s: string, q: nat, k: KnownType, n: int)
    requires IsIntegerKind(k) && k != KUInt64 && k != KInt64 && InRangeOf(k, n)
    requires WrittenAt(s, q, Decimal(n))
    ensures ReadInteger(s, Tok(q, |Decimal(n)|), k) == Ok(n)
  {
    StrtolDecimal(s, q, n);
  }

  /** The 64-bit kinds, which nodein_field converts from a NUL-terminated copy of the token. */
  lemma {:induction false} ReadIntegerCopied(s: string, q: nat, k: KnownType, n: int)
    requires (k == KUInt64 || k == KInt64) && InRangeOf(k, n)
    requires WrittenAt(s, q, Decimal(n)) && TokText(s, Tok(q, |Decimal(n)|)) == Decimal(n)
    ensures ReadInteger(s, Tok(q, |Decimal(n)|), k) == Ok(n)
  {
    var w := Decimal(n);
    if k == KUInt64 {
      DecimalCString(n);
      assert (w + ['\0'])[0 .. |w|] == w;
      StrtolDecimal(w + ['\0'], 0, n);
    } else {
      StrToIntRoundTrip(n, INT64_MIN, "bigint");
    }
  }

  /** An integer token within its C type's range converts back to the same number. */
  lemma {:induction false} ReadIntegerWritten(s: string, q: nat, k: KnownType, n: int)
    requires IsIntegerKind(k) && InRangeOf(k, n) && WrittenAt(s, q, Decimal(n))
    ensures ReadInteger(s, Tok(q, |Decimal(n)|), k) == Ok(n)
  {
    if k == KUInt64 || k == KInt64 {
      assert TokText(s, Tok(q, |Decimal(n)|)) == Decimal(n);
      ReadIntegerCopied(s, q, k, n);
    } else {
      ReadIntegerInPlace(s, q, k, n);
    }
  }

  /**
   * An integer field within its C type's range is read back as the same
   * number from the token StrtokDecimal finds at the written digits, and
   * the reading ends just past them.
   */
  lemma {:induction false} ReadNumberWritten(loc: bool, s: string, tk: Scan, q: nat, k: KnownType, n: int)
    requires IsIntegerKind(k) && InRangeOf(k, n) && WrittenAt(s, q, Decimal(n))
    requires ScanIn(s, tk) && tk.tok == Tok(q, |Decimal(n)|)
    ensures ReadNumber(loc, s, tk, k) == Ok(Parsed(Scalar(n), tk.next))
  {
    ReadIntegerWritten(s, q, k, n);
  }

  /** A location token is read back when locations are restored; otherwise it becomes -1. */
  lemma {:induction false} ReadLocationWritten(loc: bool, s: string, tk: Scan, q: nat, n: int)
    requires IsInt32(n) && WrittenAt(s, q, Decimal(n))
    requires ScanIn(s, tk) && tk.tok == Tok(q, |Decimal(n)|)
    ensures ReadNumber(loc, s, tk, KLocation) == Ok(Parsed(Scalar(if loc then n else -1), tk.next))
  {
    StrtolDecimal(s, q, n);
  }

  /** The enum's constant names are single tokens and no two are alike. */
  predicate ReadableEnum(t: Tables, e: int)
    requires ValidTables(t) && 0 <= e < |t.enums|
  {
    && (forall j :: 0 <= j < |EnumFieldsOf(t, e)| ==> PlainToken(EnumName(t, e, j)))
    && (forall a, b :: 0 <= a < b < |EnumFieldsOf(t, e)| ==> EnumName(t, e, a) != EnumName(t, e, b))
  }

  /** A single token is a word. */
  lemma {:induction false} PlainTokenIsWord(w: string)
    requires PlainToken(w)
    ensures Word(w) && w != [] && w != "<>"
  {
    PlainWord(w);
  }

  /** An enum field the writer could name is read back as the same (unsigned) value. */
  lemma {:induction false} ReadEnumWritten(t: Tables, s: string, p: nat, q: nat, e: int, n: int)
    requires ValidTables(t) && 0 <= e < |t.enums| && ReadableEnum(t, e)
    requires OutEnum(t, e, n).Ok?
    requires WrittenAt(s, q, OutEnum(t, e, n).value) && BlanksBetween(s, p, q)
    ensures ReadEnumLeaf(t, s, Strtok(s, p), e) == Ok(Parsed(Scalar(ToUInt32(n)), q + |OutEnum(t, e, n).value|))
  {
    var cs := EnumFieldsOf(t, e);
    var j := EnumIndex(cs, ToUInt32(n)).value;
    var w := OutEnum(t, e, n).value;
    assert w == EnumName(t, e, j);
    PlainTokenIsWord(w);
    StrtokWord(s, p, q, w);
    assert TokText(s, Tok(q, |w|)) == w;
    var found := EnumNamed(t, e, w, 0);
    assert found.Some? && found.value == j;
  }

  // ---------------------------------------------------------------------
  // Integer lists, OID lists and bitmapsets

  /** `w` sits at `p` in `s`, one character after the other. */
  predicate TextAt(s: string, p: nat, w: string)
    decreases |w|
  {
    p + |w| <= |s| && (w == [] || (s[p] == w[0] && TextAt(s, p + 1, w[1..])))
  }

  /** `w` sits at `p`, a closing parenthesis after it, all before the first NUL. */
  predicate ClosedAt(s: string, p: nat, w: string)
  {
    '\0' in s && p + |w| < CStrLen(s) && TextAt(s, p, w) && s[p + |w|] == ')'
  }

  /** TextAt is the slice of `s` at `p` being `w`. */
  lemma {:induction false} TextAtSlice(s: string, p: nat, w: string)
    requires p + |w| <= |s|
    ensures TextAt(s, p, w) <==> s[p .. p + |w|] == w
    decreases |w|
  {
    if w != [] {
      TextAtSlice(s, p + 1, w[1..]);
      assert s[p .. p + |w|] == [s[p]] + s[p + 1 .. p + |w|];
      assert w == [w[0]] + w[1..];
    }
  }

  /** A concatenation sits at `p` when its parts sit one after the other. */
  lemma {:induction false} TextAtAppend(s: string, p: nat, a: string, b: string)
    ensures TextAt(s, p, a + b) <==> TextAt(s, p, a) && TextAt(s, p + |a|, b)
    decreases |a|
  {
    if a != [] {
      assert (a + b)[1..] == a[1..] + b;
      TextAtAppend(s, p + 1, a[1..], b);
    } else {
      assert a + b == b;
    }
  }

  /** A number written as an element of a list: a blank, its text, then the rest of the list. */
  lemma {:induction false} NumberElement(s: string, p: nat, v: int, rest: string)
    requires ClosedAt(s, p, " " + Decimal(v) + rest) && (rest != [] ==> rest[0] == ' ')
    ensures WrittenAt(s, p + 1, Decimal(v)) && IsBlank(s[p])
    ensures s[p + 1] != ')' && !IsChar(s, Tok(p + 1, |Decimal(v)|), ')')
    ensures ClosedAt(s, p + 1 + |Decimal(v)|, rest)
  {
    var d := Decimal(v);
    var e := p + 1 + |d|;
    TextAtAppend(s, p, " " + d, rest);
    TextAtAppend(s, p, " ", d);
    assert s[p] == ' ';
    if rest != [] {
      assert s[e] == rest[0];
    }
    DecimalIsWord(v);
    assert s[p + 1] == d[0];
    TextAtSlice(s, p + 1, d);
  }

  /** The token and the strtol value of a number written after a blank and followed by a delimiter. */
  lemma {:induction false} SignedElement(s: string, p: nat, v: int)
    requires WrittenAt(s, p + 1, Decimal(v)) && IsBlank(s[p]) && IsInt64(v)
    ensures Strtok(s, p) == Scan(Tok(p + 1, |Decimal(v)|), p + 1 + |Decimal(v)|)
    ensures StrtolAt(s, p + 1) == Strtol(v, p + 1 + |Decimal(v)|, false)
  {
    StrtokDecimal(s, p, p + 1, v);
    StrtolDecimal(s, p + 1, v);
  }

  /** The token and the strtoul value of a number written after a blank and followed by a delimiter. */
  lemma {:induction false} UnsignedElement(s: string, p: nat, v: int)
    requires WrittenAt(s, p + 1, Decimal(v)) && IsBlank(s[p]) && IsUInt64(v)
    ensures Strtok(s, p) == Scan(Tok(p + 1, |Decimal(v)|), p + 1 + |Decimal(v)|)
    ensures StrtoulAt(s, p + 1) == Strtol(v, p + 1 + |Decimal(v)|, false)
  {
    StrtokDecimal(s, p, p + 1, v);
    StrtolDecimal(s, p + 1, v);
  }

  /** The unsigned writer turns a 32-bit signed value into text that `(int) strtol` reads back. */
  lemma {:induction false} Int32OfUInt32(x: int)
    requires IsInt32(x)
    ensures ToInt32(ToUInt32(x)) == x
  {
    if x < 0 {
      assert ToUInt32(x) == x + 0x1_0000_0000;
    }
  }


  /** The list ends at a closing parenthesis. */
  lemma {:induction false} ClosedEnd(s: string, p: nat)
    requires ClosedAt(s, p, [])
    ensures Strtok(s, p) == Scan(Tok(p, 1), p + 1) && IsChar(s, Tok(p, 1), ')')
  {
    StrtokBracket(s, p, p);
  }


  /** The integer-list loop stops at the closing parenthesis with what it has read. */
  lemma {:induction false} ReadIntsEnd(s: string, p: nat, acc: seq<int>)
    requires ClosedAt(s, p, [])
    ensures ReadInts(s, p, acc) == Ok(Parsed(acc, p + 1))
  {
    ClosedEnd(s, p);
  }

  /** The OID-list loop stops at the closing parenthesis with what it has read. */
  lemma {:induction false} ReadOidsEnd(s: string, p: nat, acc: seq<int>)
    requires ClosedAt(s, p, [])
    ensures ReadOids(s, p, acc) == Ok(Parsed(acc, p + 1))
  {
    ClosedEnd(s, p);
  }

  /** The bitmapset loop stops at the closing parenthesis with what it has read. */
  lemma {:induction false} ReadMembersEnd(s: string, p: nat, acc: Option<set<nat>>)
    requires ClosedAt(s, p, []) && (acc.Some? ==> acc.value != {})
    ensures ReadMembers(s, p, acc) == Ok(Parsed(acc, p + 1))
  {
    ClosedEnd(s, p);
  }

  /** One turn of nodein_intlist's loop over a written unsigned number: `(int) strtol` of its text. */
  lemma {:induction false} ReadIntsStep(s: string, p: nat, acc: seq<int>, u: int)
    requires InText(s, p)
    requires WrittenAt(s, p + 1, Decimal(u)) && IsBlank(s[p]) && s[p + 1] != ')' && IsUInt32(u)
    ensures ReadInts(s, p, acc) == ReadInts(s, p + 1 + |Decimal(u)|, acc + [ToInt32(u)])
  {
    SignedElement(s, p, u);
  }

  /** One turn of nodein_oidlist's loop over a written OID: strtoul of its text. */
  lemma {:induction false} ReadOidsStep(s: string, p: nat, acc: seq<int>, u: int)
    requires InText(s, p)
    requires WrittenAt(s, p + 1, Decimal(u)) && IsBlank(s[p]) && s[p + 1] != ')' && IsUInt32(u)
    ensures ReadOids(s, p, acc) == ReadOids(s, p + 1 + |Decimal(u)|, acc + [u])
  {
    UnsignedElement(s, p, u);
  }

  /** One turn of the bitmapset loop over a written member: bms_add_member of `(int) strtol` of its text. */
  lemma {:induction false} ReadMembersStep(s: string, p: nat, acc: Option<set<nat>>, y: nat)
    requires InText(s, p) && (acc.Some? ==> acc.value != {}) && y <= INT32_MAX
    requires WrittenAt(s, p + 1, Decimal(y)) && IsBlank(s[p]) && !IsChar(s, Tok(p + 1, |Decimal(y)|), ')')
    ensures ReadMembers(s, p, acc) == ReadMembers(s, p + 1 + |Decimal(y)|, Some(Members(acc) + {y}))
  {
    SignedElement(s, p, y);
  }

  /** An element of a written integer list, its unsigned text `u`, is read back as `(int) u`; the rest follows. */
  lemma {:induction false} ReadIntsElement(s: string, p: nat, acc: seq<int>, u: int, rest: string)
    requires IsUInt32(u)
    requires ClosedAt(s, p, " " + Decimal(u) + rest) && (rest != [] ==> rest[0] == ' ')
    ensures ReadInts(s, p, acc) == ReadInts(s, p + 1 + |Decimal(u)|, acc + [ToInt32(u)])
    ensures ClosedAt(s, p + 1 + |Decimal(u)|, rest)
  {
    NumberElement(s, p, u, rest);
    ReadIntsStep(s, p, acc, u);
  }

  /** An element of a written OID list is read back; the rest of the list follows. */
  lemma {:induction false} ReadOidsElement(s: string, p: nat, acc: seq<int>, u: int, rest: string)
    requires IsUInt32(u)
    requires ClosedAt(s, p, " " + Decimal(u) + rest) && (rest != [] ==> rest[0] == ' ')
    ensures ReadOids(s, p, acc) == ReadOids(s, p + 1 + |Decimal(u)|, acc + [u])
    ensures ClosedAt(s, p + 1 + |Decimal(u)|, rest)
  {
    NumberElement(s, p, u, rest);
    ReadOidsStep(s, p, acc, u);
  }

  /** A member of a written bitmapset is added to the set; the rest of the set follows. */
  lemma {:induction false} ReadMembersElement(s: string, p: nat, acc: Option<set<nat>>, y: nat, rest: string)
    requires y <= INT32_MAX && (acc.Some? ==> acc.value != {})
    requires ClosedAt(s, p, " " + Decimal(y) + rest) && (rest != [] ==> rest[0] == ' ')
    ensures ReadMembers(s, p, acc) == ReadMembers(s, p + 1 + |Decimal(y)|, Some(Members(acc) + {y}))
    ensures ClosedAt(s, p + 1 + |Decimal(y)|, rest)
  {
    NumberElement(s, p, y, rest);
    ReadMembersStep(s, p, acc, y);
  }

  // ---------------------------------------------------------------------
  // Whole integer lists, OID lists and sets

  /** Every element of `xs` lies in [lo, hi]. */
  predicate AllWithin(xs: seq<int>, lo: int, hi: int)
    decreases |xs|
  {
    xs == [] || (lo <= xs[0] <= hi && AllWithin(xs[1..], lo, hi))
  }

  /** The text of a list is a blank, its first element's, then the rest's, which starts with a blank. */
  lemma {:induction false} WordListCons(xs: seq<int>)
    requires xs != []
    ensures WordList(xs) == " " + Decimal(ToUInt32(xs[0])) + WordList(xs[1..])
    ensures WordList(xs[1..]) != [] ==> WordList(xs[1..])[0] == ' '
  {
  }

  lemma {:induction false} ConsAppend(acc: seq<int>, xs: seq<int>)
    requires xs != []
    ensures acc + [xs[0]] + xs[1..] == acc + xs
  {
    assert xs == [xs[0]] + xs[1..];
  }

  /**
   * nodein_intlist reads back every element nodeout_list wrote for an
   * integer list, in order, and stops after the closing parenthesis.
   */
  lemma {:induction false} ReadIntsWritten(s: string, p: nat, acc: seq<int>, xs: seq<int>) returns (e: nat)
    requires AllWithin(xs, INT32_MIN, INT32_MAX)
    requires ClosedAt(s, p, WordList(xs))
    ensures ReadInts(s, p, acc) == Ok(Parsed(acc + xs, e))
    ensures e == p + |WordList(xs)| + 1
    decreases |xs|, 1
  {
    if xs == [] {
      ReadIntsEnd(s, p, acc);
      assert acc + xs == acc;
      e := p + 1;
    } else {
      e := ReadIntsCons(s, p, acc, xs);
    }
  }

  lemma {:induction false} ReadIntsCons(s: string, p: nat, acc: seq<int>, xs: seq<int>) returns (e: nat)
    requires xs != [] && AllWithin(xs, INT32_MIN, INT32_MAX)
    requires ClosedAt(s, p, WordList(xs))
    ensures ReadInts(s, p, acc) == Ok(Parsed(acc + xs, e))
    ensures e == p + |WordList(xs)| + 1
    decreases |xs|, 0
  {
    WordListCons(xs);
    var q := ReadIntsHead(s, p, acc, xs[0], WordList(xs[1..]));
    e := ReadIntsWritten(s, q, acc + [xs[0]], xs[1..]);
    ConsAppend(acc, xs);
  }

  /** The first element of a written integer list, read back; `q` is where the rest starts. */
  lemma {:induction false} ReadIntsHead(s: string, p: nat, acc: seq<int>, x: int, rest: string) returns (q: nat)
    requires IsInt32(x) && (rest != [] ==> rest[0] == ' ')
    requires ClosedAt(s, p, " " + Decimal(ToUInt32(x)) + rest)
    ensures ClosedAt(s, q, rest) && q + |rest| == p + |" " + Decimal(ToUInt32(x)) + rest|
    ensures ReadInts(s, p, acc) == ReadInts(s, q, acc + [x])
  {
    var u := ToUInt32(x);
    ReadIntsElement(s, p, acc, u, rest);
    Int32OfUInt32(x);
    q := p + 1 + |Decimal(u)|;
  }

  /** nodein_oidlist reads back every OID nodeout_list wrote, in order. */
  lemma {:induction false} ReadOidsWritten(s: string, p: nat, acc: seq<int>, xs: seq<int>) returns (e: nat)
    requires AllWithin(xs, 0, UINT32_MAX)
    requires ClosedAt(s, p, WordList(xs))
    ensures ReadOids(s, p, acc) == Ok(Parsed(acc + xs, e))
    ensures e == p + |WordList(xs)| + 1
    decreases |xs|, 1
  {
    if xs == [] {
      ReadOidsEnd(s, p, acc);
      assert acc + xs == acc;
      e := p + 1;
    } else {
      e := ReadOidsCons(s, p, acc, xs);
    }
  }

  lemma {:induction false} ReadOidsCons(s: string, p: nat, acc: seq<int>, xs: seq<int>) returns (e: nat)
    requires xs != [] && AllWithin(xs, 0, UINT32_MAX)
    requires ClosedAt(s, p, WordList(xs))
    ensures ReadOids(s, p, acc) == Ok(Parsed(acc + xs, e))
    ensures e == p + |WordList(xs)| + 1
    decreases |xs|, 0
  {
    WordListCons(xs);
    var q := ReadOidsHead(s, p, acc, xs[0], WordList(xs[1..]));
    e := ReadOidsWritten(s, q, acc + [xs[0]], xs[1..]);
    ConsAppend(acc, xs);
  }

  /** The first OID of a written list, read back; `q` is where the rest starts. */
  lemma {:induction false} ReadOidsHead(s: string, p: nat, acc: seq<int>, x: int, rest: string) returns (q: nat)
    requires IsUInt32(x) && (rest != [] ==> rest[0] == ' ')
    requires ClosedAt(s, p, " " + Decimal(ToUInt32(x)) + rest)
    ensures ClosedAt(s, q, rest) && q + |rest| == p + |" " + Decimal(ToUInt32(x)) + rest|
    ensures ReadOids(s, p, acc) == ReadOids(s, q, acc + [x])
  {
    ReadOidsElement(s, p, acc, x, rest);
    q := p + 1 + |Decimal(x)|;
  }

  /** The numbers a written list holds. */
  function Elems(xs: seq<nat>): set<nat>
  {
    if xs == [] then {} else {xs[0]} + Elems(xs[1..])
  }

  /**
   * The bitmapset loop adds every member nodeout_bitmapset wrote to what it
   * has read; with nothing read and no member written the set stays NULL.
   * `e` is the position after the closing parenthesis.
   */
  lemma {:induction false} ReadMembersWritten(s: string, p: nat, acc: Option<set<nat>>, m: set<nat>) returns (e: nat)
    requires acc.Some? ==> acc.value != {}
    requires forall x :: x in m ==> x <= INT32_MAX
    requires ClosedAt(s, p, MemberList(Ascending(m)))
    ensures ReadMembers(s, p, acc) == Ok(Parsed(if acc.None? && m == {} then None else Some(Members(acc) + m), e))
    ensures e == p + |MemberList(Ascending(m))| + 1
  {
    AscendingElems(m);
    e := ReadMemberSeqWritten(s, p, acc, Ascending(m));
  }

  /** The visiting order of a set holds its members, each within the bounds the set's are. */
  lemma {:induction false} AscendingElems(m: set<nat>)
    requires forall x :: x in m ==> x <= INT32_MAX
    ensures Elems(Ascending(m)) == m && (Ascending(m) == [] <==> m == {})
    ensures AllWithin(Ascending(m), 0, INT32_MAX)
    decreases |m|
  {
    if m != {} {
      var x := Least(m);
      var xs := Ascending(m);
      assert xs == [x] + Ascending(m - {x});
      assert xs[1..] == Ascending(m - {x});
      AscendingElems(m - {x});
      assert Elems(xs) == {x} + (m - {x});
    }
  }

  /** The bitmapset loop over any written list of members, in the order written. */
  lemma {:induction false} ReadMemberSeqWritten(s: string, p: nat, acc: Option<set<nat>>, xs: seq<nat>) returns (e: nat)
    requires acc.Some? ==> acc.value != {}
    requires AllWithin(xs, 0, INT32_MAX)
    requires ClosedAt(s, p, MemberList(xs))
    ensures ReadMembers(s, p, acc) == Ok(Parsed(if acc.None? && xs == [] then None else Some(Members(acc) + Elems(xs)), e))
    ensures e == p + |MemberList(xs)| + 1
    decreases |xs|, 1
  {
    if xs == [] {
      ReadMembersEnd(s, p, acc);
      assert acc.Some? ==> Members(acc) + Elems(xs) == acc.value;
      e := p + 1;
    } else {
      e := ReadMemberSeqCons(s, p, acc, xs);
    }
  }

  lemma {:induction false} ReadMemberSeqCons(s: string, p: nat, acc: Option<set<nat>>, xs: seq<nat>) returns (e: nat)
    requires xs != [] && (acc.Some? ==> acc.value != {})
    requires AllWithin(xs, 0, INT32_MAX)
    requires ClosedAt(s, p, MemberList(xs))
    ensures ReadMembers(s, p, acc) == Ok(Parsed(Some(Members(acc) + Elems(xs)), e))
    ensures e == p + |MemberList(xs)| + 1
    decreases |xs|, 0
  {
    MemberListCons(xs);
    var q := ReadMembersHead(s, p, acc, xs[0], MemberList(xs[1..]));
    e := ReadMemberSeqWritten(s, q, Some(Members(acc) + {xs[0]}), xs[1..]);
    ElemsCons(Members(acc), xs);
  }

  lemma {:induction false} ElemsCons(a: set<nat>, xs: seq<nat>)
    requires xs != []
    ensures a + {xs[0]} + Elems(xs[1..]) == a + Elems(xs)
  {
  }

  lemma {:induction false} MemberListCons(xs: seq<nat>)
    requires xs != []
    ensures MemberList(xs) == " " + Decimal(ToInt32(xs[0])) + MemberList(xs[1..])
    ensures MemberList(xs[1..]) != [] ==> MemberList(xs[1..])[0] == ' '
  {
  }

  /** A written member list is empty or starts with a blank. */
  lemma {:induction false} MemberListBlank(m: set<nat>)
    ensures MemberList(Ascending(m)) != [] ==> MemberList(Ascending(m))[0] == ' '
  {
  }

  /** The first member of a written list, read back; `q` is where the rest starts. */
  lemma {:induction false} ReadMembersHead(s: string, p: nat, acc: Option<set<nat>>, x: nat, rest: string) returns (q: nat)
    requires x <= INT32_MAX && (acc.Some? ==> acc.value != {}) && (rest != [] ==> rest[0] == ' ')
    requires ClosedAt(s, p, " " + Decimal(ToInt32(x)) + rest)
    ensures ClosedAt(s, q, rest) && q + |rest| == p + |" " + Decimal(ToInt32(x)) + rest|
    ensures ReadMembers(s, p, acc) == ReadMembers(s, q, Some(Members(acc) + {x}))
  {
    ReadMembersElement(s, p, acc, x, rest);
    q := p + 1 + |Decimal(x)|;
  }

  /**
   * nodein_bitmapset, its "(" read, reads back the set nodeout_bitmapset
   * wrote: "b", the members, ")". The empty set, written "(b)", reads back
   * as NULL.
   */
  lemma {:induction false} ReadBitmapWritten(s: string, p: nat, k: Tok, m: set<nat>) returns (e: nat)
    requires InText(s, p) && TokBefore(k, p) && IsChar(s, k, '(')
    requires forall x :: x in m ==> x <= INT32_MAX
    requires ClosedAt(s, p, "b" + MemberList(Ascending(m)))
    ensures ReadBitmap(s, p, k) == Ok(Parsed(if m == {} then None else Some(m), e))
    ensures e == p + 2 + |MemberList(Ascending(m))|
  {
    MemberListBlank(m);
    ReadBitmapTag(s, p, k, MemberList(Ascending(m)));
    e := ReadMembersWritten(s, p + 1, None, m);
    assert Members(None) + m == m;
  }

  /** The "b" that opens a written set is one token; the members follow it. */
  lemma {:induction false} ReadBitmapTag(s: string, p: nat, k: Tok, ml: string)
    requires InText(s, p) && TokBefore(k, p) && IsChar(s, k, '(')
    requires ClosedAt(s, p, "b" + ml) && (ml != [] ==> ml[0] == ' ')
    ensures ClosedAt(s, p + 1, ml)
    ensures ReadBitmap(s, p, k) == ReadMembers(s, p + 1, None)
  {
    TextAtAppend(s, p, "b", ml);
    TextAtSlice(s, p, "b");
    assert IsDelim(s[p + 1]) by {
      if ml != [] {
        TextAtSlice(s, p + 1, ml);
        assert s[p + 1] == s[p + 1 .. p + 1 + |ml|][0];
      }
    }
    PlainWord("b");
    StrtokWord(s, p, p, "b");
  }
}
