// The tokenizer of the node text format (nodein_strtok and
// nodein_debackslash in src/backend/nodes/readfuncs_new.c) as functions of
// the input text and a cursor position. The input is a C string: a
// sequence holding a NUL, of which the reader only looks at the part
// before the first NUL.

module NodeTokens {
  import opened CInt
  import opened NodeValues
  import opened PgString

  /** A token: NULL at end of input, else its first position and its length (0 for `<>`). */
  datatype Tok = NoToken | Tok(start: nat, len: nat)

  /** A token and where the cursor is left. */
  datatype Scan = Scan(tok: Tok, next: nat)

  /** The characters a normal token stops at. */
  predicate IsDelim(c: char) { c == '\0' || IsBlank(c) || IsBracket(c) }

  /** The cursor inside the C string held by `s`. */
  predicate InText(s: string, p: nat) { '\0' in s && p <= CStrLen(s) }

  /** The first position from `p` on that is not a blank. */
  function SkipBlanks(s: string, p: nat): (q: nat)
    requires InText(s, p)
    ensures p <= q <= CStrLen(s) && !IsBlank(s[q])
    decreases CStrLen(s) - p
  {
    if IsBlank(s[p]) then SkipBlanks(s, p + 1) else p
  }

  /** SkipBlanks skips nothing but blanks. */
  lemma {:induction false} SkippedBlanks(s: string, p: nat)
    requires InText(s, p)
    ensures forall k :: p <= k < SkipBlanks(s, p) ==> IsBlank(s[k])
    decreases CStrLen(s) - p
  {
    if IsBlank(s[p]) {
      SkippedBlanks(s, p + 1);
    }
  }

  /**
   * Where a normal token starting at `q` ends: at the first delimiter,
   * a backslash followed by a non-NUL character being skipped as a pair.
   */
  function WordEnd(s: string, q: nat): (e: nat)
    requires InText(s, q)
    ensures q <= e <= CStrLen(s) && IsDelim(s[e])
    ensures !IsDelim(s[q]) ==> q < e
    decreases CStrLen(s) - q
  {
    if IsDelim(s[q]) then q
    else if s[q] == '\\' && s[q + 1] != '\0' then WordEnd(s, q + 2)
    else WordEnd(s, q + 1)
  }

  /** A token read at `p` lies before `next`: its first character and its reported length. */
  predicate TokBefore(k: Tok, next: nat)
  {
    k.Tok? && k.start < next && k.start + k.len <= next
  }

  /** What a scan can be: the cursor inside the text, a token before it. */
  predicate ScanIn(s: string, r: Scan)
  {
    '\0' in s && r.next <= CStrLen(s) && (r.tok.Tok? ==> TokBefore(r.tok, r.next))
  }

  /** nodein_strtok at cursor `p`; StrtokFacts states what the token is. */
  function Strtok(s: string, p: nat): (r: Scan)
    requires InText(s, p)
    ensures ScanIn(s, r) && p <= r.next
    ensures r.tok.Tok? ==> p <= r.tok.start
  {
    var q := SkipBlanks(s, p);
    if s[q] == '\0' then Scan(NoToken, q)
    else
      var e := if IsBracket(s[q]) then q + 1 else WordEnd(s, q);
      var n := e - q;
      var empty := n == 2 && s[q] == '<' && s[q + 1] == '>';
      Scan(Tok(q, if empty then 0 else n), e)
  }

  /** What nodein_strtok reads: blanks skipped, then a bracket, a word up to a delimiter, or nothing. */
  lemma {:induction false} StrtokFacts(s: string, p: nat)
    requires InText(s, p)
    // at end of input: NULL, the cursor at the NUL, and nothing but blanks skipped
    ensures Strtok(s, p).tok.NoToken? ==>
      Strtok(s, p).next == CStrLen(s) && forall k :: p <= k < Strtok(s, p).next ==> IsBlank(s[k])
    // a token: blanks before it, and the cursor just past it
    ensures Strtok(s, p).tok.Tok? ==>
      var k := Strtok(s, p).tok;
      && k.start < Strtok(s, p).next && s[k.start] != '\0' && !IsBlank(s[k.start])
      && forall j :: p <= j < k.start ==> IsBlank(s[j])
    // a bracket is a token of its own
    ensures Strtok(s, p).tok.Tok? && IsBracket(s[Strtok(s, p).tok.start]) ==>
      Strtok(s, p).next == Strtok(s, p).tok.start + 1 && Strtok(s, p).tok.len == 1
    // any other token runs up to a delimiter
    ensures Strtok(s, p).tok.Tok? && !IsBracket(s[Strtok(s, p).tok.start]) ==>
      Strtok(s, p).next == WordEnd(s, Strtok(s, p).tok.start)
    // `<>` is reported with length 0, every other token with its own length
    ensures Strtok(s, p).tok.Tok? ==>
      (Strtok(s, p).tok.len == 0 <==> s[Strtok(s, p).tok.start .. Strtok(s, p).next] == "<>")
    ensures Strtok(s, p).tok.Tok? && Strtok(s, p).tok.len != 0 ==>
      Strtok(s, p).tok.start + Strtok(s, p).tok.len == Strtok(s, p).next
  {
    var q := SkipBlanks(s, p);
    SkippedBlanks(s, p);
    if s[q] != '\0' {
      var e := if IsBracket(s[q]) then q + 1 else WordEnd(s, q);
      if e - q == 2 {
        assert s[q..e] == [s[q], s[q + 1]];
      }
    }
  }

  /** The bytes of a token: the empty string for `<>`. */
  function TokText(s: string, k: Tok): (w: string)
    requires k.Tok? && k.start + k.len <= |s|
    ensures |w| == k.len
  {
    s[k.start .. k.start + k.len]
  }

  /** The token is the one character `c` (`token_length == 1 && token[0] == c`). */
  predicate IsChar(s: string, k: Tok, c: char)
  {
    k.Tok? && k.len == 1 && k.start < |s| && s[k.start] == c
  }

  /** nodein_debackslash: each backslash that has a character after it is dropped. */
  function Unescape(x: string): (r: string)
    ensures |r| <= |x|
  {
    if x == [] then []
    else if x[0] == '\\' && |x| > 1 then [x[1]] + Unescape(x[2..])
    else [x[0]] + Unescape(x[1..])
  }

  /** One step of the nodein_debackslash loop: the output so far, then the unit at `j`, then the rest. */
  lemma {:induction false} UnescapeStep(x: string, j: nat, r: string)
    requires j < |x| && Unescape(x) == r + Unescape(x[j..])
    ensures x[j] == '\\' && j + 1 < |x| ==> Unescape(x) == (r + [x[j + 1]]) + Unescape(x[j + 2..])
    ensures !(x[j] == '\\' && j + 1 < |x|) ==> Unescape(x) == (r + [x[j]]) + Unescape(x[j + 1..])
  {
    assert x[j..][1..] == x[j + 1..];
    if j + 1 < |x| {
      assert x[j..][2..] == x[j + 2..];
    }
  }

  /** Blanks from `p` to `q` are skipped as if the cursor started at `q`. */
  lemma {:induction false} SkipBlanksFrom(s: string, p: nat, q: nat)
    requires InText(s, q) && p <= q
    requires forall k :: p <= k < q ==> IsBlank(s[k])
    ensures SkipBlanks(s, p) == SkipBlanks(s, q)
    decreases q - p
  {
    if p < q {
      SkipBlanksFrom(s, p + 1, q);
    }
  }
}
