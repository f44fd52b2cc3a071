// Table-driven node deserialization (src/backend/nodes/readfuncs_new.c).
// The functions are the specification: what each routine yields and where
// it leaves the cursor, for the whole input text `s` and a cursor `p`.
// NodeInContext is the reader: a cursor over the text that the methods
// advance, each proved to yield its function's value and position. `loc`
// is restore_locations.

module NodeIn {
  import opened Wrappers
  import opened CInt
  import opened NodeInfo
  import opened NodeValues
  import opened PgString
  import opened NumUtils
  import opened NodeTokens

  /** A value read and the cursor after it. */
  datatype Parsed<T> = Parsed(value: T, next: nat)

  /** The value of a read, without the cursor. */
  function ValueOf<T>(r: Result<Parsed<T>>): Result<T>
  {
    match r
    case Ok(x) => Ok(x.value)
    case Err(f) => Err(f)
  }

  /** `token_length`: 0 for NULL and for `<>`. */
  function TokLen(k: Tok): nat
  {
    if k.NoToken? then 0 else k.len
  }

  /** `strncmp(token, lit, token_length) == 0` for a token without NUL and a NUL-free literal. */
  predicate PrefixOf(w: string, lit: string)
  {
    |w| <= |lit| && w == lit[..|w|]
  }

  // The messages of the errors the reader raises.
  const NoNodeClose := "did not find '}' at end of input node"
  const BadToken := "unrecognized token"
  const EmptyToken := "unexpected zero length token"
  const AtoiNull := "atoi of a NULL token"
  const TagOutOfRange := "tag outside ti_node_types"
  const BadTypeName := "unrecognized node type name"
  const TagPastEnd := "the tag is stored past a zero-sized node"
  const FieldTokenAssert := "Assert: field name token"
  const FieldLengthAssert := "Assert: field name length"
  const FieldNameAssert := "Assert: field name"
  const ElemUnset := "pgarr element left uninitialized"
  const NoEmbeddedOpen := "did not find '{' at the start of embedded node"
  const ElemSizeAssert := "Assert: element size is positive"
  const NoEmbeddedClose := "did not find '}' at the end of embedded node"
  const StructMismatch := "struct does not match its field table"
  const EmbeddedTooLarge := "embedded struct larger than its field"
  const UnterminatedList := "unterminated List structure"
  const BadInteger := "unrecognized integer"
  const BadOid := "unrecognized OID"
  const EnumNull := "a NULL token read as an enum"
  const DatumOutsideConst := "Datum outside a Const"
  const UnionOutsideValue := "union outside a Value"
  const IsAValueAssert := "Assert: IsAValue"
  const UnknownKind := "don't know how to read type"
  const NumberNull := "a NULL token parsed as a number"
  const FloatInput := "float input"
  const BoolNull := "a NULL token read as a bool"
  const TrueAssert := "Assert: true"
  const FalseAssert := "Assert: false"
  const BadEscape := "invalid escape"
  const BadCharLength := "invalid char length"
  const ExpectedEmpty := "expected <>"
  const MissingQuotes := "missing quotes"
  const StrdupNull := "pnstrdup of a NULL token"
  const BadString := "invalid string"
  const UnknownEnum := "unknown enum"
  const StrtoulNull := "strtoul of a NULL token"
  const NoDatumOpen := "expected \"[\" to start datum"
  const ByvalTooLong := "byval datum but length > 8"
  const NoDatumClose := "expected \"]\" to end datum"
  const IncompleteBitmapset := "incomplete Bitmapset structure"
  const UnterminatedBitmapset := "unterminated Bitmapset structure"
  const NegativeMember := "negative bitmapset member not allowed"

  /** The flags that keep a field out of the text. */
  const NotRead: Flags := TYPE_IN_IGNORE | TYPE_OUT_IGNORE

  // ---------------------------------------------------------------------
  // Nodes, fields and lists

  /** nodein_read with the token `k` already read; the cursor is past it. */
  function ReadAny(t: Tables, loc: bool, s: string, p: nat, k: Tok): (r: Result<Parsed<Option<Node>>>)
    requires ValidTables(t) && InText(s, p) && TokBefore(k, p)
    ensures r.Ok? ==> p <= r.value.next <= CStrLen(s)
    decreases CStrLen(s) - p, 6, 0
  {
    if k.len == 0 then Ok(Parsed(None, p))
    else if s[k.start] == '{' then
      var n :- ReadNode(t, loc, s, p);
      var close := Strtok(s, n.next);
      if !IsChar(s, close.tok, '}') then Err(BadInput(NoNodeClose))
      else Ok(Parsed(Some(n.value), close.next))
    else if s[k.start] == '(' then ReadList(t, loc, s, p)
    else Err(BadInput(BadToken))
  }

  /** stringToNodeNew: the first token, then nodein_read; no text at all is NULL. */
  function StringToNode(t: Tables, loc: bool, s: string): Result<Option<Node>>
    requires ValidTables(t) && '\0' in s
  {
    var first := Strtok(s, 0);
    if first.tok.NoToken? then Ok(None)
    else ValueOf(ReadAny(t, loc, s, first.next, first.tok))
  }

  /** The registered name accepts the name token: strncmp over the token's length. */
  predicate NameAccepts(s: string, k: Tok, name: string)
    requires k.Tok? && k.start + k.len <= |s|
  {
    PrefixOf(TokText(s, k), name)
  }

  /** nodein_read_node: after '{', the name and tag tokens, then the fields of a zeroed node. */
  function ReadNode(t: Tables, loc: bool, s: string, p: nat): (r: Result<Parsed<Node>>)
    requires ValidTables(t) && InText(s, p)
    ensures r.Ok? ==> p <= r.value.next <= CStrLen(s) && r.value.value.Struct?
    decreases CStrLen(s) - p, 5, 0
  {
    var name := Strtok(s, p);
    if TokLen(name.tok) == 0 then Err(BadInput(EmptyToken))
    else
      var id := Strtok(s, name.next);
      if id.tok.NoToken? then Err(Undefined(AtoiNull))
      else
        var tag := AtoiAt(s, id.tok.start);
        if !(0 <= tag < |t.nodeTypes|) then Err(Undefined(TagOutOfRange))
        else if !NameAccepts(s, name.tok, TypeName(t, tag)) then Err(BadInput(BadTypeName))
        else if t.nodeTypes[tag].size == 0 then Err(Undefined(TagPastEnd))
        else
          var fs :- ReadFields(t, loc, s, id.next, tag, NewNode(t, tag), 0);
          Ok(Parsed(Struct(fs.value), fs.next))
  }

  /**
   * nodein_fields from field `i` on, into the fields `vals` of the struct
   * being filled: a field flagged IN_IGNORE or OUT_IGNORE is skipped,
   * every other one is read after its ":name" token.
   */
  function ReadFields(t: Tables, loc: bool, s: string, p: nat, tag: int, vals: seq<Value>, i: nat)
    : (r: Result<Parsed<seq<Value>>>)
    requires ValidTables(t) && 0 <= tag < |t.nodeTypes| && InText(s, p)
    requires |vals| == |FieldsOf(t, tag)| && i <= |vals|
    ensures r.Ok? ==> p <= r.value.next <= CStrLen(s) && |r.value.value| == |vals|
    // fields before `i` are kept
    ensures r.Ok? ==> forall j :: 0 <= j < i ==> r.value.value[j] == vals[j]
    // the fields kept out of the text are never written
    ensures r.Ok? ==> forall j :: i <= j < |vals| && HasFlag(FieldsOf(t, tag)[j].flags, NotRead) ==>
      r.value.value[j] == vals[j]
    decreases CStrLen(s) - p, 4, |vals| - i
  {
    var infos := FieldsOf(t, tag);
    if i == |vals| then Ok(Parsed(vals, p))
    else if HasFlag(infos[i].flags, NotRead) then ReadFields(t, loc, s, p, tag, vals, i + 1)
    else
      var v :- ReadNamedField(t, loc, s, p, tag, vals, i);
      ReadFields(t, loc, s, v.next, tag, vals[i := v.value], i + 1)
  }

  /** One field of the nodein_fields loop: its ":name" token, checked against the table, then its value. */
  function ReadNamedField(t: Tables, loc: bool, s: string, p: nat, tag: int, vals: seq<Value>, i: nat)
    : (r: Result<Parsed<Value>>)
    requires ValidTables(t) && 0 <= tag < |t.nodeTypes| && InText(s, p)
    requires |vals| == |FieldsOf(t, tag)| && i < |vals|
    ensures r.Ok? ==> p <= r.value.next <= CStrLen(s)
    decreases CStrLen(s) - p, 3, 1
  {
    var f := FieldsOf(t, tag)[i];
    var name := Strtok(s, p);
    var bad := FieldNameFault(s, name.tok, StringAt(t, f.name));
    if bad.Some? then Err(Abort(bad.value))
    else ReadField(t, loc, s, name.next, tag, Some(vals), f, vals[i])
  }

  /**
   * The assertions nodein_fields makes on a ":name" token, in order: longer
   * than one character, then as long as ':' and the field's name, then
   * equal to it after the first character, which is not looked at.
   */
  function FieldNameFault(s: string, k: Tok, field: string): (r: Option<string>)
    requires k.Tok? ==> k.start + k.len <= |s|
    ensures r.None? <==> k.Tok? && 1 < k.len == |field| + 1 && s[k.start + 1 .. k.start + k.len] == field
    ensures r.Some? ==> r.value in {FieldTokenAssert, FieldLengthAssert, FieldNameAssert}
  {
    if TokLen(k) <= 1 then Some(FieldTokenAssert)
    else if k.len - 1 != |field| then Some(FieldLengthAssert)
    else if s[k.start + 1 .. k.start + k.len] != field then Some(FieldNameAssert)
    else None
  }

  /** The value of a field whose token left it alone: its current one; an array element is left unset. */
  function Unchanged(vals: Option<seq<Value>>, cur: Value, q: nat): Result<Parsed<Value>>
  {
    if vals.None? then Err(Undefined(ElemUnset)) else Ok(Parsed(cur, q))
  }

  /**
   * nodein_field for field `f` of a struct of type `tag` whose fields read
   * so far are `vals` (None for an element of a pgarr field) and whose
   * current value is `cur`: the kinds that recurse, then the others.
   */
  function ReadField(t: Tables, loc: bool, s: string, p: nat, tag: int, vals: Option<seq<Value>>,
                     f: TIStructField, cur: Value): (r: Result<Parsed<Value>>)
    requires ValidTables(t) && 0 <= tag < |t.nodeTypes| && ValidField(t, f) && InText(s, p)
    requires vals.Some? ==> |vals.value| == |FieldsOf(t, tag)|
    ensures r.Ok? ==> p <= r.value.next <= CStrLen(s)
    decreases CStrLen(s) - p, 2, 0
  {
    var k := if vals.None? then f.elemKnownType else f.knownType;
    var tk := Strtok(s, p);
    if k == KNode then
      if !IsChar(s, tk.tok, '{') then Err(BadInput(NoEmbeddedOpen))
      else ReadEmbedded(t, loc, s, tk.next, f, cur)
    else if k == KPPgArr then
      if TokLen(tk.tok) == 0 then Ok(Parsed(cur, tk.next))
      else if f.elemSize == 0 then Err(Abort(ElemSizeAssert))
      else
        var n := ToUInt32(StrtoulAt(s, tk.tok.start).value);
        var es :- ReadElems(t, loc, s, tk.next, tag, f, n, []);
        Ok(Parsed(Arr(ArrOf(es.value)), es.next))
    else if k == KPNode then
      if TokLen(tk.tok) == 0 then Unchanged(vals, cur, tk.next)
      else
        var n :- ReadAny(t, loc, s, tk.next, tk.tok);
        Ok(Parsed(NodePtr(n.value), n.next))
    else ReadLeaf(t, loc, s, tk, tag, vals, f, k, cur)
  }

  /**
   * KNOWN_TYPE_NODE after its '{': the name and tag tokens, then the fields
   * of the declared type at offset 0 (sharing the enclosing node's tag)
   * or of the type the tag names elsewhere, then '}'.
   */
  function ReadEmbedded(t: Tables, loc: bool, s: string, p: nat, f: TIStructField, cur: Value)
    : (r: Result<Parsed<Value>>)
    requires ValidTables(t) && ValidField(t, f) && f.knownType == KNode && InText(s, p)
    ensures r.Ok? ==> p <= r.value.next <= CStrLen(s) && r.value.value.Embedded?
    decreases CStrLen(s) - p, 5, 0
  {
    var name := Strtok(s, p);
    var id := Strtok(s, name.next);
    var st :- EmbeddedStart(t, s, f, id.tok, cur);
    var (sub, start) := st;
    var fs :- ReadFields(t, loc, s, id.next, sub, start, 0);
    var close := Strtok(s, fs.next);
    if !IsChar(s, close.tok, '}') then Err(BadInput(NoEmbeddedClose))
    else Ok(Parsed(Embedded(fs.value), close.next))
  }

  /**
   * The type of an embedded struct and the fields it starts from: at
   * offset 0 the declared type and the fields already there, elsewhere
   * the type its tag token names, zeroed.
   */
  function EmbeddedStart(t: Tables, s: string, f: TIStructField, id: Tok, cur: Value)
    : (r: Result<(int, seq<Value>)>)
    requires ValidTables(t) && ValidField(t, f) && f.knownType == KNode && '\0' in s
    requires id.Tok? ==> id.start <= CStrLen(s)
    ensures r.Ok? ==> 0 <= r.value.0 < |t.nodeTypes| && |r.value.1| == |FieldsOf(t, r.value.0)|
  {
    if f.offset == 0 then
      if cur.Embedded? && |cur.fields| == |FieldsOf(t, f.typeId)| then Ok((f.typeId, cur.fields))
      else Err(SchemaError(StructMismatch))
    else if id.NoToken? then Err(Undefined(AtoiNull))
    else
      var sub := AtoiAt(s, id.start);
      if !(0 <= sub < |t.nodeTypes|) then Err(Undefined(TagOutOfRange))
      else if t.nodeTypes[sub].size > t.nodeTypes[f.typeId].size then
        Err(Undefined(EmbeddedTooLarge))
      else Ok((sub, NewNode(t, sub)))
  }

  /** The KNOWN_TYPE_P_PGARR loop: `n` more elements after `acc`. */
  function ReadElems(t: Tables, loc: bool, s: string, p: nat, tag: int, f: TIStructField, n: nat, acc: seq<Value>)
    : (r: Result<Parsed<seq<Value>>>)
    requires ValidTables(t) && 0 <= tag < |t.nodeTypes| && ValidField(t, f) && InText(s, p)
    ensures r.Ok? ==> p <= r.value.next <= CStrLen(s)
    ensures r.Ok? ==> |r.value.value| == |acc| + n
    decreases CStrLen(s) - p, 3, n, 1
  {
    if n == 0 then Ok(Parsed(acc, p)) else ReadElemThen(t, loc, s, p, tag, f, n, acc)
  }

  /** One pass of the pgarr loop: an element, then the remaining `n - 1`. */
  function ReadElemThen(t: Tables, loc: bool, s: string, p: nat, tag: int, f: TIStructField, n: nat, acc: seq<Value>)
    : (r: Result<Parsed<seq<Value>>>)
    requires ValidTables(t) && 0 <= tag < |t.nodeTypes| && ValidField(t, f) && InText(s, p) && n > 0
    ensures r.Ok? ==> p <= r.value.next <= CStrLen(s)
    ensures r.Ok? ==> |r.value.value| == |acc| + n
    decreases CStrLen(s) - p, 3, n, 0
  {
    var x :- ReadElem(t, loc, s, p, tag, f);
    ReadElems(t, loc, s, x.next, tag, f, n - 1, acc + [x.value])
  }

  /** One element of a pgarr: the field's element kind read with no struct around it and no value yet. */
  function ReadElem(t: Tables, loc: bool, s: string, p: nat, tag: int, f: TIStructField): (r: Result<Parsed<Value>>)
    requires ValidTables(t) && 0 <= tag < |t.nodeTypes| && ValidField(t, f) && InText(s, p)
    ensures r.Ok? ==> p <= r.value.next <= CStrLen(s)
    decreases CStrLen(s) - p, 3, 0
  {
    ReadField(t, loc, s, p, tag, None, f, Raw([]))
  }

  /** nodein_list after '(': an integer list, an OID list, or a list of nodes; no element is NIL. */
  function ReadList(t: Tables, loc: bool, s: string, p: nat): (r: Result<Parsed<Option<Node>>>)
    requires ValidTables(t) && InText(s, p)
    ensures r.Ok? ==> p <= r.value.next <= CStrLen(s)
    decreases CStrLen(s) - p, 5, 0
  {
    var first := Strtok(s, p);
    if first.tok.NoToken? then Err(BadInput(UnterminatedList))
    else if IsChar(s, first.tok, 'i') then
      var xs :- ReadInts(s, first.next, []);
      Ok(Parsed(if xs.value == [] then None else Some(IntList(xs.value)), xs.next))
    else if IsChar(s, first.tok, 'o') then
      var xs :- ReadOids(s, first.next, []);
      Ok(Parsed(if xs.value == [] then None else Some(OidList(xs.value)), xs.next))
    else
      var cs :- ReadCells(t, loc, s, first.next, first.tok, []);
      Ok(Parsed(if cs.value == [] then None else Some(List(cs.value)), cs.next))
  }

  /** The generic list loop with its next token `k` read: elements up to ')'. */
  function ReadCells(t: Tables, loc: bool, s: string, p: nat, k: Tok, acc: seq<Option<Node>>)
    : (r: Result<Parsed<seq<Option<Node>>>>)
    requires ValidTables(t) && InText(s, p) && TokBefore(k, p)
    ensures r.Ok? ==> p <= r.value.next <= CStrLen(s)
    decreases CStrLen(s) - p, 7, 0
  {
    if s[k.start] == ')' then Ok(Parsed(acc, p))
    else
      var c :- ReadAny(t, loc, s, p, k);
      var next := Strtok(s, c.next);
      if next.tok.NoToken? then Err(BadInput(UnterminatedList))
      else ReadCells(t, loc, s, next.next, next.tok, acc + [c.value])
  }

  /** The token is all of a decimal number as strtol reads it (`endptr == token + token_length`). */
  predicate WholeNumber(s: string, k: Tok, stop: nat)
    requires k.Tok?
  {
    stop == k.start + k.len
  }

  /** The integer-list loop: `(int) strtol` of each token up to ')'. */
  function ReadInts(s: string, p: nat, acc: seq<int>): (r: Result<Parsed<seq<int>>>)
    requires InText(s, p)
    ensures r.Ok? ==> p <= r.value.next <= CStrLen(s)
    decreases CStrLen(s) - p, 1
  {
    ReadIntsFrom(s, p, Strtok(s, p), acc)
  }

  /** One turn of the integer-list loop, its token `m` read from `p`. */
  function ReadIntsFrom(s: string, p: nat, m: Scan, acc: seq<int>): (r: Result<Parsed<seq<int>>>)
    requires InText(s, p) && m == Strtok(s, p)
    ensures r.Ok? ==> p <= r.value.next <= CStrLen(s)
    decreases CStrLen(s) - p, 0
  {
    if m.tok.NoToken? then Err(BadInput(UnterminatedList))
    else if s[m.tok.start] == ')' then Ok(Parsed(acc, m.next))
    else
      var x := StrtolAt(s, m.tok.start);
      if !WholeNumber(s, m.tok, x.stop) then Err(BadInput(BadInteger))
      else ReadInts(s, m.next, acc + [ToInt32(x.value)])
  }

  /** The OID-list loop: `(Oid) strtoul` of each token up to ')'. */
  function ReadOids(s: string, p: nat, acc: seq<int>): (r: Result<Parsed<seq<int>>>)
    requires InText(s, p)
    ensures r.Ok? ==> p <= r.value.next <= CStrLen(s)
    decreases CStrLen(s) - p, 1
  {
    ReadOidsFrom(s, p, Strtok(s, p), acc)
  }

  /** One turn of the OID-list loop, its token `m` read from `p`. */
  function ReadOidsFrom(s: string, p: nat, m: Scan, acc: seq<int>): (r: Result<Parsed<seq<int>>>)
    requires InText(s, p) && m == Strtok(s, p)
    ensures r.Ok? ==> p <= r.value.next <= CStrLen(s)
    decreases CStrLen(s) - p, 0
  {
    if m.tok.NoToken? then Err(BadInput(UnterminatedList))
    else if s[m.tok.start] == ')' then Ok(Parsed(acc, m.next))
    else
      var x := StrtoulAt(s, m.tok.start);
      if !WholeNumber(s, m.tok, x.stop) then Err(BadInput(BadOid))
      else ReadOids(s, m.next, acc + [ToUInt32(x.value)])
  }

  /**
   * nodein_read's dispatch on the token it read: a zero-length token (NULL
   * or "<>") is NULL, '{' is a node that must be followed by '}', '(' a
   * list, and anything else an error.
   */
  lemma {:induction false} ReadDispatch(t: Tables, loc: bool, s: string, p: nat, k: Tok)
    requires ValidTables(t) && InText(s, p) && TokBefore(k, p)
    ensures k.len == 0 ==> ReadAny(t, loc, s, p, k) == Ok(Parsed(None, p))
    ensures k.len != 0 && s[k.start] != '{' && s[k.start] != '(' ==>
              ReadAny(t, loc, s, p, k) == Err(BadInput(BadToken))
    ensures k.len != 0 && s[k.start] == '{' && ReadAny(t, loc, s, p, k).Ok? ==>
              var n := ReadNode(t, loc, s, p);
              n.Ok? && IsChar(s, Strtok(s, n.value.next).tok, '}')
              && ReadAny(t, loc, s, p, k) == Ok(Parsed(Some(n.value.value), Strtok(s, n.value.next).next))
  {
  }

  /**
   * A node read after '{': its name token must be accepted by the name
   * registered for the tag token that follows, and the result is the
   * zeroed node of that type with every field read except those kept out
   * of the text.
   */
  lemma {:induction false} ReadNodeHeader(t: Tables, loc: bool, s: string, p: nat)
    requires ValidTables(t) && InText(s, p)
    ensures ReadNode(t, loc, s, p).Ok? ==>
              var name := Strtok(s, p);
              var id := Strtok(s, name.next);
              name.tok.Tok? && name.tok.len > 0 && id.tok.Tok?
              && var tag := AtoiAt(s, id.tok.start);
              0 <= tag < |t.nodeTypes| && NameAccepts(s, name.tok, TypeName(t, tag))
              && var fs := ReadNode(t, loc, s, p).value.value.fields;
              |fs| == |FieldsOf(t, tag)|
              && forall j :: 0 <= j < |fs| && HasFlag(FieldsOf(t, tag)[j].flags, NotRead) ==> fs[j] == NewNode(t, tag)[j]
    ensures var name := Strtok(s, p);
            var id := Strtok(s, name.next);
            (name.tok.Tok? && name.tok.len > 0 && id.tok.Tok?
             && 0 <= AtoiAt(s, id.tok.start) < |t.nodeTypes|
             && !NameAccepts(s, name.tok, TypeName(t, AtoiAt(s, id.tok.start)))) ==>
            ReadNode(t, loc, s, p) == Err(BadInput(BadTypeName))
  {
  }

  /**
   * The integer and OID list loops: running out of tokens before ')' is an
   * unterminated list, and an element token that strtol or strtoul does
   * not consume entirely is an error.
   */
  lemma {:induction false} NumberListErrors(s: string, p: nat, acc: seq<int>)
    requires InText(s, p)
    ensures var m := Strtok(s, p);
            m.tok.NoToken? ==> ReadInts(s, p, acc) == Err(BadInput(UnterminatedList))
                               && ReadOids(s, p, acc) == Err(BadInput(UnterminatedList))
    ensures var m := Strtok(s, p);
            m.tok.Tok? && s[m.tok.start] != ')' && !WholeNumber(s, m.tok, StrtolAt(s, m.tok.start).stop) ==>
              ReadInts(s, p, acc) == Err(BadInput(BadInteger))
    ensures var m := Strtok(s, p);
            m.tok.Tok? && s[m.tok.start] != ')' && !WholeNumber(s, m.tok, StrtoulAt(s, m.tok.start).stop) ==>
              ReadOids(s, p, acc) == Err(BadInput(BadOid))
  {
  }

  // ---------------------------------------------------------------------
  // The kinds that do not recurse

  /** The switch of nodein_field for every kind but the embedded struct, the pgarr and the node pointer. */
  function ReadLeaf(t: Tables, loc: bool, s: string, tk: Scan, tag: int, vals: Option<seq<Value>>,
                    f: TIStructField, k: KnownType, cur: Value): (r: Result<Parsed<Value>>)
    requires ValidTables(t) && 0 <= tag < |t.nodeTypes| && ValidField(t, f) && ScanIn(s, tk)
    requires vals.Some? ==> |vals.value| == |FieldsOf(t, tag)|
    requires k == if vals.None? then f.elemKnownType else f.knownType
    ensures r.Ok? ==> tk.next <= r.value.next <= CStrLen(s)
  {
    if IsNumberKind(k) then ReadNumber(loc, s, tk, k)
    else if k == KBool then ReadBool(s, tk)
    else if k == KChar then ReadChar(s, tk)
    else if IsEnumLike(k) then ReadEnumLeaf(t, s, tk, f.typeId)
    else ReadOtherLeaf(t, s, tk, tag, vals, k, cur)
  }

  /** The enum-like kinds: NULL is an error, any other token must name a constant of enum `e`. */
  function ReadEnumLeaf(t: Tables, s: string, tk: Scan, e: int): (r: Result<Parsed<Value>>)
    requires ValidTables(t) && 0 <= e < |t.enums| && ScanIn(s, tk)
    ensures r.Ok? <==> tk.tok.Tok? && EnumNamed(t, e, TokText(s, tk.tok), 0).Some?
    ensures r.Ok? ==> r.value.next == tk.next
    ensures r.Ok? ==> r.value.value == Scalar(EnumFieldsOf(t, e)[EnumNamed(t, e, TokText(s, tk.tok), 0).value].value)
  {
    if tk.tok.NoToken? then Err(Undefined(EnumNull))
    else
      var x :- ReadEnum(t, e, TokText(s, tk.tok));
      Ok(Parsed(Scalar(x), tk.next))
  }

  /** The rest of that switch: the kinds that need the struct being read, or a NULL pointer for `<>`. */
  function ReadOtherLeaf(t: Tables, s: string, tk: Scan, tag: int, vals: Option<seq<Value>>,
                         k: KnownType, cur: Value): (r: Result<Parsed<Value>>)
    requires ValidTables(t) && 0 <= tag < |t.nodeTypes| && ScanIn(s, tk)
    requires vals.Some? ==> |vals.value| == |FieldsOf(t, tag)|
    ensures r.Ok? ==> tk.next <= r.value.next <= CStrLen(s)
  {
    if k == KDatum then
      if vals.None? then Err(Undefined(DatumOutsideConst))
      else ReadConstValue(t, s, tk, tag, vals.value, cur)
    else if k == KValueUnion then
      if vals.None? then Err(Undefined(UnionOutsideValue))
      else if TagWord(vals.value).None? || !IsValueTag(t, TagWord(vals.value).value) then
        Err(Abort(IsAValueAssert))
      else ReadUnion(t, s, tk, TagWord(vals.value).value, cur)
    else if k == KPChar then
      if TokLen(tk.tok) == 0 then Unchanged(vals, cur, tk.next) else ReadString(s, tk)
    else if k == KPBitmapset then
      if TokLen(tk.tok) == 0 then Unchanged(vals, cur, tk.next)
      else
        var m :- ReadBitmap(s, tk.next, tk.tok);
        Ok(Parsed(Bitmap(m.value), m.next))
    else Err(Abort(UnknownKind))
  }

  /** The kinds read as a C integer. */
  predicate IsIntegerKind(k: KnownType)
  {
    k == KUInt16 || k == KOpFuncId || k == KOid || k == KUInt32 ||
    k == KUInt64 || k == KInt16 || k == KInt32 || k == KInt64
  }

  /** The kinds nodein_field reads as a number. */
  predicate IsNumberKind(k: KnownType)
  {
    IsIntegerKind(k) || k == KLocation || k == KFloat32 || k == KFloat64
  }

  /** The numeric kinds: integers, a location (-1 unless locations are restored), floats. */
  function ReadNumber(loc: bool, s: string, tk: Scan, k: KnownType): (r: Result<Parsed<Value>>)
    requires ScanIn(s, tk)
    ensures r.Ok? ==> r.value.next == tk.next && r.value.value.Scalar?
    ensures r.Ok? && IsIntegerKind(k) ==> InRangeOf(k, r.value.value.n)
  {
    var tok := tk.tok;
    if IsIntegerKind(k) then
      if tok.NoToken? then Err(Undefined(NumberNull))
      else
        var x :- ReadInteger(s, tok, k);
        Ok(Parsed(Scalar(x), tk.next))
    else if k == KLocation then
      if !loc then Ok(Parsed(Scalar(-1), tk.next))
      else if tok.NoToken? then Err(Undefined(AtoiNull))
      else Ok(Parsed(Scalar(AtoiAt(s, tok.start)), tk.next))
    else Err(Unmodelled(FloatInput))
  }

  /** KNOWN_TYPE_BOOL: a token starting with 't' must be a prefix of "true", any other of "false". */
  function ReadBool(s: string, tk: Scan): (r: Result<Parsed<Value>>)
    requires ScanIn(s, tk)
    ensures r.Ok? ==> r.value.next == tk.next && r.value.value.Bool?
  {
    var tok := tk.tok;
    if tok.NoToken? then Err(Undefined(BoolNull))
    else if s[tok.start] == 't' then
      if PrefixOf(TokText(s, tok), "true") then Ok(Parsed(Bool(true), tk.next)) else Err(Abort(TrueAssert))
    else if PrefixOf(TokText(s, tok), "false") then Ok(Parsed(Bool(false), tk.next)) else Err(Abort(FalseAssert))
  }

  /** KNOWN_TYPE_CHAR: `<>` is NUL, a two-byte token is a backslash and the character, else one byte. */
  function ReadChar(s: string, tk: Scan): (r: Result<Parsed<Value>>)
    requires ScanIn(s, tk)
    ensures r.Ok? ==> r.value.next == tk.next && r.value.value.Char?
  {
    var tok := tk.tok;
    if TokLen(tok) == 0 then Ok(Parsed(Char('\0'), tk.next))
    else if tok.len == 2 then
      if s[tok.start] != '\\' then Err(BadInput(BadEscape)) else Ok(Parsed(Char(s[tok.start + 1]), tk.next))
    else if tok.len == 1 then Ok(Parsed(Char(s[tok.start]), tk.next))
    else Err(BadInput(BadCharLength))
  }

  /** KNOWN_TYPE_DATUM of a Const: `<>` when constisnull, else the datum as constbyval says. */
  function ReadConstValue(t: Tables, s: string, tk: Scan, tag: int, vals: seq<Value>, cur: Value)
    : (r: Result<Parsed<Value>>)
    requires ValidTables(t) && 0 <= tag < |t.nodeTypes| && ScanIn(s, tk)
    requires |vals| == |FieldsOf(t, tag)|
    ensures r.Ok? ==> tk.next <= r.value.next <= CStrLen(s)
  {
    var isnull :- BoolField(t, FieldsOf(t, tag), vals, "constisnull");
    if isnull then
      if tk.tok.NoToken? || tk.tok.len != 0 then Err(BadInput(ExpectedEmpty)) else Ok(Parsed(cur, tk.next))
    else
      var byval :- BoolField(t, FieldsOf(t, tag), vals, "constbyval");
      ReadDatum(s, tk, byval)
  }

  /** KNOWN_TYPE_P_CHAR after the `<>` case: a quoted token, unescaped between its quotes. */
  function ReadString(s: string, tk: Scan): (r: Result<Parsed<Value>>)
    requires ScanIn(s, tk)
    ensures r.Ok? ==> r.value.next == tk.next && r.value.value.Str? && r.value.value.s.Some?
  {
    var tok := tk.tok;
    if TokLen(tok) < 2 || s[tok.start] != '"' || s[tok.start + tok.len - 1] != '"' then
      Err(BadInput(MissingQuotes))
    else Ok(Parsed(Str(Some(Unescape(s[tok.start + 1 .. tok.start + tok.len - 1]))), tk.next))
  }

  /** The integer kinds: the libc or PostgreSQL conversion, cast to the field's C type. */
  function ReadInteger(s: string, tok: Tok, k: KnownType): (r: Result<int>)
    requires '\0' in s && TokBefore(tok, CStrLen(s) + 1)
    requires IsIntegerKind(k)
    ensures r.Ok? ==> InRangeOf(k, r.value)
  {
    if k == KUInt16 then Ok(ToUInt16(StrtoulAt(s, tok.start).value))
    else if k == KOpFuncId || k == KOid || k == KUInt32 then Ok(ToUInt32(StrtoulAt(s, tok.start).value))
    else if k == KUInt64 then
      var w := TokText(s, tok) + ['\0'];
      Ok(StrtoulAt(w, 0).value)
    else if k == KInt16 then Ok(ToInt16(AtoiAt(s, tok.start)))
    else if k == KInt32 then Ok(AtoiAt(s, tok.start))
    else StrToIntSpec(TokText(s, tok) + ['\0'], INT64_MIN, "bigint")
  }

  /** nodein_value_union: the union as the Value node's tag says. */
  function ReadUnion(t: Tables, s: string, tk: Scan, tag: int, cur: Value): (r: Result<Parsed<Value>>)
    requires ScanIn(s, tk) && IsValueTag(t, tag)
    ensures r.Ok? ==> r.value.next == tk.next
  {
    var tok := tk.tok;
    if tag == t.tags.TNull then Ok(Parsed(cur, tk.next))
    else if tag == t.tags.TInteger then
      if tok.NoToken? then Err(Undefined(AtoiNull))
      else Ok(Parsed(Union(IVal(AtoiAt(s, tok.start))), tk.next))
    else if tag == t.tags.TFloat || tag == t.tags.TBitString then
      if tok.NoToken? then Err(Undefined(StrdupNull))
      else Ok(Parsed(Union(SVal(Some(TokText(s, tok)))), tk.next))
    else if TokLen(tok) < 2 || s[tok.start] != '"' || s[tok.start + tok.len - 1] != '"' then
      Err(BadInput(BadString))
    else Ok(Parsed(Union(SVal(Some(Unescape(s[tok.start + 1 .. tok.start + tok.len - 1])))), tk.next))
  }

  /** The name of constant `j` of enum `e`. */
  function EnumName(t: Tables, e: int, j: nat): string
    requires ValidTables(t) && 0 <= e < |t.enums| && j < |EnumFieldsOf(t, e)|
  {
    StringAt(t, EnumFieldsOf(t, e)[j].name)
  }

  /** The position of the first constant of enum `e`, from `i` on, whose name is `w`. */
  function EnumNamed(t: Tables, e: int, w: string, i: nat): (r: Option<nat>)
    requires ValidTables(t) && 0 <= e < |t.enums| && i <= |EnumFieldsOf(t, e)|
    ensures r.Some? ==> i <= r.value < |EnumFieldsOf(t, e)| && EnumName(t, e, r.value) == w
    ensures r.Some? ==> forall j :: i <= j < r.value ==> EnumName(t, e, j) != w
    ensures r.None? ==> forall j :: i <= j < |EnumFieldsOf(t, e)| ==> EnumName(t, e, j) != w
    decreases |EnumFieldsOf(t, e)| - i
  {
    if i == |EnumFieldsOf(t, e)| then None
    else if EnumName(t, e, i) == w then Some(i)
    else EnumNamed(t, e, w, i + 1)
  }

  /** nodein_enum: the value of the first constant of enum `e` named exactly the token. */
  function ReadEnum(t: Tables, e: int, w: string): (r: Result<int>)
    requires ValidTables(t) && 0 <= e < |t.enums|
    ensures r.Err? <==> EnumNamed(t, e, w, 0).None?
    ensures r.Ok? ==> r.value == EnumFieldsOf(t, e)[EnumNamed(t, e, w, 0).value].value && IsUInt32(r.value)
  {
    match EnumNamed(t, e, w, 0)
    case None => Err(BadInput(UnknownEnum))
    case Some(j) => Ok(EnumFieldsOf(t, e)[j].value)
  }

  /** nodein_datum with the length token `tk` read: "[", the bytes, "]". */
  function ReadDatum(s: string, tk: Scan, byval: bool): (r: Result<Parsed<Value>>)
    requires ScanIn(s, tk)
    ensures r.Ok? ==> tk.next <= r.value.next <= CStrLen(s) && r.value.value.DatumWord?
    ensures r.Ok? ==> SignedBytes(r.value.value.bytes)
    ensures r.Ok? && byval ==> |r.value.value.bytes| == 8
  {
    if tk.tok.NoToken? then Err(Undefined(StrtoulNull))
    else
      var length := ToUInt32(StrtoulAt(s, tk.tok.start).value);
      var open := Strtok(s, tk.next);
      if !IsChar(s, open.tok, '[') then Err(BadInput(NoDatumOpen))
      else
        var bytes :-
          if byval then
            if length > 8 then Err(BadInput(ByvalTooLong))
            else ReadBytes(s, open.next, 8, [])
          else if length == 0 then Ok(Parsed([], open.next))
          else ReadBytes(s, open.next, length, []);
        var close := Strtok(s, bytes.next);
        if !IsChar(s, close.tok, ']') then Err(BadInput(NoDatumClose))
        else Ok(Parsed(DatumWord(bytes.value), close.next))
  }

  /** The byte loops of nodein_datum: `n` more tokens, each `(char) atoi`. */
  function ReadBytes(s: string, p: nat, n: nat, acc: seq<int>): (r: Result<Parsed<seq<int>>>)
    requires InText(s, p) && SignedBytes(acc)
    ensures r.Ok? ==> p <= r.value.next <= CStrLen(s)
    ensures r.Ok? ==> |r.value.value| == |acc| + n && SignedBytes(r.value.value)
    decreases n, 1
  {
    if n == 0 then Ok(Parsed(acc, p)) else ReadByteThen(s, p, n, acc)
  }

  /** One pass of a byte loop: `(char) atoi` of the next token, then the remaining `n - 1`. */
  function ReadByteThen(s: string, p: nat, n: nat, acc: seq<int>): (r: Result<Parsed<seq<int>>>)
    requires InText(s, p) && SignedBytes(acc) && n > 0
    ensures r.Ok? ==> p <= r.value.next <= CStrLen(s)
    ensures r.Ok? ==> |r.value.value| == |acc| + n && SignedBytes(r.value.value)
    decreases n, 0
  {
    var b := Strtok(s, p);
    if b.tok.NoToken? then Err(Undefined(AtoiNull))
    else ReadBytes(s, b.next, n - 1, acc + [ToInt8(AtoiAt(s, b.tok.start))])
  }

  /** One byte of the datum loop read, the rest of the loop reads on from after it. */
  lemma {:induction false} ReadBytesStep(s: string, p: nat, n: nat, acc: seq<int>)
    requires InText(s, p) && SignedBytes(acc) && n > 0 && Strtok(s, p).tok.Tok?
    ensures var b := Strtok(s, p);
      ReadBytes(s, p, n, acc) == ReadBytes(s, b.next, n - 1, acc + [ToInt8(AtoiAt(s, b.tok.start))])
  {
  }

  /** nodein_bitmapset with its first token `k` read: "(", "b", members, ")"; no member is NULL. */
  function ReadBitmap(s: string, p: nat, k: Tok): (r: Result<Parsed<Option<set<nat>>>>)
    requires InText(s, p) && TokBefore(k, p)
    ensures r.Ok? ==> p <= r.value.next <= CStrLen(s)
    ensures r.Ok? && r.value.value.Some? ==> r.value.value.value != {}
  {
    if !IsChar(s, k, '(') then Err(BadInput(BadToken))
    else
      var b := Strtok(s, p);
      if b.tok.NoToken? then Err(BadInput(IncompleteBitmapset))
      else if !IsChar(s, b.tok, 'b') then Err(BadInput(BadToken))
      else ReadMembers(s, b.next, None)
  }

  /** The members of a set, or none for NULL. */
  function Members(m: Option<set<nat>>): set<nat>
  {
    if m.None? then {} else m.value
  }

  /** The bitmapset loop: bms_add_member of `(int) strtol` of each token up to ")". */
  function ReadMembers(s: string, p: nat, acc: Option<set<nat>>): (r: Result<Parsed<Option<set<nat>>>>)
    requires InText(s, p) && (acc.Some? ==> acc.value != {})
    ensures r.Ok? ==> p <= r.value.next <= CStrLen(s)
    ensures r.Ok? ==> Members(acc) <= Members(r.value.value) && (r.value.value.Some? ==> r.value.value.value != {})
    ensures r.Ok? ==> forall x :: x in Members(r.value.value) && x !in Members(acc) ==> x <= INT32_MAX
    decreases CStrLen(s) - p, 1
  {
    ReadMembersFrom(s, p, Strtok(s, p), acc)
  }

  /** One turn of the bitmapset loop, its token `m` read from `p`. */
  function ReadMembersFrom(s: string, p: nat, m: Scan, acc: Option<set<nat>>): (r: Result<Parsed<Option<set<nat>>>>)
    requires InText(s, p) && m == Strtok(s, p) && (acc.Some? ==> acc.value != {})
    ensures r.Ok? ==> p <= r.value.next <= CStrLen(s)
    ensures r.Ok? ==> Members(acc) <= Members(r.value.value) && (r.value.value.Some? ==> r.value.value.value != {})
    ensures r.Ok? ==> forall x :: x in Members(r.value.value) && x !in Members(acc) ==> x <= INT32_MAX
    decreases CStrLen(s) - p, 0
  {
    if m.tok.NoToken? then Err(BadInput(UnterminatedBitmapset))
    else if IsChar(s, m.tok, ')') then Ok(Parsed(acc, m.next))
    else
      var x := StrtolAt(s, m.tok.start);
      if !WholeNumber(s, m.tok, x.stop) then Err(BadInput(BadInteger))
      else if ToInt32(x.value) < 0 then Err(BadInput(NegativeMember))
      else ReadMembers(s, m.next, Some(Members(acc) + {ToInt32(x.value)}))
  }

  // ---------------------------------------------------------------------
  // The reader

  /** A method's result and final cursor are those the read `spec` describes. */
  predicate Yields<T(==)>(r: Result<T>, spec: Result<Parsed<T>>, cur: nat)
  {
    r == ValueOf(spec) && (spec.Ok? ==> cur == spec.value.next)
  }

  /** NodeInContext: the text, the cursor into it, and whether locations are restored. */
  class NodeInContext {
    const restoreLocations: bool
    const str: string
    var cur: nat

    /** The cursor lies inside the C string. */
    ghost predicate Valid()
      reads this
    {
      InText(str, cur)
    }

    /** The context of stringToNodeNewInternal: the cursor at the start of the text. */
    constructor (s: string, loc: bool)
      requires '\0' in s
      ensures str == s && restoreLocations == loc && cur == 0 && Valid()
    {
      str := s;
      restoreLocations := loc;
      cur := 0;
    }

    /** nodein_strtok: skip blanks, then one bracket or a word; the cursor moves past the token. */
    method NextToken() returns (k: Tok)
      requires Valid()
      modifies this
      ensures Valid() && Scan(k, cur) == Strtok(str, old(cur))
    {
      var p := cur;
      while IsBlank(str[p])
        invariant cur <= p <= CStrLen(str)
        invariant SkipBlanks(str, cur) == SkipBlanks(str, p)
        decreases CStrLen(str) - p
      {
        p := p + 1;
      }
      if str[p] == '\0' {
        cur := p;
        return NoToken;
      }
      var start := p;
      if IsBracket(str[p]) {
        p := p + 1;
      } else {
        while !IsDelim(str[p])
          invariant start <= p <= CStrLen(str)
          invariant WordEnd(str, start) == WordEnd(str, p)
          decreases CStrLen(str) - p
        {
          if str[p] == '\\' && str[p + 1] != '\0' {
            p := p + 2;
          } else {
            p := p + 1;
          }
        }
      }
      var len := p - start;
      if len == 2 && str[start] == '<' && str[start + 1] == '>' {
        len := 0;
      }
      cur := p;
      return Tok(start, len);
    }

    /** nodein_debackslash of the `n` bytes from `start`. */
    method Debackslash(start: nat, n: nat) returns (r: string)
      requires start + n <= |str|
      ensures r == Unescape(str[start .. start + n])
    {
      var x := str[start .. start + n];
      var j := 0;
      r := [];
      while j < |x|
        invariant j <= |x| && Unescape(x) == r + Unescape(x[j..])
      {
        UnescapeStep(x, j, r);
        if x[j] == '\\' && j + 1 < |x| {
          r, j := r + [x[j + 1]], j + 2;
        } else {
          r, j := r + [x[j]], j + 1;
        }
      }
      assert x[j..] == [];
      assert r + [] == r;
    }
  
    /** nodein_read with the token `k` already read. */
    method ReadAnyRec(t: Tables, k: Tok) returns (r: Result<Option<Node>>)
      requires ValidTables(t) && Valid() && TokBefore(k, cur)
      modifies this
      ensures Valid() && old(cur) <= cur
      ensures Yields(r, ReadAny(t, restoreLocations, str, old(cur), k), cur)
      decreases CStrLen(str) - cur, 6, 0
    {
      if k.len == 0 {
        return Ok(None);
      }
      if str[k.start] == '{' {
        var n :- ReadNodeRec(t);
        var close := NextToken();
        if !IsChar(str, close, '}') {
          return Err(BadInput(NoNodeClose));
        }
        return Ok(Some(n));
      } else if str[k.start] == '(' {
        r := ReadListRec(t);
      } else {
        r := Err(BadInput(BadToken));
      }
    }

    /** nodein_read_node: the name and tag tokens, a zeroed node of that type, its fields. */
    method ReadNodeRec(t: Tables) returns (r: Result<Node>)
      requires ValidTables(t) && Valid()
      modifies this
      ensures Valid() && old(cur) <= cur
      ensures Yields(r, ReadNode(t, restoreLocations, str, old(cur)), cur)
      decreases CStrLen(str) - cur, 5, 0
    {
      var name := NextToken();
      if TokLen(name) == 0 {
        return Err(BadInput(EmptyToken));
      }
      var id := NextToken();
      if id.NoToken? {
        return Err(Undefined(AtoiNull));
      }
      var tag := AtoiAt(str, id.start);
      if !(0 <= tag < |t.nodeTypes|) {
        return Err(Undefined(TagOutOfRange));
      }
      if !NameAccepts(str, name, TypeName(t, tag)) {
        return Err(BadInput(BadTypeName));
      }
      if t.nodeTypes[tag].size == 0 {
        return Err(Undefined(TagPastEnd));
      }
      var fs :- ReadFieldsLoop(t, tag, NewNode(t, tag));
      return Ok(Struct(fs));
    }

    /** nodein_fields: the loop over the field table, each read field checked by name first. */
    method ReadFieldsLoop(t: Tables, tag: int, vals0: seq<Value>) returns (r: Result<seq<Value>>)
      requires ValidTables(t) && 0 <= tag < |t.nodeTypes| && Valid()
      requires |vals0| == |FieldsOf(t, tag)|
      modifies this
      ensures Valid() && old(cur) <= cur
      ensures Yields(r, ReadFields(t, restoreLocations, str, old(cur), tag, vals0, 0), cur)
      decreases CStrLen(str) - cur, 4, 0
    {
      var infos := FieldsOf(t, tag);
      var vals := vals0;
      for i := 0 to |vals0|
        invariant |vals| == |vals0|
        invariant Valid() && old(cur) <= cur
        invariant ReadFields(t, restoreLocations, str, old(cur), tag, vals0, 0)
               == ReadFields(t, restoreLocations, str, cur, tag, vals, i)
      {
        if HasFlag(infos[i].flags, NotRead) {
          continue;
        }
        var v :- ReadNamedFieldRec(t, tag, vals, i);
        vals := vals[i := v];
      }
      return Ok(vals);
    }

    /** One pass of the nodein_fields loop: the ":name" token and its checks, then nodein_field. */
    method ReadNamedFieldRec(t: Tables, tag: int, vals: seq<Value>, i: nat) returns (r: Result<Value>)
      requires ValidTables(t) && 0 <= tag < |t.nodeTypes| && Valid()
      requires |vals| == |FieldsOf(t, tag)| && i < |vals|
      modifies this
      ensures Valid() && old(cur) <= cur
      ensures Yields(r, ReadNamedField(t, restoreLocations, str, old(cur), tag, vals, i), cur)
      decreases CStrLen(str) - cur, 3, 1
    {
      var f := FieldsOf(t, tag)[i];
      var name := NextToken();
      var bad := FieldNameFault(str, name, StringAt(t, f.name));
      if bad.Some? {
        r := Err(Abort(bad.value));
      } else {
        r := ReadFieldRec(t, tag, Some(vals), f, vals[i]);
      }
    }

    /** nodein_field: the field's token, then the switch on its known type. */
    method ReadFieldRec(t: Tables, tag: int, vals: Option<seq<Value>>, f: TIStructField, v: Value)
      returns (r: Result<Value>)
      requires ValidTables(t) && 0 <= tag < |t.nodeTypes| && ValidField(t, f) && Valid()
      requires vals.Some? ==> |vals.value| == |FieldsOf(t, tag)|
      modifies this
      ensures Valid() && old(cur) <= cur
      ensures Yields(r, ReadField(t, restoreLocations, str, old(cur), tag, vals, f, v), cur)
      decreases CStrLen(str) - cur, 2, 0
    {
      var k := if vals.None? then f.elemKnownType else f.knownType;
      var tok := NextToken();
      if k == KNode {
        if !IsChar(str, tok, '{') {
          return Err(BadInput(NoEmbeddedOpen));
        }
        r := ReadEmbeddedRec(t, f, v);
      } else if k == KPPgArr {
        if TokLen(tok) == 0 {
          return Ok(v);
        }
        if f.elemSize == 0 {
          return Err(Abort(ElemSizeAssert));
        }
        var n := ToUInt32(StrtoulAt(str, tok.start).value);
        var es :- ReadElemsLoop(t, tag, f, n);
        return Ok(Arr(ArrOf(es)));
      } else if k == KPNode {
        if TokLen(tok) == 0 {
          return ValueOf(Unchanged(vals, v, cur));
        }
        var n :- ReadAnyRec(t, tok);
        return Ok(NodePtr(n));
      } else {
        r := ReadLeafRec(t, tag, vals, f, k, tok, v);
      }
    }

    /** KNOWN_TYPE_NODE after its '{': the name and tag tokens, the fields, then '}'. */
    method ReadEmbeddedRec(t: Tables, f: TIStructField, v: Value) returns (r: Result<Value>)
      requires ValidTables(t) && ValidField(t, f) && f.knownType == KNode && Valid()
      modifies this
      ensures Valid() && old(cur) <= cur
      ensures Yields(r, ReadEmbedded(t, restoreLocations, str, old(cur), f, v), cur)
      decreases CStrLen(str) - cur, 5, 0
    {
      var name := NextToken();
      var id := NextToken();
      var st :- EmbeddedStart(t, str, f, id, v);
      var (sub, start) := st;
      var fs :- ReadFieldsLoop(t, sub, start);
      var close := NextToken();
      r := if IsChar(str, close, '}') then Ok(Embedded(fs)) else Err(BadInput(NoEmbeddedClose));
    }

    /** The KNOWN_TYPE_P_PGARR loop: `n` elements, each read as the element kind. */
    method ReadElemsLoop(t: Tables, tag: int, f: TIStructField, n: nat) returns (r: Result<seq<Value>>)
      requires ValidTables(t) && 0 <= tag < |t.nodeTypes| && ValidField(t, f) && Valid()
      modifies this
      ensures Valid() && old(cur) <= cur
      ensures Yields(r, ReadElems(t, restoreLocations, str, old(cur), tag, f, n, []), cur)
      decreases CStrLen(str) - cur, 3, 0
    {
      var acc := [];
      ghost var p0 := cur;
      for i := 0 to n
        invariant Valid() && p0 <= cur
        invariant ReadElems(t, restoreLocations, str, p0, tag, f, n, [])
               == ReadElems(t, restoreLocations, str, cur, tag, f, n - i, acc)
      {
        var x := ReadElemRec(t, tag, f);
        if x.Err? {
          return Err(x.fault);
        }
        acc := acc + [x.value];
      }
      return Ok(acc);
    }

    /** One element of the KNOWN_TYPE_P_PGARR loop. */
    method ReadElemRec(t: Tables, tag: int, f: TIStructField) returns (r: Result<Value>)
      requires ValidTables(t) && 0 <= tag < |t.nodeTypes| && ValidField(t, f) && Valid()
      modifies this
      ensures Valid() && old(cur) <= cur
      ensures Yields(r, ReadElem(t, restoreLocations, str, old(cur), tag, f), cur)
      decreases CStrLen(str) - cur, 2, 1
    {
      r := ReadFieldRec(t, tag, None, f, Raw([]));
    }

    /** nodein_list: the kind token, then the integer, OID or node loop. */
    method ReadListRec(t: Tables) returns (r: Result<Option<Node>>)
      requires ValidTables(t) && Valid()
      modifies this
      ensures Valid() && old(cur) <= cur
      ensures Yields(r, ReadList(t, restoreLocations, str, old(cur)), cur)
      decreases CStrLen(str) - cur, 5, 0
    {
      var first := NextToken();
      if first.NoToken? {
        return Err(BadInput(UnterminatedList));
      }
      if IsChar(str, first, 'i') {
        var xs :- ReadIntsLoop();
        return Ok(if xs == [] then None else Some(IntList(xs)));
      } else if IsChar(str, first, 'o') {
        var xs :- ReadOidsLoop();
        return Ok(if xs == [] then None else Some(OidList(xs)));
      }
      var cs :- ReadCellsLoop(t, first);
      return Ok(if cs == [] then None else Some(List(cs)));
    }

    /** The node-list loop with its first token `first` read: nodes up to ')'. */
    method ReadCellsLoop(t: Tables, first: Tok) returns (r: Result<seq<Option<Node>>>)
      requires ValidTables(t) && Valid() && TokBefore(first, cur)
      modifies this
      ensures Valid() && old(cur) <= cur
      ensures Yields(r, ReadCells(t, restoreLocations, str, old(cur), first, []), cur)
      decreases CStrLen(str) - cur, 7, 0
    {
      var tok := first;
      var acc := [];
      while str[tok.start] != ')'
        invariant Valid() && old(cur) <= cur && TokBefore(tok, cur)
        invariant ReadCells(t, restoreLocations, str, old(cur), first, [])
               == ReadCells(t, restoreLocations, str, cur, tok, acc)
        decreases CStrLen(str) - cur
      {
        var c :- ReadAnyRec(t, tok);
        tok := NextToken();
        if tok.NoToken? {
          return Err(BadInput(UnterminatedList));
        }
        acc := acc + [c];
      }
      return Ok(acc);
    }
  
    /** The integer-list loop of nodein_list: `(int) strtol` of each token up to ')'. */
    method ReadIntsLoop() returns (r: Result<seq<int>>)
      requires Valid()
      modifies this
      ensures Valid() && old(cur) <= cur
      ensures Yields(r, ReadInts(str, old(cur), []), cur)
    {
      var acc := [];
      ghost var q := cur;
      var m := NextToken();
      while m.Tok? && str[m.start] != ')'
        invariant Valid() && old(cur) <= q <= cur && InText(str, q)
        invariant Scan(m, cur) == Strtok(str, q)
        invariant ReadInts(str, old(cur), []) == ReadInts(str, q, acc)
        decreases CStrLen(str) - q
      {
        var x := StrtolAt(str, m.start);
        if !WholeNumber(str, m, x.stop) {
          return Err(BadInput(BadInteger));
        }
        acc := acc + [ToInt32(x.value)];
        q := cur;
        m := NextToken();
      }
      if m.NoToken? {
        return Err(BadInput(UnterminatedList));
      }
      return Ok(acc);
    }

    /** The OID-list loop of nodein_list: `(Oid) strtoul` of each token up to ')'. */
    method ReadOidsLoop() returns (r: Result<seq<int>>)
      requires Valid()
      modifies this
      ensures Valid() && old(cur) <= cur
      ensures Yields(r, ReadOids(str, old(cur), []), cur)
    {
      var acc := [];
      ghost var q := cur;
      var m := NextToken();
      while m.Tok? && str[m.start] != ')'
        invariant Valid() && old(cur) <= q <= cur && InText(str, q)
        invariant Scan(m, cur) == Strtok(str, q)
        invariant ReadOids(str, old(cur), []) == ReadOids(str, q, acc)
        decreases CStrLen(str) - q
      {
        var x := StrtoulAt(str, m.start);
        if !WholeNumber(str, m, x.stop) {
          return Err(BadInput(BadOid));
        }
        acc := acc + [ToUInt32(x.value)];
        q := cur;
        m := NextToken();
      }
      if m.NoToken? {
        return Err(BadInput(UnterminatedList));
      }
      return Ok(acc);
    }

    /** The switch of nodein_field for the kinds that do not recurse. */
    method ReadLeafRec(t: Tables, tag: int, vals: Option<seq<Value>>, f: TIStructField, k: KnownType,
                       tok: Tok, v: Value) returns (r: Result<Value>)
      requires ValidTables(t) && 0 <= tag < |t.nodeTypes| && ValidField(t, f) && Valid()
      requires tok.Tok? ==> TokBefore(tok, cur)
      requires vals.Some? ==> |vals.value| == |FieldsOf(t, tag)|
      requires k == if vals.None? then f.elemKnownType else f.knownType
      modifies this
      ensures Valid() && old(cur) <= cur
      ensures Yields(r, ReadLeaf(t, restoreLocations, str, Scan(tok, old(cur)), tag, vals, f, k, v), cur)
    {
      var tk := Scan(tok, cur);
      if IsNumberKind(k) {
        r := ValueOf(ReadNumber(restoreLocations, str, tk, k));
      } else if k == KBool {
        r := ValueOf(ReadBool(str, tk));
      } else if k == KChar {
        r := ValueOf(ReadChar(str, tk));
      } else if IsEnumLike(k) {
        r := ReadEnumRec(t, f.typeId, tok);
      } else {
        r := ReadOtherLeafRec(t, tag, vals, k, tok, v);
      }
    }

    /** The rest of that switch: Datum, Value union, string and Bitmapset. */
    method ReadOtherLeafRec(t: Tables, tag: int, vals: Option<seq<Value>>, k: KnownType, tok: Tok, v: Value)
      returns (r: Result<Value>)
      requires ValidTables(t) && 0 <= tag < |t.nodeTypes| && Valid()
      requires tok.Tok? ==> TokBefore(tok, cur)
      requires vals.Some? ==> |vals.value| == |FieldsOf(t, tag)|
      modifies this
      ensures Valid() && old(cur) <= cur
      ensures Yields(r, ReadOtherLeaf(t, str, Scan(tok, old(cur)), tag, vals, k, v), cur)
    {
      if k == KDatum {
        if vals.None? {
          r := Err(Undefined(DatumOutsideConst));
        } else {
          r := ReadConstValueRec(t, tok, tag, vals.value, v);
        }
      } else if k == KValueUnion {
        if vals.None? {
          r := Err(Undefined(UnionOutsideValue));
        } else {
          var w := TagWord(vals.value);
          if w.None? || !IsValueTag(t, w.value) {
            r := Err(Abort(IsAValueAssert));
          } else {
            r := ReadUnionRec(t, tok, w.value, v);
          }
        }
      } else if k == KPChar {
        if TokLen(tok) == 0 {
          r := ValueOf(Unchanged(vals, v, cur));
        } else {
          r := ReadStringRec(tok);
        }
      } else if k == KPBitmapset {
        if TokLen(tok) == 0 {
          r := ValueOf(Unchanged(vals, v, cur));
        } else {
          var m := ReadBitmapRec(tok);
          r := if m.Ok? then Ok(Bitmap(m.value)) else Err(m.fault);
        }
      } else {
        r := Err(Abort(UnknownKind));
      }
    }

    /** nodein_enum: the constants of enum `e` in order, compared by length and bytes with the token. */
    method FindEnumNamed(t: Tables, e: int, start: nat, len: nat) returns (r: Result<int>)
      requires ValidTables(t) && 0 <= e < |t.enums| && start + len <= |str|
      ensures r == ReadEnum(t, e, str[start .. start + len])
    {
      var cs := EnumFieldsOf(t, e);
      var w := str[start .. start + len];
      for i := 0 to |cs|
        invariant EnumNamed(t, e, w, 0) == EnumNamed(t, e, w, i)
      {
        var name := StringAt(t, cs[i].name);
        if |name| == len && name == w {
          return Ok(cs[i].value);
        }
      }
      return Err(BadInput(UnknownEnum));
    }

    /** The enum-like kinds: the token looked up among the constants of enum `e`. */
    method ReadEnumRec(t: Tables, e: int, tok: Tok) returns (r: Result<Value>)
      requires ValidTables(t) && 0 <= e < |t.enums| && Valid()
      requires tok.Tok? ==> TokBefore(tok, cur)
      ensures Yields(r, ReadEnumLeaf(t, str, Scan(tok, cur), e), cur)
    {
      if tok.NoToken? {
        r := Err(Undefined(EnumNull));
      } else {
        var x := FindEnumNamed(t, e, tok.start, tok.len);
        r := if x.Ok? then Ok(Scalar(x.value)) else Err(x.fault);
      }
    }

    /** KNOWN_TYPE_DATUM: `<>` for a NULL Const, else nodein_datum as constbyval says. */
    method ReadConstValueRec(t: Tables, tok: Tok, tag: int, vals: seq<Value>, v: Value) returns (r: Result<Value>)
      requires ValidTables(t) && 0 <= tag < |t.nodeTypes| && Valid()
      requires tok.Tok? ==> TokBefore(tok, cur)
      requires |vals| == |FieldsOf(t, tag)|
      modifies this
      ensures Valid() && old(cur) <= cur
      ensures Yields(r, ReadConstValue(t, str, Scan(tok, old(cur)), tag, vals, v), cur)
    {
      var isnull :- BoolField(t, FieldsOf(t, tag), vals, "constisnull");
      if isnull {
        if tok.NoToken? || tok.len != 0 {
          return Err(BadInput(ExpectedEmpty));
        }
        return Ok(v);
      }
      var byval :- BoolField(t, FieldsOf(t, tag), vals, "constbyval");
      r := ReadDatumRec(tok, byval);
    }

    /** nodein_datum with the length token read. */
    method ReadDatumRec(tok: Tok, byval: bool) returns (r: Result<Value>)
      requires Valid() && (tok.Tok? ==> TokBefore(tok, cur))
      modifies this
      ensures Valid() && old(cur) <= cur
      ensures Yields(r, ReadDatum(str, Scan(tok, old(cur)), byval), cur)
    {
      if tok.NoToken? {
        return Err(Undefined(StrtoulNull));
      }
      var length := ToUInt32(StrtoulAt(str, tok.start).value);
      var open := NextToken();
      if !IsChar(str, open, '[') {
        return Err(BadInput(NoDatumOpen));
      }
      var bytes: seq<int>;
      if byval {
        if length > 8 {
          return Err(BadInput(ByvalTooLong));
        }
        bytes :- ReadBytesLoop(8);
      } else if length == 0 {
        bytes := [];
      } else {
        bytes :- ReadBytesLoop(length);
      }
      var close := NextToken();
      if !IsChar(str, close, ']') {
        return Err(BadInput(NoDatumClose));
      }
      return Ok(DatumWord(bytes));
    }

    /** The byte loops of nodein_datum: `n` tokens, each `(char) atoi`. */
    method ReadBytesLoop(n: nat) returns (r: Result<seq<int>>)
      requires Valid()
      modifies this
      ensures Valid() && old(cur) <= cur
      ensures Yields(r, ReadBytes(str, old(cur), n, []), cur)
    {
      var acc := [];
      ghost var p0 := cur;
      for i := 0 to n
        invariant Valid() && p0 <= cur && SignedBytes(acc)
        invariant ReadBytes(str, p0, n, []) == ReadBytes(str, cur, n - i, acc)
      {
        acc :- ReadByteNext(n - i, acc);
      }
      return Ok(acc);
    }

    /** One pass of a byte loop: `(char) atoi` of the next token, then what the loop reads on from after it. */
    method ReadByteNext(n: nat, acc: seq<int>) returns (r: Result<seq<int>>)
      requires Valid() && SignedBytes(acc) && n > 0
      modifies this
      ensures Valid() && old(cur) <= cur
      ensures r.Err? ==> ReadBytes(str, old(cur), n, acc) == Err(r.fault)
      ensures r.Ok? ==> SignedBytes(r.value) && ReadBytes(str, old(cur), n, acc) == ReadBytes(str, cur, n - 1, r.value)
    {
      ghost var p := cur;
      var b := NextToken();
      if b.NoToken? {
        return Err(Undefined(AtoiNull));
      }
      ReadBytesStep(str, p, n, acc);
      assert Strtok(str, p).next == cur && Strtok(str, p).tok == b;
      return Ok(acc + [ToInt8(AtoiAt(str, b.start))]);
    }

    /** nodein_value_union: the union as the Value node's tag says. */
    method ReadUnionRec(t: Tables, tok: Tok, tag: int, v: Value) returns (r: Result<Value>)
      requires Valid() && (tok.Tok? ==> TokBefore(tok, cur)) && IsValueTag(t, tag)
      ensures r == ValueOf(ReadUnion(t, str, Scan(tok, cur), tag, v))
    {
      if tag == t.tags.TNull {
        return Ok(v);
      } else if tag == t.tags.TInteger {
        if tok.NoToken? {
          return Err(Undefined(AtoiNull));
        }
        return Ok(Union(IVal(AtoiAt(str, tok.start))));
      } else if tag == t.tags.TFloat || tag == t.tags.TBitString {
        if tok.NoToken? {
          return Err(Undefined(StrdupNull));
        }
        return Ok(Union(SVal(Some(str[tok.start .. tok.start + tok.len]))));
      }
      if TokLen(tok) < 2 || str[tok.start] != '"' || str[tok.start + tok.len - 1] != '"' {
        return Err(BadInput(BadString));
      }
      var x := Debackslash(tok.start + 1, tok.len - 2);
      return Ok(Union(SVal(Some(x))));
    }

    /** KNOWN_TYPE_P_CHAR after the `<>` case: the quotes checked, the inside unescaped. */
    method ReadStringRec(tok: Tok) returns (r: Result<Value>)
      requires Valid() && (tok.Tok? ==> TokBefore(tok, cur))
      ensures r == ValueOf(ReadString(str, Scan(tok, cur)))
    {
      if TokLen(tok) < 2 || str[tok.start] != '"' || str[tok.start + tok.len - 1] != '"' {
        return Err(BadInput(MissingQuotes));
      }
      var x := Debackslash(tok.start + 1, tok.len - 2);
      return Ok(Str(Some(x)));
    }

    /** nodein_bitmapset with its first token read: "(", "b", then members up to ")". */
    method ReadBitmapRec(k: Tok) returns (r: Result<Option<set<nat>>>)
      requires Valid() && TokBefore(k, cur)
      modifies this
      ensures Valid() && old(cur) <= cur
      ensures Yields(r, ReadBitmap(str, old(cur), k), cur)
    {
      if !IsChar(str, k, '(') {
        return Err(BadInput(BadToken));
      }
      var b := NextToken();
      if b.NoToken? {
        return Err(BadInput(IncompleteBitmapset));
      }
      if !IsChar(str, b, 'b') {
        return Err(BadInput(BadToken));
      }
      var acc: Option<set<nat>> := None;
      ghost var q := cur;
      var m := NextToken();
      while m.Tok? && !IsChar(str, m, ')')
        invariant Valid() && old(cur) <= q <= cur && InText(str, q)
        invariant Scan(m, cur) == Strtok(str, q)
        invariant acc.Some? ==> acc.value != {}
        invariant ReadBitmap(str, old(cur), k) == ReadMembers(str, q, acc)
        decreases CStrLen(str) - q
      {
        var x := StrtolAt(str, m.start);
        if !WholeNumber(str, m, x.stop) {
          return Err(BadInput(BadInteger));
        }
        if ToInt32(x.value) < 0 {
          return Err(BadInput(NegativeMember));
        }
        acc := Some(Members(acc) + {ToInt32(x.value)});
        q := cur;
        m := NextToken();
      }
      if m.NoToken? {
        return Err(BadInput(UnterminatedBitmapset));
      }
      return Ok(acc);
    }
  }

  /** stringToNodeNew (stringToNodeWithLocationsNew when `loc`): the first token, then nodein_read. */
  method StringToNodeNew(t: Tables, s: string, loc: bool) returns (r: Result<Option<Node>>)
    requires ValidTables(t) && '\0' in s
    ensures r == StringToNode(t, loc, s)
  {
    var context := new NodeInContext(s, loc);
    var first := context.NextToken();
    if first.NoToken? {
      return Ok(None);
    }
    r := context.ReadAnyRec(t, first);
  }
}
