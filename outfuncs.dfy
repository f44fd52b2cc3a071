// Table-driven node serialization (src/backend/nodes/outfuncs_new.c). A node
// is written as "{Name tag :field value ...}", lists as "(...)", "(i ...)"
// and "(o ...)", integer sets as "(b ...)", strings quoted and
// backslash-escaped. The functions are the specification: the text each
// routine appends. NodeOutContext is the writer: a buffer that the methods
// extend, each proved to append exactly its function's text.

module NodeOut {
  import opened Wrappers
  import opened CInt
  import opened NodeInfo
  import opened NodeValues
  import opened PgString

  // ---------------------------------------------------------------------
  // Tokens and scalars

  /** One character as nodeout_token writes it. */
  function EscapeChar(c: char): string
  {
    if NeedsEscape(c) then ['\\', c] else [c]
  }

  /** nodeout_token's loop over a NUL-free string. */
  function Escape(s: string): (r: string)
    ensures |r| >= |s|
    ensures s != [] ==> r != []
  {
    if s == [] then [] else EscapeChar(s[0]) + Escape(s[1..])
  }

  /** One step of the token loop: the character at `i`, then the rest of the C string. */
  lemma {:induction false} EscapeStep(x: string, i: nat)
    requires i < |x| && x[i] != '\0'
    ensures Escape(CString(x[i..])) == EscapeChar(x[i]) + Escape(CString(x[i + 1..]))
  {
    assert x[i..][1..] == x[i + 1..];
    var r := CString(x[i + 1..]);
    assert CString(x[i..]) == [x[i]] + r;
    assert ([x[i]] + r)[1..] == r;
  }

  /** nodeout_token: "<>" for NULL or the empty string, else the escaped text. */
  function Token(s: Option<string>): string
  {
    if s.None? || CString(s.value) == [] then "<>" else Escape(CString(s.value))
  }

  /** A `char *` inside double quotes; the empty string is `""`. */
  function Quoted(s: string): (r: string)
    ensures |r| >= 2 && r[0] == '"' && r[|r| - 1] == '"'
  {
    "\"" + (if CString(s) == [] then "" else Token(Some(s))) + "\""
  }

  /** KNOWN_TYPE_CHAR: "<>" for NUL, a backslash before a non-alphanumeric byte. */
  function OutChar(c: char): string
  {
    if c == '\0' then "<>" else if !IsAlnum(c) then ['\\', c] else [c]
  }

  function OutBool(b: bool): string
  {
    if b then "true" else "false"
  }

  /** The integer kinds: the field's C type, then the matching unsigned or signed writer. */
  function OutInteger(k: KnownType, n: int): (r: Result<string>)
    requires k in {KUInt16, KOpFuncId, KOid, KUInt32, KUInt64, KInt16, KLocation, KInt32, KInt64}
    ensures InRangeOf(k, n) ==> r == Ok(Decimal(n))
  {
    if k == KUInt16 then Ok(Decimal(ToUInt16(n)))
    else if k in {KOpFuncId, KOid, KUInt32} then Ok(Decimal(ToUInt32(n)))
    else if k == KUInt64 then Ok(Decimal(ToUInt64(n)))
    else if k == KInt16 then Ok(Decimal(ToInt16(n)))
    else if k in {KLocation, KInt32} then Ok(Decimal(ToInt32(n)))
    else Ok(Decimal(ToInt64(n)))
  }

  /** The position of the first constant whose value is `val`. */
  function EnumIndex(cs: seq<TIEnumField>, val: int): (r: Option<nat>)
    ensures r.Some? ==> r.value < |cs| && cs[r.value].value == val
    ensures r.Some? ==> forall j :: 0 <= j < r.value ==> cs[j].value != val
    ensures r.None? ==> forall j :: 0 <= j < |cs| ==> cs[j].value != val
  {
    if cs == [] then None
    else if cs[0].value == val then Some(0)
    else match EnumIndex(cs[1..], val)
      case None => None
      case Some(j) => Some(j + 1)
  }

  /** The enum kinds: the name of the first constant of the field's enum with the field's uint32 value. */
  function OutEnum(t: Tables, e: int, n: int): (r: Result<string>)
    requires ValidTables(t) && 0 <= e < |t.enums|
    ensures r.Err? <==> EnumIndex(EnumFieldsOf(t, e), ToUInt32(n)).None?
  {
    var cs := EnumFieldsOf(t, e);
    match EnumIndex(cs, ToUInt32(n))
    case None => Err(SchemaError("unknown enum value"))
    case Some(j) => Ok(StringAt(t, cs[j].name))
  }

  // ---------------------------------------------------------------------
  // Const's Datum, the Value union, integer sets

  /** Each byte as `(int) (char) b` and a space. */
  function ByteList(bs: seq<int>): (r: string)
    ensures bs != [] ==> r != []
  {
    if bs == [] then [] else Decimal(ToInt8(bs[0])) + " " + ByteList(bs[1..])
  }

  /**
   * KNOWN_TYPE_DATUM: "<>" when constisnull, otherwise outDatum's form,
   * the length, then " [ ", each byte and a space, then "]". A by-value
   * Datum prints constlen and every byte of its word; a NULL reference
   * prints "0 [ ]".
   */
  function OutDatum(t: Tables, infos: seq<TIStructField>, vals: seq<Value>, v: Value): Result<string>
    requires ValidTables(t) && forall k :: 0 <= k < |infos| ==> ValidField(t, infos[k])
  {
    if !v.DatumWord? then Err(SchemaError("Datum expected"))
    else
      var isnull :- BoolField(t, infos, vals, "constisnull");
      if isnull then Ok("<>")
      else
        var byval :- BoolField(t, infos, vals, "constbyval");
        var len :- IntField(t, infos, vals, "constlen");
        if byval then
          if |v.bytes| != 8 then Err(SchemaError("a by-value Datum is one 8-byte word"))
          else Ok(Decimal(ToUInt32(len)) + " [ " + ByteList(v.bytes) + "]")
        else if v.bytes == [] then Ok("0 [ ]")
        else Ok(Decimal(ToUInt32(|v.bytes|)) + " [ " + ByteList(v.bytes) + "]")
  }

  /** nodeout_value_union: the union as the Value node's tag says. */
  function OutUnion(t: Tables, tag: int, u: ValUnion): Result<string>
  {
    if tag == t.tags.TInteger then
      var i :- UnionIval(u);
      Ok(Decimal(ToInt32(i)))
    else if tag == t.tags.TFloat || tag == t.tags.TBitString then
      var s :- UnionStr(u);
      if s.None? then Err(Undefined("NULL string")) else Ok(CString(s.value))
    else if tag == t.tags.TString then
      var s :- UnionStr(u);
      if s.None? then Err(Undefined("NULL string")) else Ok(Quoted(s.value))
    else if tag == t.tags.TNull then Ok("<>")
    else Err(Abort("Assert: not a Value tag"))
  }

  /** Some element of a non-empty set is the least. */
  /** `m` is the least member of `s`. */
  predicate IsLeast(m: nat, s: set<nat>)
  {
    m in s && forall y :: y in s ==> m <= y
  }

  lemma {:induction false} HasLeast(s: set<nat>)
    requires s != {}
    ensures exists m :: IsLeast(m, s)
    decreases |s|
  {
    var x :| x in s;
    var rest := s - {x};
    if rest == {} {
      assert forall y :: y in s ==> y == x || y in rest;
      assert IsLeast(x, s);
    } else {
      HasLeast(rest);
      var m :| IsLeast(m, rest);
      var least := if x < m then x else m;
      forall y | y in s
        ensures least <= y
      {
        if y != x {
          assert y in rest;
        }
      }
      assert IsLeast(least, s);
    }
  }

  /** The least member: what bms_next_member returns first. */
  function Least(s: set<nat>): (m: nat)
    requires s != {}
    ensures m in s && forall y :: y in s ==> m <= y
  {
    HasLeast(s);
    var m :| IsLeast(m, s);
    m
  }

  /** The members in the order the bms_next_member loop visits them. */
  function Ascending(s: set<nat>): seq<nat>
    decreases |s|
  {
    if s == {} then [] else [Least(s)] + Ascending(s - {Least(s)})
  }

  /** The visiting order lists every member once, in increasing order. */
  lemma {:induction false} AscendingMeaning(s: set<nat>)
    ensures |Ascending(s)| == |s|
    ensures forall x :: x in s <==> x in Ascending(s)
    ensures forall i, j :: 0 <= i < j < |Ascending(s)| ==> Ascending(s)[i] < Ascending(s)[j]
    decreases |s|
  {
    if s != {} {
      var m := Least(s);
      var rest := Ascending(s - {m});
      AscendingMeaning(s - {m});
      assert Ascending(s) == [m] + rest;
      forall j | 0 <= j < |rest|
        ensures m < rest[j]
      {
        assert rest[j] in s - {m};
      }
    }
  }

  /** A space and the decimal text of each member. */
  function MemberList(xs: seq<nat>): string
  {
    if xs == [] then [] else " " + Decimal(ToInt32(xs[0])) + MemberList(xs[1..])
  }

  /** The text of a set is its least member's, then the rest's. */
  lemma {:induction false} MemberListFirst(s: set<nat>, x: nat)
    requires x in s && forall y :: y in s ==> x <= y
    ensures MemberList(Ascending(s)) == " " + Decimal(ToInt32(x)) + MemberList(Ascending(s - {x}))
  {
    assert x == Least(s);
    var a := Ascending(s);
    assert a == [x] + Ascending(s - {x});
    assert a[1..] == Ascending(s - {x});
  }

  /** nodeout_bitmapset: "(b", each member, ")". */
  function BitmapText(s: set<nat>): string
  {
    "(b" + MemberList(Ascending(s)) + ")"
  }

  /** The elements of an integer or OID list, each after a space, by the unsigned writer. */
  function WordList(xs: seq<int>): string
  {
    if xs == [] then [] else " " + Decimal(ToUInt32(xs[0])) + WordList(xs[1..])
  }

  // ---------------------------------------------------------------------
  // Nodes, fields and lists

  /** nodeout_new_rec. */
  function OutNode(t: Tables, obj: Option<Node>): Result<string>
    requires ValidTables(t)
    decreases obj, 2
  {
    if obj.None? then Ok("<>")
    else
      var n := obj.value;
      var tag := NodeTag(t, n);
      if tag.None? then Err(SchemaError("node without a tag"))
      else if IsListTag(t, tag.value) then OutList(t, n)
      else if !(0 <= tag.value < |t.nodeTypes|) then Err(Undefined("tag outside ti_node_types"))
      else if t.nodeTypes[tag.value].size == 0 then Err(Abort("Assert: node type without a size"))
      else if !n.Struct? || |n.fields| != |FieldsOf(t, tag.value)| then
        Err(SchemaError("struct does not match its field table"))
      else
        var body :- OutFields(t, tag.value, n.fields, 0);
        Ok("{" + TypeName(t, tag.value) + " " + Decimal(tag.value) + body + "}")
  }

  /** nodeout_list: "(" and the kind letter, then a space before each element, then ")". */
  function OutList(t: Tables, n: Node): Result<string>
    requires ValidTables(t)
    decreases Some(n), 1
  {
    match n
    case List(cs) =>
      var body :- OutCells(t, cs, 0);
      Ok("(" + body + ")")
    case OidList(xs) => Ok("(o" + WordList(xs) + ")")
    case IntList(xs) => Ok("(i" + WordList(xs) + ")")
    case Struct(_) => Err(SchemaError("struct with a list tag"))
  }

  function OutCells(t: Tables, cs: seq<Option<Node>>, i: nat): Result<string>
    requires ValidTables(t) && i <= |cs|
    decreases cs, |cs| - i
  {
    if i == |cs| then Ok("")
    else
      var c :- OutNode(t, cs[i]);
      Prepend(" " + c, OutCells(t, cs, i + 1))
  }

  /** nodeout_fields from field `i` on: " :name value" for each field not OUT_IGNORE. */
  function OutFields(t: Tables, tag: int, vals: seq<Value>, i: nat): Result<string>
    requires ValidTables(t) && 0 <= tag < |t.nodeTypes|
    requires |vals| == |FieldsOf(t, tag)| && i <= |vals|
    decreases vals, 1, |vals| - i
  {
    var infos := FieldsOf(t, tag);
    if i == |vals| then Ok("")
    else if HasFlag(infos[i].flags, TYPE_OUT_IGNORE) then OutFields(t, tag, vals, i + 1)
    else
      var x :- OutField(t, tag, Some(vals), infos[i], vals[i]);
      Prepend(" :" + StringAt(t, infos[i].name) + " " + x, OutFields(t, tag, vals, i + 1))
  }

  /**
   * nodeout_field on the value `v` of field `f` of a struct of type `tag`
   * whose fields are `vals`; `vals` is None for an element of a pgarr field,
   * which is written by the element kind without an enclosing object.
   */
  function OutField(t: Tables, tag: int, vals: Option<seq<Value>>, f: TIStructField, v: Value): Result<string>
    requires ValidTables(t) && 0 <= tag < |t.nodeTypes| && ValidField(t, f)
    requires vals.Some? ==> |vals.value| == |FieldsOf(t, tag)|
    decreases v, 2
  {
    var k := if vals.None? then f.elemKnownType else f.knownType;
    if k == KNode then OutEmbedded(t, f, v)
    else if k == KPPgArr then OutArray(t, tag, f, v)
    else if k == KPNode then
      if !v.NodePtr? then Err(SchemaError("node pointer expected"))
      else OutNode(t, v.node)
    else OutLeaf(t, tag, vals, f, k, v)
  }

  /** The kinds of nodeout_field that do not recurse. */
  function OutLeaf(t: Tables, tag: int, vals: Option<seq<Value>>, f: TIStructField, k: KnownType, v: Value): Result<string>
    requires ValidTables(t) && 0 <= tag < |t.nodeTypes| && ValidField(t, f)
    requires k == f.knownType || k == f.elemKnownType
    requires vals.Some? ==> |vals.value| == |FieldsOf(t, tag)|
  {
    if k in {KUInt16, KOpFuncId, KOid, KUInt32, KUInt64, KInt16, KLocation, KInt32, KInt64} then
      if v.Scalar? then OutInteger(k, v.n) else Err(SchemaError("integer expected"))
    else if k == KFloat32 || k == KFloat64 then Err(Unmodelled("float output"))
    else if k == KBool then
      if v.Bool? then Ok(OutBool(v.b)) else Err(SchemaError("bool expected"))
    else if k == KChar then
      if v.Char? then Ok(OutChar(v.c)) else Err(SchemaError("char expected"))
    else if IsEnumLike(k) then
      if v.Scalar? then OutEnum(t, f.typeId, v.n) else Err(SchemaError("enum expected"))
    else if k == KDatum then
      if vals.None? then Err(Undefined("Datum outside a Const"))
      else OutDatum(t, FieldsOf(t, tag), vals.value, v)
    else if k == KValueUnion then
      if vals.None? then Err(Undefined("union outside a Value"))
      else if !v.Union? || TagWord(vals.value).None? then Err(SchemaError("Value expected"))
      else OutUnion(t, TagWord(vals.value).value, v.u)
    else if k == KPChar then
      if !v.Str? then Err(SchemaError("string expected"))
      else if v.s.None? then Ok("<>") else Ok(Quoted(v.s.value))
    else if k == KPBitmapset then
      if !v.Bitmap? then Err(SchemaError("Bitmapset expected"))
      else if v.members.None? then Ok("<>") else Ok(BitmapText(v.members.value))
    else Err(SchemaError("don't know how to output field"))
  }

  /** KNOWN_TYPE_P_PGARR: "<>" for NULL, else the size, a space, and each element followed by a space. */
  function OutArray(t: Tables, tag: int, f: TIStructField, v: Value): Result<string>
    requires ValidTables(t) && 0 <= tag < |t.nodeTypes| && ValidField(t, f)
    decreases v, 1
  {
    if !v.Arr? then Err(SchemaError("pgarr expected"))
    else if v.elems.NullArr? then Ok("<>")
    else if f.elemSize == 0 then Err(Abort("Assert: element size is positive"))
    else
      var body :- OutElems(t, tag, f, v, 0);
      Ok(Decimal(ToUInt32(|v.elems.items|)) + " " + body)
  }

  /** The elements of a pgarr from `j` on, each followed by a space. */
  function OutElems(t: Tables, tag: int, f: TIStructField, v: Value, j: nat): Result<string>
    requires ValidTables(t) && 0 <= tag < |t.nodeTypes| && ValidField(t, f)
    requires v.Arr? && v.elems.ArrOf? && j <= |v.elems.items|
    decreases v, 0, |v.elems.items| - j
  {
    var es := v.elems.items;
    if j == |es| then Ok("")
    else
      assert es[j] < v by {
        assert v == Arr(ArrOf(es));
      }
      var x :- OutField(t, tag, None, f, es[j]);
      Prepend(x + " ", OutElems(t, tag, f, v, j + 1))
  }

  /** The type an embedded struct is written as: its declared type at offset 0, else its own tag. */
  function EmbeddedType(t: Tables, f: TIStructField, v: Value): (r: Result<int>)
    requires ValidTables(t) && ValidField(t, f) && f.knownType == KNode
    ensures r.Ok? ==> 0 <= r.value < |t.nodeTypes|
    ensures r.Ok? ==> v.Embedded? && |v.fields| == |FieldsOf(t, r.value)|
  {
    if !v.Embedded? then Err(SchemaError("embedded struct expected"))
    else
      var sub :-
        if f.offset == 0 then Ok(f.typeId)
        else if TagWord(v.fields).None? then Err(SchemaError("embedded struct without a tag"))
        else if !(0 <= TagWord(v.fields).value < |t.nodeTypes|) then Err(Undefined("tag outside ti_node_types"))
        else if t.nodeTypes[TagWord(v.fields).value].size != t.nodeTypes[f.typeId].size then
          Err(Abort("Assert: embedded struct of another size"))
        else Ok(TagWord(v.fields).value);
      if |v.fields| != |FieldsOf(t, sub)| then Err(SchemaError("struct does not match its field table"))
      else Ok(sub)
  }

  /** KNOWN_TYPE_NODE: "{Name tag", the fields, "}". */
  function OutEmbedded(t: Tables, f: TIStructField, v: Value): Result<string>
    requires ValidTables(t) && ValidField(t, f) && f.knownType == KNode
    decreases v, 1
  {
    var sub :- EmbeddedType(t, f, v);
    var body :- OutFields(t, sub, v.fields, 0);
    Ok("{" + TypeName(t, sub) + " " + Decimal(sub) + body + "}")
  }

  // The three non-recursive kinds whose writers loop, each in a lean context.

  lemma {:induction false} LeafEnum(t: Tables, tag: int, vals: Option<seq<Value>>, f: TIStructField, k: KnownType, v: Value)
    requires ValidTables(t) && 0 <= tag < |t.nodeTypes| && ValidField(t, f)
    requires k == f.knownType || k == f.elemKnownType
    requires vals.Some? ==> |vals.value| == |FieldsOf(t, tag)|
    requires IsEnumLike(k) && v.Scalar?
    ensures OutLeaf(t, tag, vals, f, k, v) == OutEnum(t, f.typeId, v.n)
  {
  }

  lemma {:induction false} LeafString(t: Tables, tag: int, vals: Option<seq<Value>>, f: TIStructField, k: KnownType, v: Value)
    requires ValidTables(t) && 0 <= tag < |t.nodeTypes| && ValidField(t, f)
    requires k == f.knownType || k == f.elemKnownType
    requires vals.Some? ==> |vals.value| == |FieldsOf(t, tag)|
    requires k == KPChar && v.Str? && v.s.Some?
    ensures OutLeaf(t, tag, vals, f, k, v) == Ok(Quoted(v.s.value))
  {
  }

  lemma {:induction false} LeafBitmap(t: Tables, tag: int, vals: Option<seq<Value>>, f: TIStructField, k: KnownType, v: Value)
    requires ValidTables(t) && 0 <= tag < |t.nodeTypes| && ValidField(t, f)
    requires k == f.knownType || k == f.elemKnownType
    requires vals.Some? ==> |vals.value| == |FieldsOf(t, tag)|
    requires k == KPBitmapset && v.Bitmap? && v.members.Some?
    ensures OutLeaf(t, tag, vals, f, k, v) == Ok(BitmapText(v.members.value))
  {
  }

  // ---------------------------------------------------------------------
  // The writer

  /**
   * The text of a node: "<>" exactly for NULL; otherwise a struct is
   * enclosed in braces and a list in parentheses.
   */
  lemma {:induction false} OutNodeDelimited(t: Tables, obj: Option<Node>)
    requires ValidTables(t)
    ensures obj.None? <==> OutNode(t, obj) == Ok("<>")
    ensures obj.Some? && OutNode(t, obj).Ok? ==>
              var x := OutNode(t, obj).value;
              |x| >= 2 && (x[0] == '{' || x[0] == '(')
              && (x[0] == '{' <==> x[|x| - 1] == '}') && (x[0] == '(' <==> x[|x| - 1] == ')')
  {
    if obj.Some? && OutNode(t, obj).Ok? {
      var n := obj.value;
      var tag := NodeTag(t, n).value;
      var x := OutNode(t, obj).value;
      if IsListTag(t, tag) {
        assert x == OutList(t, n).value;
        match n
        case List(cs) =>
          assert x == "(" + OutCells(t, cs, 0).value + ")";
        case OidList(xs) =>
        case IntList(xs) =>
      } else {
        var body := OutFields(t, tag, n.fields, 0).value;
        assert x == "{" + TypeName(t, tag) + " " + Decimal(tag) + body + "}";
      }
      assert x[0] != '<';
    }
  }

  /** A NodeOutContext: the text written so far. */
  class NodeOutContext {
    var str: string

    /** initStringInfo: an empty buffer. */
    constructor ()
      ensures str == ""
    {
      str := "";
    }

    /** nodeout_new_rec. */
    method OutNodeRec(t: Tables, obj: Option<Node>) returns (r: Outcome)
      requires ValidTables(t)
      modifies this
      ensures r == StatusOf(OutNode(t, obj))
      ensures r.Done? ==> str == old(str) + OutNode(t, obj).value
      decreases obj, 2
    {
      if obj.None? {
        str := str + "<>";
        return Done;
      }
      var n := obj.value;
      var tag := NodeTag(t, n);
      if tag.None? {
        return Failed(SchemaError("node without a tag"));
      }
      if IsListTag(t, tag.value) {
        r := OutListRec(t, n);
        return;
      }
      if !(0 <= tag.value < |t.nodeTypes|) {
        return Failed(Undefined("tag outside ti_node_types"));
      }
      if t.nodeTypes[tag.value].size == 0 {
        return Failed(Abort("Assert: node type without a size"));
      }
      if !n.Struct? || |n.fields| != |FieldsOf(t, tag.value)| {
        return Failed(SchemaError("struct does not match its field table"));
      }
      ghost var s0 := str;
      var head := "{" + TypeName(t, tag.value) + " " + Decimal(tag.value);
      str := str + head;
      r := OutFieldsLoop(t, tag.value, n.fields);
      if r.Failed? {
        return;
      }
      ghost var body := OutFields(t, tag.value, n.fields, 0).value;
      str := str + "}";
      ConcatAssoc(s0, head, body);
      ConcatAssoc(s0, head + body, "}");
    }

    /** nodeout_list: the separator goes before every element, the first included. */
    method OutListRec(t: Tables, n: Node) returns (r: Outcome)
      requires ValidTables(t)
      modifies this
      ensures r == StatusOf(OutList(t, n))
      ensures r.Done? ==> str == old(str) + OutList(t, n).value
      decreases Some(n), 1
    {
      if n.Struct? {
        return Failed(SchemaError("struct with a list tag"));
      }
      ghost var s0 := str;
      var open := if n.List? then "(" else if n.OidList? then "(o" else "(i";
      str := str + open;
      ghost var acc := "";
      assert str == (s0 + open) + acc;
      if n.List? {
        var cs := n.cells;
        PrependNothing(OutCells(t, cs, 0));
        for i := 0 to |cs|
          invariant str == (s0 + open) + acc
          invariant OutCells(t, cs, 0) == Prepend(acc, OutCells(t, cs, i))
        {
          str := str + " ";
          r := OutNodeRec(t, cs[i]);
          if r.Failed? {
            return;
          }
          ghost var c := OutNode(t, cs[i]).value;
          ghost var rest := OutCells(t, cs, i + 1);
          ConcatAssoc(s0 + open, acc, " ");
          ConcatAssoc(s0 + open, acc + " ", c);
          ConcatAssoc(acc, " ", c);
          if rest.Ok? {
            ConcatAssoc(acc, " " + c, rest.value);
          }
          acc := acc + " " + c;
        }
        assert acc + "" == acc;
      } else {
        var xs := if n.OidList? then n.oids else n.ints;
        for i := 0 to |xs|
          invariant str == (s0 + open) + acc
          invariant WordList(xs) == acc + WordList(xs[i..])
        {
          var item := " " + Decimal(ToUInt32(xs[i]));
          assert xs[i..][1..] == xs[i + 1..];
          ConcatAssoc(acc, item, WordList(xs[i + 1..]));
          ConcatAssoc(s0 + open, acc, item);
          str := str + item;
          acc := acc + item;
        }
        assert xs[|xs|..] == [];
        assert acc + "" == acc;
      }
      str := str + ")";
      ConcatAssoc(s0, open, acc);
      ConcatAssoc(s0, open + acc, ")");
      r := Done;
    }

    /** nodeout_fields: the loop over the field table. */
    method OutFieldsLoop(t: Tables, tag: int, vals: seq<Value>) returns (r: Outcome)
      requires ValidTables(t) && 0 <= tag < |t.nodeTypes| && |vals| == |FieldsOf(t, tag)|
      modifies this
      ensures r == StatusOf(OutFields(t, tag, vals, 0))
      ensures r.Done? ==> str == old(str) + OutFields(t, tag, vals, 0).value
      decreases vals, 1
    {
      var infos := FieldsOf(t, tag);
      ghost var s0 := str;
      ghost var acc := "";
      PrependNothing(OutFields(t, tag, vals, 0));
      for i := 0 to |vals|
        invariant str == s0 + acc
        invariant OutFields(t, tag, vals, 0) == Prepend(acc, OutFields(t, tag, vals, i))
      {
        if HasFlag(infos[i].flags, TYPE_OUT_IGNORE) {
          continue;
        }
        var head := " :" + StringAt(t, infos[i].name) + " ";
        str := str + head;
        r := OutFieldRec(t, tag, Some(vals), infos[i], vals[i]);
        if r.Failed? {
          return;
        }
        ghost var x := OutField(t, tag, Some(vals), infos[i], vals[i]).value;
        ghost var rest := OutFields(t, tag, vals, i + 1);
        ConcatAssoc(s0, acc, head);
        ConcatAssoc(s0, acc + head, x);
        ConcatAssoc(acc, head, x);
        if rest.Ok? {
          ConcatAssoc(acc, head + x, rest.value);
        }
        acc := acc + head + x;
      }
      assert acc + "" == acc;
      r := Done;
    }

    /** nodeout_field: the switch on the known type. */
    method OutFieldRec(t: Tables, tag: int, vals: Option<seq<Value>>, f: TIStructField, v: Value)
      returns (r: Outcome)
      requires ValidTables(t) && 0 <= tag < |t.nodeTypes| && ValidField(t, f)
      requires vals.Some? ==> |vals.value| == |FieldsOf(t, tag)|
      modifies this
      ensures r == StatusOf(OutField(t, tag, vals, f, v))
      ensures r.Done? ==> str == old(str) + OutField(t, tag, vals, f, v).value
      decreases v, 2
    {
      var k := if vals.None? then f.elemKnownType else f.knownType;
      if k == KNode {
        r := OutEmbeddedRec(t, f, v);
      } else if k == KPPgArr {
        r := OutArrayRec(t, tag, f, v);
      } else if k == KPNode {
        if !v.NodePtr? {
          return Failed(SchemaError("node pointer expected"));
        }
        r := OutNodeRec(t, v.node);
      } else {
        r := OutLeafRec(t, tag, vals, f, k, v);
      }
    }

    /** The kinds that do not recurse; the enum search, strings and integer sets loop. */
    method OutLeafRec(t: Tables, tag: int, vals: Option<seq<Value>>, f: TIStructField, k: KnownType, v: Value)
      returns (r: Outcome)
      requires ValidTables(t) && 0 <= tag < |t.nodeTypes| && ValidField(t, f)
      requires k == f.knownType || k == f.elemKnownType
      requires vals.Some? ==> |vals.value| == |FieldsOf(t, tag)|
      modifies this
      ensures r == StatusOf(OutLeaf(t, tag, vals, f, k, v))
      ensures r.Done? ==> str == old(str) + OutLeaf(t, tag, vals, f, k, v).value
    {
      ghost var s0 := str;
      if IsEnumLike(k) && v.Scalar? {
        var cs := EnumFieldsOf(t, f.typeId);
        var j := FindEnum(cs, ToUInt32(v.n));
        LeafEnum(t, tag, vals, f, k, v);
        if j.None? {
          return Failed(SchemaError("unknown enum value"));
        }
        str := str + StringAt(t, cs[j.value].name);
        return Done;
      } else if k == KPChar && v.Str? && v.s.Some? {
        LeafString(t, tag, vals, f, k, v);
        ghost var inner := if CString(v.s.value) == [] then "" else Token(v.s);
        str := str + "\"";
        if CString(v.s.value) != [] {
          OutToken(v.s);
        } else {
          assert str == str + "";
        }
        assert str == (s0 + "\"") + inner;
        str := str + "\"";
        ConcatAssoc(s0, "\"", inner);
        ConcatAssoc(s0, "\"" + inner, "\"");
        r := Done;
      } else if k == KPBitmapset && v.Bitmap? && v.members.Some? {
        LeafBitmap(t, tag, vals, f, k, v);
        OutBitmapset(v.members.value);
        r := Done;
      } else {
        var x := OutLeaf(t, tag, vals, f, k, v);
        if x.Err? {
          return Failed(x.fault);
        }
        str := str + x.value;
        r := Done;
      }
    }

    /** KNOWN_TYPE_P_PGARR. */
    method OutArrayRec(t: Tables, tag: int, f: TIStructField, v: Value) returns (r: Outcome)
      requires ValidTables(t) && 0 <= tag < |t.nodeTypes| && ValidField(t, f)
      modifies this
      ensures r == StatusOf(OutArray(t, tag, f, v))
      ensures r.Done? ==> str == old(str) + OutArray(t, tag, f, v).value
      decreases v, 1
    {
      if !v.Arr? {
        return Failed(SchemaError("pgarr expected"));
      }
      if v.elems.NullArr? {
        str := str + "<>";
        return Done;
      }
      if f.elemSize == 0 {
        return Failed(Abort("Assert: element size is positive"));
      }
      ghost var s0 := str;
      var count := Decimal(ToUInt32(|v.elems.items|)) + " ";
      str := str + count;
      r := OutElemsLoop(t, tag, f, v);
      if r.Done? {
        ConcatAssoc(s0, count, OutElems(t, tag, f, v, 0).value);
      }
    }

    /** The KNOWN_TYPE_P_PGARR loop: each element, then a space. */
    method OutElemsLoop(t: Tables, tag: int, f: TIStructField, v: Value) returns (r: Outcome)
      requires ValidTables(t) && 0 <= tag < |t.nodeTypes| && ValidField(t, f)
      requires v.Arr? && v.elems.ArrOf?
      modifies this
      ensures r == StatusOf(OutElems(t, tag, f, v, 0))
      ensures r.Done? ==> str == old(str) + OutElems(t, tag, f, v, 0).value
      decreases v, 0
    {
      var es := v.elems.items;
      ghost var s0 := str;
      ghost var acc := "";
      PrependNothing(OutElems(t, tag, f, v, 0));
      for j := 0 to |es|
        invariant str == s0 + acc
        invariant OutElems(t, tag, f, v, 0) == Prepend(acc, OutElems(t, tag, f, v, j))
      {
        assert es[j] < v by {
          assert v == Arr(ArrOf(es));
        }
        r := OutFieldRec(t, tag, None, f, es[j]);
        if r.Failed? {
          return;
        }
        str := str + " ";
        ghost var x := OutField(t, tag, None, f, es[j]).value;
        ghost var rest := OutElems(t, tag, f, v, j + 1);
        ConcatAssoc(s0, acc, x);
        ConcatAssoc(s0, acc + x, " ");
        ConcatAssoc(acc, x, " ");
        if rest.Ok? {
          ConcatAssoc(acc, x + " ", rest.value);
        }
        acc := acc + x + " ";
      }
      assert acc + "" == acc;
      r := Done;
    }

    /** The KNOWN_TYPE_NODE case. */
    method OutEmbeddedRec(t: Tables, f: TIStructField, v: Value) returns (r: Outcome)
      requires ValidTables(t) && ValidField(t, f) && f.knownType == KNode
      modifies this
      ensures r == StatusOf(OutEmbedded(t, f, v))
      ensures r.Done? ==> str == old(str) + OutEmbedded(t, f, v).value
      decreases v, 1
    {
      var sub := EmbeddedType(t, f, v);
      if sub.Err? {
        return Failed(sub.fault);
      }
      ghost var s0 := str;
      var head := "{" + TypeName(t, sub.value) + " " + Decimal(sub.value);
      str := str + head;
      r := OutFieldsLoop(t, sub.value, v.fields);
      if r.Failed? {
        return;
      }
      ghost var body := OutFields(t, sub.value, v.fields, 0).value;
      str := str + "}";
      ConcatAssoc(s0, head, body);
      ConcatAssoc(s0, head + body, "}");
    }

    /** nodeout_bitmapset: the bms_next_member loop. */
    method OutBitmapset(s: set<nat>)
      modifies this
      ensures str == old(str) + BitmapText(s)
    {
      ghost var s0 := str;
      str := str + "(b";
      var rest := s;
      ghost var done := "";
      while rest != {}
        invariant str == (s0 + "(b") + done
        invariant MemberList(Ascending(s)) == done + MemberList(Ascending(rest))
        decreases |rest|
      {
        HasLeast(rest);
        var x :| IsLeast(x, rest);
        var item := " " + Decimal(ToInt32(x));
        MemberListFirst(rest, x);
        ConcatAssoc(done, item, MemberList(Ascending(rest - {x})));
        ConcatAssoc(s0 + "(b", done, item);
        str := str + item;
        done := done + item;
        rest := rest - {x};
      }
      assert MemberList(Ascending(s)) == done by {
        assert Ascending(rest) == [];
        assert done + "" == done;
      }
      ConcatAssoc(s0, "(b", done);
      ConcatAssoc(s0, "(b" + done, ")");
      str := str + ")";
    }

    /** nodeout_token. */
    method OutToken(s: Option<string>)
      modifies this
      ensures str == old(str) + Token(s)
    {
      if s.None? || CString(s.value) == [] {
        str := str + "<>";
        return;
      }
      var x := s.value;
      ghost var s0 := str;
      ghost var done := "";
      var i := 0;
      while i < |x| && x[i] != '\0'
        invariant 0 <= i <= |x|
        invariant str == s0 + done
        invariant Escape(CString(x)) == done + Escape(CString(x[i..]))
        decreases |x| - i
      {
        var c := x[i];
        EscapeStep(x, i);
        ConcatAssoc(done, EscapeChar(c), Escape(CString(x[i + 1..])));
        ConcatAssoc(s0, done, EscapeChar(c));
        if NeedsEscape(c) {
          str := str + "\\";
          ConcatAssoc(s0 + done, "\\", [c]);
          assert "\\" + [c] == EscapeChar(c);
        }
        str := str + [c];
        done := done + EscapeChar(c);
        i := i + 1;
      }
      assert CString(x[i..]) == [];
      assert done + "" == done;
      assert x[0..] == x;
    }
  }

  /** The enum search of nodeout_field. */
  method FindEnum(cs: seq<TIEnumField>, val: int) returns (r: Option<nat>)
    ensures r == EnumIndex(cs, val)
  {
    for i := 0 to |cs|
      invariant EnumIndex(cs, val) == (match EnumIndex(cs[i..], val) case None => None case Some(j) => Some(i + j))
    {
      assert cs[i..][1..] == cs[i + 1..];
      if cs[i].value == val {
        return Some(i);
      }
    }
    return None;
  }

  /** nodeToStringNew: a new buffer, then the node. */
  method NodeToString(t: Tables, obj: Option<Node>) returns (r: Result<string>)
    requires ValidTables(t)
    ensures r == OutNode(t, obj)
  {
    var context := new NodeOutContext();
    var status := context.OutNodeRec(t, obj);
    if status.Failed? {
      return Err(status.fault);
    }
    assert OutNode(t, obj).Ok?;
    assert context.str == "" + OutNode(t, obj).value;
    assert "" + OutNode(t, obj).value == OutNode(t, obj).value;
    return Ok(context.str);
  }
}
