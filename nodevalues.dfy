// Node instances as values. A node is the sequence of its field values, laid
// out as the field table of its type says; the three list kinds are
// sequences. The node tag is not stored separately: as in memory, it is the
// word at offset 0, found by descending through embedded base structs to
// the first NodeTag field. Pointers to nodes, strings, integer sets and
// arrays are optional values; pointer identity is value identity.

module NodeValues {
  import opened Wrappers
  import opened CInt
  import opened NodeInfo

  /** The contents of one field, by the category of its known type. */
  datatype Value =
    | Scalar(n: int)                   // every integer-like category: integers, Oid, enums, NodeTag, Location, opfuncid
    | Bool(b: bool)
    | Char(c: char)
    | Raw(bytes: seq<int>)             // memory the algorithms move as bytes: floats, 128-bit integers, untyped fields, pointers to scalars
    | Embedded(fields: seq<Value>)     // a struct embedded by value (KNOWN_TYPE_NODE)
    | DatumWord(bytes: seq<int>)       // Const.constvalue: the 8 bytes of a by-value word, or the pointed-to bytes ([] is NULL)
    | Union(u: ValUnion)               // Value.val
    | Str(s: Option<string>)           // char *
    | NodePtr(node: Option<Node>)      // Node *
    | Bitmap(members: Option<set<nat>>) // Bitmapset *
    | Arr(elems: ArrRef)               // a pgarr.h array pointer

  /** `union ValUnion`: an int or a string pointer sharing one word. */
  datatype ValUnion = IVal(ival: int) | SVal(str: Option<string>)

  /** A pgarr pointer: NULL, or an array of element values. */
  datatype ArrRef = NullArr | ArrOf(items: seq<Value>)

  datatype Node =
    | Struct(fields: seq<Value>)
    | List(cells: seq<Option<Node>>)
    | IntList(ints: seq<int>)
    | OidList(oids: seq<int>)

  // ---------------------------------------------------------------------
  // Node tags

  /** The word at offset 0 of a struct: its first field, through embedded base structs. */
  function TagWord(fields: seq<Value>): (r: Option<int>)
    ensures |fields| > 0 && fields[0].Scalar? ==> r == Some(fields[0].n)
  {
    if |fields| == 0 then None
    else match fields[0]
      case Scalar(n) => Some(n)
      case Embedded(fs) => TagWord(fs)
      case _ => None
  }

  /** nodeTag(): the tag of a node. */
  function NodeTag(t: Tables, n: Node): Option<int>
  {
    match n
    case Struct(fs) => TagWord(fs)
    case List(_) => Some(t.tags.TList)
    case IntList(_) => Some(t.tags.TIntList)
    case OidList(_) => Some(t.tags.TOidList)
  }

  /** `dst->type = tag`: overwrite the word at offset 0. */
  function SetTag(fields: seq<Value>, tag: int): (r: seq<Value>)
    ensures |r| == |fields|
    ensures |fields| > 0 ==> r[1..] == fields[1..] && TagWord(r) == Some(tag)
  {
    if |fields| == 0 then fields
    else match fields[0]
      case Embedded(fs) =>
        if |fs| > 0 then [Embedded(SetTag(fs, tag))] + fields[1..] else [Scalar(tag)] + fields[1..]
      case _ => [Scalar(tag)] + fields[1..]
  }

  /** Only the tag word changes: re-setting the tag a struct already has changes nothing. */
  lemma {:induction false} SetTagIdentity(fields: seq<Value>, tag: int)
    requires TagWord(fields) == Some(tag)
    ensures SetTag(fields, tag) == fields
    decreases fields
  {
    match fields[0]
    case Embedded(fs) => SetTagIdentity(fs, tag);
    case Scalar(_) =>
    case _ =>
  }

  // ---------------------------------------------------------------------
  // Zeroed memory (palloc0)

  /** The all-zero contents of a field of category `k` and byte size `size`. */
  function ZeroOf(t: Tables, k: KnownType, typeId: int, size: int, owner: int): Value
    requires ValidTables(t) && 0 <= owner < |t.nodeTypes|
    requires k == KNode ==> 0 <= typeId < owner
    decreases owner, 0
  {
    if IsIntegerLike(k) then Scalar(0)
    else if k == KBool then Bool(false)
    else if k == KChar then Char('\0')
    else if k == KNode then Embedded(ZeroFields(t, typeId))
    else if k == KDatum then DatumWord([])
    else if k == KValueUnion then Union(SVal(None))
    else if k == KPChar then Str(None)
    else if k == KPNode then NodePtr(None)
    else if k == KPBitmapset then Bitmap(None)
    else if k == KPPgArr then Arr(NullArr)
    else Raw(seq(if size < 0 then 0 else size, _ => 0))
  }

  /** The fields of a zeroed node of type `tag`, before its tag is set. */
  function ZeroFields(t: Tables, tag: int): (r: seq<Value>)
    requires ValidTables(t) && 0 <= tag < |t.nodeTypes|
    ensures |r| == |FieldsOf(t, tag)|
    decreases tag, 1
  {
    var fs := FieldsOf(t, tag);
    seq(|fs|, k requires 0 <= k < |fs| => ZeroOf(t, fs[k].knownType, fs[k].typeId, fs[k].size, tag))
  }

  /** palloc0 followed by `->type = tag`. */
  function NewNode(t: Tables, tag: int): (r: seq<Value>)
    requires ValidTables(t) && 0 <= tag < |t.nodeTypes|
    ensures |r| == |FieldsOf(t, tag)|
    ensures |r| > 0 ==> TagWord(r) == Some(tag)
  {
    SetTag(ZeroFields(t, tag), tag)
  }

  // ---------------------------------------------------------------------
  // Reading a union and the sibling fields of a Const

  /** `val.ival`: a zero word reads as 0; a string pointer is not an int. */
  function UnionIval(u: ValUnion): Result<int>
  {
    match u
    case IVal(i) => Ok(i)
    case SVal(None) => Ok(0)
    case SVal(Some(_)) => Err(SchemaError("string union read as integer"))
  }

  /** `val.str`: a zero word reads as NULL; a nonzero int is not a pointer. */
  function UnionStr(u: ValUnion): Result<Option<string>>
  {
    match u
    case SVal(s) => Ok(s)
    case IVal(0) => Ok(None)
    case IVal(_) => Err(SchemaError("integer union read as string"))
  }

  /** The index of the first field named `name`, if any. */
  function FieldNamed(t: Tables, infos: seq<TIStructField>, name: string): (r: Option<nat>)
    requires ValidTables(t) && forall k :: 0 <= k < |infos| ==> ValidField(t, infos[k])
    ensures r.Some? ==> r.value < |infos| && ValidField(t, infos[r.value]) && StringAt(t, infos[r.value].name) == name
    ensures r.Some? ==> forall k :: 0 <= k < r.value && ValidField(t, infos[k]) ==> StringAt(t, infos[k].name) != name
    ensures r.None? ==> forall k :: 0 <= k < |infos| && ValidField(t, infos[k]) ==> StringAt(t, infos[k].name) != name
  {
    if |infos| == 0 then None
    else if ValidField(t, infos[0]) && StringAt(t, infos[0].name) == name then Some(0)
    else match FieldNamed(t, infos[1..], name)
      case None => None
      case Some(k) => Some(k + 1)
  }

  /** A bool field of the struct being walked, looked up by name (`cobj->constisnull`). */
  function BoolField(t: Tables, infos: seq<TIStructField>, vals: seq<Value>, name: string): Result<bool>
    requires ValidTables(t) && forall k :: 0 <= k < |infos| ==> ValidField(t, infos[k])
  {
    match FieldNamed(t, infos, name)
    case None => Err(SchemaError("struct has no field " + name))
    case Some(k) =>
      if k < |vals| && vals[k].Bool? then Ok(vals[k].b) else Err(SchemaError("field is not a bool: " + name))
  }

  /** An int field of the struct being walked, looked up by name (`cobj->constlen`). */
  function IntField(t: Tables, infos: seq<TIStructField>, vals: seq<Value>, name: string): Result<int>
    requires ValidTables(t) && forall k :: 0 <= k < |infos| ==> ValidField(t, infos[k])
  {
    match FieldNamed(t, infos, name)
    case None => Err(SchemaError("struct has no field " + name))
    case Some(k) =>
      if k < |vals| && vals[k].Scalar? then Ok(vals[k].n) else Err(SchemaError("field is not an integer: " + name))
  }

  // ---------------------------------------------------------------------
  // Characters the text format treats specially

  /** The C string a `char *` designates: its bytes up to the first NUL. */
  function CString(s: string): (r: string)
    ensures '\0' !in s ==> r == s
    ensures '\0' !in r && r <= s
  {
    if |s| == 0 || s[0] == '\0' then [] else [s[0]] + CString(s[1..])
  }


  /** The separators the tokenizer skips. */
  predicate IsBlank(c: char) { c == ' ' || c == '\n' || c == '\t' }

  /** The one-character tokens. */
  predicate IsBracket(c: char) { c == '(' || c == ')' || c == '{' || c == '}' }

  /** The characters nodeout_token protects with a backslash. */
  predicate NeedsEscape(c: char) { IsBlank(c) || IsBracket(c) || c == '\\' }

  /** A string that is one token read back verbatim: Float and BitString values. */
  predicate PlainToken(s: string)
  {
    |s| > 0 && s != "<>" && forall i :: 0 <= i < |s| ==> !NeedsEscape(s[i]) && s[i] != '\0'
  }

  // ---------------------------------------------------------------------
  // The values a node of the tables can hold

  /** Bytes as `(int) (char) b` prints them. */
  predicate SignedBytes(bs: seq<int>)
  {
    forall i :: 0 <= i < |bs| ==> INT8_MIN <= bs[i] <= INT8_MAX
  }

  predicate IsNodeType(t: Tables, tag: int)
  {
    0 <= tag < |t.nodeTypes| && !IsListTag(t, tag)
  }

  /**
   * A well-formed node: a struct whose tag names a node type and whose
   * fields hold values of their categories, or a non-empty list (the empty
   * list is NIL, a NULL pointer) of in-range elements.
   */
  predicate ConformsNode(t: Tables, n: Node)
    requires ValidTables(t)
    decreases n
  {
    match n
    case Struct(fs) =>
      TagWord(fs).Some? && IsNodeType(t, TagWord(fs).value)
      && ConformsFields(t, TagWord(fs).value, FieldsOf(t, TagWord(fs).value), fs)
    case List(cs) => |cs| > 0 && forall k :: 0 <= k < |cs| ==> cs[k].Some? ==> ConformsNode(t, cs[k].value)
    case IntList(xs) => |xs| > 0 && forall k :: 0 <= k < |xs| ==> IsInt32(xs[k])
    case OidList(xs) => |xs| > 0 && forall k :: 0 <= k < |xs| ==> IsUInt32(xs[k])
  }

  /** The fields `vals` of a struct of type `tag` (possibly embedded) match their table entries. */
  predicate ConformsFields(t: Tables, tag: int, infos: seq<TIStructField>, vals: seq<Value>)
    requires ValidTables(t) && 0 <= tag < |t.nodeTypes| && infos == FieldsOf(t, tag)
    decreases vals
  {
    |vals| == |infos| && forall k :: 0 <= k < |vals| ==> ConformsValue(t, tag, infos, vals, infos[k], vals[k])
  }

  predicate ConformsValue(t: Tables, tag: int, infos: seq<TIStructField>, vals: seq<Value>,
                          f: TIStructField, v: Value)
    requires ValidTables(t) && 0 <= tag < |t.nodeTypes| && infos == FieldsOf(t, tag) && ValidField(t, f)
    decreases v, 1
  {
    var k := f.knownType;
    if k == KNode then ConformsEmbedded(t, f, v)
    else if k == KDatum then ConformsDatum(t, infos, vals, v)
    else if k == KValueUnion then v.Union? && TagWord(vals).Some? && ConformsUnion(t, TagWord(vals).value, v.u)
    else if k == KPNode then v.NodePtr? && (v.node.Some? ==> ConformsNode(t, v.node.value))
    else if k == KPPgArr then ConformsArray(t, f, v)
    else ConformsElem(t, f, k, v)
  }

  /** An embedded struct: laid out as the declared type at offset 0, else as a same-sized type named by its own tag. */
  predicate ConformsEmbedded(t: Tables, f: TIStructField, v: Value)
    requires ValidTables(t) && ValidField(t, f) && f.knownType == KNode
    decreases v, 0
  {
    v.Embedded? &&
    (if f.offset == 0 then ConformsFields(t, f.typeId, FieldsOf(t, f.typeId), v.fields)
     else TagWord(v.fields).Some? && IsNodeType(t, TagWord(v.fields).value)
          && t.nodeTypes[TagWord(v.fields).value].size == t.nodeTypes[f.typeId].size
          && ConformsFields(t, TagWord(v.fields).value, FieldsOf(t, TagWord(v.fields).value), v.fields))
  }

  /** The Datum of a Const: its siblings constbyval, constisnull and constlen exist, and a by-value datum is one word. */
  predicate ConformsDatum(t: Tables, infos: seq<TIStructField>, vals: seq<Value>, v: Value)
    requires ValidTables(t) && forall k :: 0 <= k < |infos| ==> ValidField(t, infos[k])
  {
    v.DatumWord? && SignedBytes(v.bytes)
    && BoolField(t, infos, vals, "constbyval").Ok? && BoolField(t, infos, vals, "constisnull").Ok?
    && IntField(t, infos, vals, "constlen").Ok?
    && (BoolField(t, infos, vals, "constbyval").value ==> |v.bytes| == 8)
  }

  /** A pgarr: NULL, or at most UINT32_MAX elements of the element category. */
  predicate ConformsArray(t: Tables, f: TIStructField, v: Value)
  {
    v.Arr? && (v.elems.ArrOf? ==>
      |v.elems.items| <= UINT32_MAX
      && forall k :: 0 <= k < |v.elems.items| ==> ConformsElem(t, f, f.elemKnownType, v.elems.items[k]))
  }

  /** A value of a category that needs neither the enclosing struct nor recursion. */
  predicate ConformsElem(t: Tables, f: TIStructField, k: KnownType, v: Value)
  {
    if IsIntegerLike(k) then v.Scalar? && InRangeOf(k, v.n)
    else if k == KBool then v.Bool?
    else if k == KChar then v.Char?
    else if k == KPChar then v.Str? && (v.s.Some? ==> '\0' !in v.s.value)
    else if k == KPBitmapset then v.Bitmap?
    else if k in {KNode, KDatum, KValueUnion, KPNode, KPPgArr} then false
    else v.Raw?
  }

  /** The union of a Value node holds what its tag says. */
  predicate ConformsUnion(t: Tables, tag: int, u: ValUnion)
  {
    if tag == t.tags.TInteger then u.IVal? && IsInt32(u.ival)
    else if tag == t.tags.TString then u.SVal? && u.str.Some? && '\0' !in u.str.value
    else if tag == t.tags.TFloat || tag == t.tags.TBitString then u.SVal? && u.str.Some? && PlainToken(u.str.value)
    else if tag == t.tags.TNull then u == SVal(None)
    else false
  }
}
