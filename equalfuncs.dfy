// Table-driven node equality (src/backend/nodes/equalfuncs_new.c). Two
// nodes are compared by tag, then list-wise or field by field along their
// type's slice of the field table, dispatching on each field's known type.
// The walk only reads, so it is a family of recursive functions; each loop
// with an early `return false` is a function over the loop index. An
// elog(ERROR) or a read outside a table is an `Err`.

module EqualFuncs {
  import opened Wrappers
  import opened CInt
  import opened NodeInfo
  import opened NodeValues

  /** pgarr_size(): 0 for a NULL array. */
  function ArrLen(a: ArrRef): nat
  {
    if a.NullArr? then 0 else |a.items|
  }

  /** The members of a Bitmapset; NULL is the empty set. */
  function Members(b: Option<set<nat>>): set<nat>
  {
    if b.None? then {} else b.value
  }

  /** nodes_equal_new_rec_real: identical references are equal; otherwise compare contents. */
  function Equal(t: Tables, a: Option<Node>, b: Option<Node>): (r: Result<bool>)
    requires ValidTables(t)
    ensures a == b ==> r == Ok(true)
    ensures a.None? != b.None? ==> r == Ok(false)
    decreases a, 1
  {
    if a == b then Ok(true) else EqualContents(t, a, b)
  }

  /**
   * The comparison after the identity test: a NULL against anything else
   * is unequal, different tags are unequal, lists compare as lists and
   * every other node field by field.
   */
  function EqualContents(t: Tables, a: Option<Node>, b: Option<Node>): (r: Result<bool>)
    requires ValidTables(t)
    ensures a.None? || b.None? ==> r == Ok(false)
    ensures (a.Some? && b.Some? && NodeTag(t, a.value).Some? && NodeTag(t, b.value).Some?
             && NodeTag(t, a.value) != NodeTag(t, b.value)) ==> r == Ok(false)
    decreases a, 0
  {
    if a.None? || b.None? then Ok(false)
    else
      var ta := NodeTag(t, a.value);
      var tb := NodeTag(t, b.value);
      if ta.None? || tb.None? then Err(SchemaError("node without a tag"))
      else if ta != tb then Ok(false)
      else if IsListTag(t, ta.value) then EqualList(t, ta.value, a.value, b.value)
      else if !(0 <= ta.value < |t.nodeTypes|) then Err(Undefined("tag outside ti_node_types"))
      else if !a.value.Struct? || !b.value.Struct? then Err(SchemaError("list tag mismatch"))
      else EqualFields(t, ta.value, a.value.fields, b.value.fields)
  }

  /** nodes_equal_list: equal lengths, then element-wise (deep for node lists). */
  function EqualList(t: Tables, tag: int, a: Node, b: Node): (r: Result<bool>)
    requires ValidTables(t) && IsListTag(t, tag)
    ensures a.IntList? && b.IntList? && tag == t.tags.TIntList ==> r == Ok(a.ints == b.ints)
    ensures a.OidList? && b.OidList? && tag == t.tags.TOidList ==> r == Ok(a.oids == b.oids)
    ensures a.List? && b.List? && tag == t.tags.TList && |a.cells| != |b.cells| ==> r == Ok(false)
    decreases a, 0
  {
    if tag == t.tags.TList then
      if !a.List? || !b.List? then Err(SchemaError("not a List"))
      else if |a.cells| != |b.cells| then Ok(false)
      else EqualCells(t, a.cells, b.cells, 0)
    else if tag == t.tags.TOidList then
      if !a.OidList? || !b.OidList? then Err(SchemaError("not an OID List"))
      else if |a.oids| != |b.oids| then Ok(false)
      else Ok(a.oids == b.oids)
    else
      if !a.IntList? || !b.IntList? then Err(SchemaError("not an integer List"))
      else if |a.ints| != |b.ints| then Ok(false)
      else Ok(a.ints == b.ints)
  }

  /** The forboth loop over the cells of two node lists of one length, from cell i. */
  function EqualCells(t: Tables, a: seq<Option<Node>>, b: seq<Option<Node>>, i: nat): (r: Result<bool>)
    requires ValidTables(t) && |a| == |b| && i <= |a|
    ensures r == Ok(true) <==> forall k :: i <= k < |a| ==> Equal(t, a[k], b[k]) == Ok(true)
    decreases a, |a| - i
  {
    if i == |a| then Ok(true)
    else match Equal(t, a[i], b[i])
      case Err(e) => Err(e)
      case Ok(false) => Ok(false)
      case Ok(true) => EqualCells(t, a, b, i + 1)
  }

  /** nodes_equal_fields on two structs laid out as node type `tag`. */
  function EqualFields(t: Tables, tag: int, a: seq<Value>, b: seq<Value>): (r: Result<bool>)
    requires ValidTables(t) && 0 <= tag < |t.nodeTypes|
    ensures r == Ok(true) <==>
      |a| == |b| == |FieldsOf(t, tag)| &&
      forall k :: 0 <= k < |a| && !HasFlag(FieldsOf(t, tag)[k].flags, TYPE_EQUAL_IGNORE) ==>
        EqualField(t, tag, a, b, FieldsOf(t, tag)[k], a[k], b[k]) == Ok(true)
    decreases a, 2
  {
    var infos := FieldsOf(t, tag);
    if |a| != |infos| || |b| != |infos| then Err(SchemaError("struct does not match its field table"))
    else EqualFieldsFrom(t, tag, a, b, 0)
  }

  /** The field loop from field i on: EQUAL_IGNORE fields are skipped, and the first unequal field ends it. */
  function EqualFieldsFrom(t: Tables, tag: int, a: seq<Value>, b: seq<Value>, i: nat): (r: Result<bool>)
    requires ValidTables(t) && 0 <= tag < |t.nodeTypes|
    requires |a| == |b| == |FieldsOf(t, tag)| && i <= |a|
    ensures r == Ok(true) <==>
      forall k :: i <= k < |a| && !HasFlag(FieldsOf(t, tag)[k].flags, TYPE_EQUAL_IGNORE) ==>
        EqualField(t, tag, a, b, FieldsOf(t, tag)[k], a[k], b[k]) == Ok(true)
    decreases a, 1, |a| - i
  {
    var infos := FieldsOf(t, tag);
    if i == |a| then Ok(true)
    else
      var rest := EqualFieldsFrom(t, tag, a, b, i + 1);
      if HasFlag(infos[i].flags, TYPE_EQUAL_IGNORE) then rest
      else match EqualField(t, tag, a, b, infos[i], a[i], b[i])
        case Err(e) => Err(e)
        case Ok(false) => Ok(false)
        case Ok(true) => rest
  }

  /**
   * One field: `a`/`b` are the structs being walked (for the Const
   * siblings and the Value tag), `va`/`vb` the field's contents in each.
   */
  function EqualField(t: Tables, tag: int, a: seq<Value>, b: seq<Value>,
                      f: TIStructField, va: Value, vb: Value): (r: Result<bool>)
    requires ValidTables(t) && 0 <= tag < |t.nodeTypes| && ValidField(t, f)
    requires |a| == |b| == |FieldsOf(t, tag)|
    requires va in a
    ensures !EqualSpecialKind(f.knownType) ==>
      (r.Ok? <==> HasFlag(f.flags, TYPE_CAT_SCALAR)) && (r == Ok(true) <==> r.Ok? && va == vb)
    ensures f.knownType == KPNode && va.NodePtr? && vb.NodePtr? ==> r == Equal(t, va.node, vb.node)
    decreases va, 1
  {
    var k := f.knownType;
    if k == KNode then EqualEmbedded(t, f, va, vb)
    else if k == KDatum then EqualDatum(t, tag, a, b, va, vb)
    else if k == KValueUnion then EqualValueField(t, a, va, vb)
    else if k == KOpFuncId then EqualOpFuncId(va, vb)
    else if k == KPPgArr then EqualArrays(va, vb)
    else if k == KPBitmapset then EqualBitmaps(va, vb)
    else if k == KPNode then EqualNodePtrs(t, va, vb)
    else if k == KPChar then EqualStrings(va, vb)
    else EqualScalar(f, va, vb)
  }

  /** A struct embedded at f's offset, laid out as the declared type at offset 0 and as its own tag elsewhere. */
  function EqualEmbedded(t: Tables, f: TIStructField, va: Value, vb: Value): (r: Result<bool>)
    requires ValidTables(t) && ValidField(t, f) && f.knownType == KNode
    ensures va.Embedded? && vb.Embedded? && f.offset == 0 ==> r == EqualFields(t, f.typeId, va.fields, vb.fields)
    ensures (va.Embedded? && vb.Embedded? && f.offset != 0 && TagWord(va.fields).Some?
             && TagWord(vb.fields) != TagWord(va.fields)) ==> r == Ok(false)
    decreases va, 0
  {
    if !va.Embedded? || !vb.Embedded? then Err(SchemaError("embedded struct expected"))
    else if f.offset == 0 then
      // shares the parent's tag word: the declared type decides the layout
      EqualFields(t, f.typeId, va.fields, vb.fields)
    else
      match TagWord(va.fields)
      case None => Err(SchemaError("embedded struct without a tag"))
      case Some(sub) =>
        if TagWord(vb.fields) != Some(sub) then Ok(false)
        else if !(0 <= sub < |t.nodeTypes|) then Err(Undefined("tag outside ti_node_types"))
        else EqualFields(t, sub, va.fields, vb.fields)
  }

  /** The Datum of a Const: two NULL constants are equal, otherwise the datum bytes decide. */
  function EqualDatum(t: Tables, tag: int, a: seq<Value>, b: seq<Value>, va: Value, vb: Value): (r: Result<bool>)
    requires ValidTables(t) && 0 <= tag < |t.nodeTypes|
    ensures (BoolField(t, FieldsOf(t, tag), a, "constisnull") == Ok(true)
             && BoolField(t, FieldsOf(t, tag), b, "constisnull") == Ok(true)) ==> r == Ok(true)
  {
    var infos := FieldsOf(t, tag);
    var nullA := BoolField(t, infos, a, "constisnull");
    var nullB := BoolField(t, infos, b, "constisnull");
    if nullA.Err? then Err(nullA.fault)
    else if nullB.Err? then Err(nullB.fault)
    else if nullA.value && nullB.value then Ok(true)
    else if !va.DatumWord? || !vb.DatumWord? then Err(SchemaError("Datum expected"))
    else Ok(va.bytes == vb.bytes)
  }

  /** The union of a Value node, read by the tag of the struct `a`. */
  function EqualValueField(t: Tables, a: seq<Value>, va: Value, vb: Value): (r: Result<bool>)
    requires DistinctTags(t.tags)
    ensures r == Ok(true) <==> va.Union? && vb.Union? && TagWord(a).Some? && UnionAgrees(t, TagWord(a).value, va.u, vb.u)
  {
    if !va.Union? || !vb.Union? then Err(SchemaError("value union expected"))
    else match TagWord(a)
      case None => Err(SchemaError("Value without a tag"))
      case Some(vtag) => EqualUnion(t, vtag, va.u, vb.u)
  }

  /** opfuncid may differ when either side is still 0 (not yet looked up). */
  function EqualOpFuncId(va: Value, vb: Value): (r: Result<bool>)
    ensures va.Scalar? && vb.Scalar? ==> r.Ok? && (r.value <==> va.n == vb.n || va.n == 0 || vb.n == 0)
  {
    if !va.Scalar? || !vb.Scalar? then Err(SchemaError("Oid expected"))
    else Ok(!(va.n != vb.n && va.n != 0 && vb.n != 0))
  }

  /** Identical arrays are equal; otherwise only the sizes are compared (the memcmp compares arr_a with itself). */
  function EqualArrays(va: Value, vb: Value): (r: Result<bool>)
    ensures va.Arr? && vb.Arr? ==> r == Ok(ArrLen(va.elems) == ArrLen(vb.elems))
  {
    if !va.Arr? || !vb.Arr? then Err(SchemaError("array expected"))
    else if va == vb then Ok(true)
    else Ok(ArrLen(va.elems) == ArrLen(vb.elems))
  }

  /** bms_equal: the same members, NULL being the empty set. */
  function EqualBitmaps(va: Value, vb: Value): (r: Result<bool>)
    ensures va.Bitmap? && vb.Bitmap? ==> r == Ok(Members(va.members) == Members(vb.members))
  {
    if !va.Bitmap? || !vb.Bitmap? then Err(SchemaError("Bitmapset expected"))
    else if va == vb then Ok(true)
    else Ok(Members(va.members) == Members(vb.members))
  }

  /** A node pointer: identical is equal, one NULL is unequal, otherwise recurse. */
  function EqualNodePtrs(t: Tables, va: Value, vb: Value): (r: Result<bool>)
    requires ValidTables(t)
    ensures va.NodePtr? && vb.NodePtr? ==> r == Equal(t, va.node, vb.node)
    decreases va, 0
  {
    if !va.NodePtr? || !vb.NodePtr? then Err(SchemaError("node pointer expected"))
    else if va == vb then Ok(true)
    else if va.node.None? || vb.node.None? then Ok(false)
    else Equal(t, va.node, vb.node)
  }

  /** A `char *`: identical is equal, one NULL is unequal, otherwise strcmp. */
  function EqualStrings(va: Value, vb: Value): (r: Result<bool>)
    ensures va.Str? && vb.Str? && va.s.Some? && vb.s.Some? ==>
      r == Ok(CString(va.s.value) == CString(vb.s.value))
    ensures va.Str? && vb.Str? ==> (r == Ok(true) <==> StrAgrees(va.s, vb.s))
  {
    if !va.Str? || !vb.Str? then Err(SchemaError("string expected"))
    else if va == vb then Ok(true)
    else if va.s.None? || vb.s.None? then Ok(false)
    else Ok(CString(va.s.value) == CString(vb.s.value))
  }

  /** Any other field: memcmp when the type is scalar, an error otherwise. */
  function EqualScalar(f: TIStructField, va: Value, vb: Value): (r: Result<bool>)
    ensures HasFlag(f.flags, TYPE_CAT_SCALAR) <==> r.Ok?
    ensures r.Ok? ==> (r.value <==> va == vb)
  {
    ScalarOrForceScalarIsCatScalar(f.flags);
    if HasFlag(f.flags, ScalarOrForceScalar) then Ok(va == vb)
    else Err(SchemaError("don't know how to copy field"))
  }

  /** nodes_equal_value_union: by the Value's tag. */
  function EqualUnion(t: Tables, tag: int, a: ValUnion, b: ValUnion): (r: Result<bool>)
    requires DistinctTags(t.tags)
    ensures tag == t.tags.TNull ==> r == Ok(true)
    ensures tag == t.tags.TInteger && a.IVal? && b.IVal? ==> r == Ok(a.ival == b.ival)
    ensures IsStringTag(t, tag) && a.SVal? && a == b ==> r == Ok(true)
    ensures IsStringTag(t, tag) && a.SVal? && b.SVal? && a.str.None? != b.str.None? ==> r == Ok(false)
    ensures IsStringTag(t, tag) && a.SVal? && b.SVal? && a.str.Some? && b.str.Some? ==>
      r == Ok(CString(a.str.value) == CString(b.str.value))
    ensures !IsValueTag(t, tag) ==> r.Err?
    ensures r == Ok(true) <==> UnionAgrees(t, tag, a, b)
  {
    if tag == t.tags.TInteger then
      var x := UnionIval(a);
      var y := UnionIval(b);
      if x.Err? then Err(x.fault) else if y.Err? then Err(y.fault) else Ok(x.value == y.value)
    else if IsStringTag(t, tag) then
      var x := UnionStr(a);
      var y := UnionStr(b);
      if x.Err? then Err(x.fault)
      else if y.Err? then Err(y.fault)
      else if x.value == y.value then Ok(true)
      else if x.value.None? || y.value.None? then Ok(false)
      else Ok(CString(x.value.value) == CString(y.value.value))
    else if tag == t.tags.TNull then Ok(true)
    else Err(Undefined("pg_unreachable: not a Value tag"))
  }

  // ---------------------------------------------------------------------
  // What the comparison means

  /** The Value tags whose union holds a string: T_Float, T_String and T_BitString. */
  predicate IsStringTag(t: Tables, tag: int)
  {
    tag == t.tags.TFloat || tag == t.tags.TString || tag == t.tags.TBitString
  }

  /** Two `char *` values agree when both are NULL, or both are set and equal as C strings. */
  predicate StrAgrees(x: Option<string>, y: Option<string>)
  {
    (x.None? && y.None?) || (x.Some? && y.Some? && CString(x.value) == CString(y.value))
  }

  /**
   * Two Value unions agree under `tag`: integers by value, strings as C
   * strings (both NULL agreeing), and any two T_Null values.
   */
  predicate UnionAgrees(t: Tables, tag: int, a: ValUnion, b: ValUnion)
  {
    if tag == t.tags.TInteger then UnionIval(a).Ok? && UnionIval(b).Ok? && UnionIval(a).value == UnionIval(b).value
    else if IsStringTag(t, tag) then UnionStr(a).Ok? && UnionStr(b).Ok? && StrAgrees(UnionStr(a).value, UnionStr(b).value)
    else tag == t.tags.TNull
  }

  /**
   * One compared field of two structs of type `tag` agrees: sub-structs of
   * one layout whose fields compare equal in turn, Const datums that are
   * both NULL or hold the same bytes, Value unions that agree, an opfuncid
   * that matches or is still 0 on either side, arrays of one size (their
   * elements are not compared), bitmaps with the same members, pointed-to
   * nodes that compare equal, strings equal as C strings, and identical
   * scalars.
   */
  predicate FieldAgrees(t: Tables, tag: int, a: seq<Value>, b: seq<Value>, f: TIStructField, va: Value, vb: Value)
    requires ValidTables(t) && 0 <= tag < |t.nodeTypes| && ValidField(t, f)
  {
    var k := f.knownType;
    if k == KNode then
      va.Embedded? && vb.Embedded? &&
      if f.offset == 0 then EqualFields(t, f.typeId, va.fields, vb.fields) == Ok(true)
      else
        && TagWord(va.fields).Some? && TagWord(vb.fields) == TagWord(va.fields)
        && 0 <= TagWord(va.fields).value < |t.nodeTypes|
        && EqualFields(t, TagWord(va.fields).value, va.fields, vb.fields) == Ok(true)
    else if k == KDatum then
      var nullA := BoolField(t, FieldsOf(t, tag), a, "constisnull");
      var nullB := BoolField(t, FieldsOf(t, tag), b, "constisnull");
      && nullA.Ok? && nullB.Ok?
      && ((nullA.value && nullB.value) || (va.DatumWord? && vb.DatumWord? && va.bytes == vb.bytes))
    else if k == KValueUnion then va.Union? && vb.Union? && TagWord(a).Some? && UnionAgrees(t, TagWord(a).value, va.u, vb.u)
    else if k == KOpFuncId then va.Scalar? && vb.Scalar? && (va.n == vb.n || va.n == 0 || vb.n == 0)
    else if k == KPPgArr then va.Arr? && vb.Arr? && ArrLen(va.elems) == ArrLen(vb.elems)
    else if k == KPBitmapset then va.Bitmap? && vb.Bitmap? && Members(va.members) == Members(vb.members)
    else if k == KPNode then va.NodePtr? && vb.NodePtr? && Equal(t, va.node, vb.node) == Ok(true)
    else if k == KPChar then va.Str? && vb.Str? && StrAgrees(va.s, vb.s)
    else HasFlag(f.flags, TYPE_CAT_SCALAR) && va == vb
  }

  /** Two structs of type `tag` match: every field not marked EQUAL_IGNORE agrees. */
  predicate FieldsMatch(t: Tables, tag: int, a: seq<Value>, b: seq<Value>)
    requires ValidTables(t) && 0 <= tag < |t.nodeTypes|
  {
    var infos := FieldsOf(t, tag);
    && |a| == |b| == |infos|
    && forall k :: 0 <= k < |a| && !HasFlag(infos[k].flags, TYPE_EQUAL_IGNORE) ==>
         FieldAgrees(t, tag, a, b, infos[k], a[k], b[k])
  }

  /** nodes_equal_fields accepts one field exactly when the field agrees. */
  lemma {:induction false} FieldAgreesIffEqual(t: Tables, tag: int, a: seq<Value>, b: seq<Value>,
                                               f: TIStructField, va: Value, vb: Value)
    requires ValidTables(t) && 0 <= tag < |t.nodeTypes| && ValidField(t, f)
    requires |a| == |b| == |FieldsOf(t, tag)| && va in a
    ensures EqualField(t, tag, a, b, f, va, vb) == Ok(true) <==> FieldAgrees(t, tag, a, b, f, va, vb)
  {
    var k := f.knownType;
    if k == KNode {
      EmbeddedAgreesIffEqual(t, tag, a, b, f, va, vb);
    } else if k == KDatum {
      DatumAgreesIffEqual(t, tag, a, b, f, va, vb);
    } else if k == KValueUnion {
      UnionAgreesIffEqual(t, tag, a, b, f, va, vb);
    } else if k == KOpFuncId {
      OpFuncIdAgreesIffEqual(t, tag, a, b, f, va, vb);
    } else if k == KPPgArr {
      ArrayAgreesIffEqual(t, tag, a, b, f, va, vb);
    } else if k == KPBitmapset {
      BitmapAgreesIffEqual(t, tag, a, b, f, va, vb);
    } else if k == KPNode {
      NodePtrAgreesIffEqual(t, tag, a, b, f, va, vb);
    } else if k == KPChar {
      StringAgreesIffEqual(t, tag, a, b, f, va, vb);
    } else {
      ScalarAgreesIffEqual(t, tag, a, b, f, va, vb);
    }
  }

  lemma {:induction false} EmbeddedAgreesIffEqual(t: Tables, tag: int, a: seq<Value>, b: seq<Value>,
                                                   f: TIStructField, va: Value, vb: Value)
    requires ValidTables(t) && 0 <= tag < |t.nodeTypes| && ValidField(t, f) && f.knownType == KNode
    requires |a| == |b| == |FieldsOf(t, tag)| && va in a
    ensures EqualField(t, tag, a, b, f, va, vb) == Ok(true) <==> FieldAgrees(t, tag, a, b, f, va, vb)
  {
    assert EqualField(t, tag, a, b, f, va, vb) == EqualEmbedded(t, f, va, vb);
  }

  lemma {:induction false} DatumAgreesIffEqual(t: Tables, tag: int, a: seq<Value>, b: seq<Value>,
                                                f: TIStructField, va: Value, vb: Value)
    requires ValidTables(t) && 0 <= tag < |t.nodeTypes| && ValidField(t, f) && f.knownType == KDatum
    requires |a| == |b| == |FieldsOf(t, tag)| && va in a
    ensures EqualField(t, tag, a, b, f, va, vb) == Ok(true) <==> FieldAgrees(t, tag, a, b, f, va, vb)
  {
    assert EqualField(t, tag, a, b, f, va, vb) == EqualDatum(t, tag, a, b, va, vb);
  }

  lemma {:induction false} UnionAgreesIffEqual(t: Tables, tag: int, a: seq<Value>, b: seq<Value>,
                                                f: TIStructField, va: Value, vb: Value)
    requires ValidTables(t) && 0 <= tag < |t.nodeTypes| && ValidField(t, f) && f.knownType == KValueUnion
    requires |a| == |b| == |FieldsOf(t, tag)| && va in a
    ensures EqualField(t, tag, a, b, f, va, vb) == Ok(true) <==> FieldAgrees(t, tag, a, b, f, va, vb)
  {
    assert EqualField(t, tag, a, b, f, va, vb) == EqualValueField(t, a, va, vb);
  }

  lemma {:induction false} OpFuncIdAgreesIffEqual(t: Tables, tag: int, a: seq<Value>, b: seq<Value>,
                                                   f: TIStructField, va: Value, vb: Value)
    requires ValidTables(t) && 0 <= tag < |t.nodeTypes| && ValidField(t, f) && f.knownType == KOpFuncId
    requires |a| == |b| == |FieldsOf(t, tag)| && va in a
    ensures EqualField(t, tag, a, b, f, va, vb) == Ok(true) <==> FieldAgrees(t, tag, a, b, f, va, vb)
  {
    assert EqualField(t, tag, a, b, f, va, vb) == EqualOpFuncId(va, vb);
  }

  lemma {:induction false} ArrayAgreesIffEqual(t: Tables, tag: int, a: seq<Value>, b: seq<Value>,
                                                f: TIStructField, va: Value, vb: Value)
    requires ValidTables(t) && 0 <= tag < |t.nodeTypes| && ValidField(t, f) && f.knownType == KPPgArr
    requires |a| == |b| == |FieldsOf(t, tag)| && va in a
    ensures EqualField(t, tag, a, b, f, va, vb) == Ok(true) <==> FieldAgrees(t, tag, a, b, f, va, vb)
  {
    assert EqualField(t, tag, a, b, f, va, vb) == EqualArrays(va, vb);
    if !va.Arr? || !vb.Arr? {
      assert !FieldAgrees(t, tag, a, b, f, va, vb);
    }
  }

  lemma {:induction false} BitmapAgreesIffEqual(t: Tables, tag: int, a: seq<Value>, b: seq<Value>,
                                                 f: TIStructField, va: Value, vb: Value)
    requires ValidTables(t) && 0 <= tag < |t.nodeTypes| && ValidField(t, f) && f.knownType == KPBitmapset
    requires |a| == |b| == |FieldsOf(t, tag)| && va in a
    ensures EqualField(t, tag, a, b, f, va, vb) == Ok(true) <==> FieldAgrees(t, tag, a, b, f, va, vb)
  {
    assert EqualField(t, tag, a, b, f, va, vb) == EqualBitmaps(va, vb);
  }

  lemma {:induction false} NodePtrAgreesIffEqual(t: Tables, tag: int, a: seq<Value>, b: seq<Value>,
                                                  f: TIStructField, va: Value, vb: Value)
    requires ValidTables(t) && 0 <= tag < |t.nodeTypes| && ValidField(t, f) && f.knownType == KPNode
    requires |a| == |b| == |FieldsOf(t, tag)| && va in a
    ensures EqualField(t, tag, a, b, f, va, vb) == Ok(true) <==> FieldAgrees(t, tag, a, b, f, va, vb)
  {
    assert EqualField(t, tag, a, b, f, va, vb) == EqualNodePtrs(t, va, vb);
  }

  lemma {:induction false} StringAgreesIffEqual(t: Tables, tag: int, a: seq<Value>, b: seq<Value>,
                                                 f: TIStructField, va: Value, vb: Value)
    requires ValidTables(t) && 0 <= tag < |t.nodeTypes| && ValidField(t, f) && f.knownType == KPChar
    requires |a| == |b| == |FieldsOf(t, tag)| && va in a
    ensures EqualField(t, tag, a, b, f, va, vb) == Ok(true) <==> FieldAgrees(t, tag, a, b, f, va, vb)
  {
    assert EqualField(t, tag, a, b, f, va, vb) == EqualStrings(va, vb);
  }

  lemma {:induction false} ScalarAgreesIffEqual(t: Tables, tag: int, a: seq<Value>, b: seq<Value>,
                                                 f: TIStructField, va: Value, vb: Value)
    requires ValidTables(t) && 0 <= tag < |t.nodeTypes| && ValidField(t, f) && !EqualSpecialKind(f.knownType)
    requires |a| == |b| == |FieldsOf(t, tag)| && va in a
    ensures EqualField(t, tag, a, b, f, va, vb) == Ok(true) <==> FieldAgrees(t, tag, a, b, f, va, vb)
  {
    assert EqualField(t, tag, a, b, f, va, vb) == EqualScalar(f, va, vb);
  }

  /**
   * Two structs of type `tag` compare equal exactly when they match: the
   * converse of AgreeingFieldsAreEqual, with the comparison's own notion
   * of agreement.
   */
  lemma {:induction false} EqualFieldsIffMatch(t: Tables, tag: int, a: seq<Value>, b: seq<Value>)
    requires ValidTables(t) && 0 <= tag < |t.nodeTypes|
    ensures EqualFields(t, tag, a, b) == Ok(true) <==> FieldsMatch(t, tag, a, b)
  {
    var infos := FieldsOf(t, tag);
    if |a| == |b| == |infos| {
      forall k | 0 <= k < |a| && !HasFlag(infos[k].flags, TYPE_EQUAL_IGNORE)
        ensures EqualField(t, tag, a, b, infos[k], a[k], b[k]) == Ok(true) <==> FieldAgrees(t, tag, a, b, infos[k], a[k], b[k])
      {
        FieldAgreesIffEqual(t, tag, a, b, infos[k], a[k], b[k]);
      }
    }
  }

  /** Two distinct structs with one node-type tag are equal exactly when they match. */
  lemma {:induction false} EqualStructsIffMatch(t: Tables, a: seq<Value>, b: seq<Value>)
    requires ValidTables(t) && TagWord(a) == TagWord(b) && TagWord(a).Some? && IsNodeType(t, TagWord(a).value)
    ensures Equal(t, Some(Struct(a)), Some(Struct(b))) == Ok(true) <==> a == b || FieldsMatch(t, TagWord(a).value, a, b)
  {
    StructsCompareByFields(t, a, b);
    EqualFieldsIffMatch(t, TagWord(a).value, a, b);
  }

  /** Two distinct node lists are equal exactly when they have one length and their cells are pairwise equal. */
  lemma {:induction false} ListsCompareByCells(t: Tables, a: seq<Option<Node>>, b: seq<Option<Node>>)
    requires ValidTables(t)
    ensures Equal(t, Some(List(a)), Some(List(b))) == Ok(true) <==>
      a == b || (|a| == |b| && forall k :: 0 <= k < |a| ==> Equal(t, a[k], b[k]) == Ok(true))
  {
    if a != b {
      assert NodeTag(t, List(a)) == Some(t.tags.TList) == NodeTag(t, List(b));
      assert Equal(t, Some(List(a)), Some(List(b))) == EqualList(t, t.tags.TList, List(a), List(b));
      if |a| == |b| {
        assert EqualList(t, t.tags.TList, List(a), List(b)) == EqualCells(t, a, b, 0);
      }
    }
  }

  /** The kinds nodes_equal_fields treats by name; every other field takes the default branch. */
  predicate EqualSpecialKind(k: KnownType)
  {
    k in {KNode, KDatum, KValueUnion, KOpFuncId, KPPgArr, KPBitmapset, KPNode, KPChar}
  }

  /** No compared field reaches the "don't know how to copy field" error. */
  predicate EqualSupported(t: Tables)
    requires ValidTables(t)
  {
    forall tag, k :: 0 <= tag < |t.nodeTypes| && 0 <= k < |FieldsOf(t, tag)| ==>
      var f := FieldsOf(t, tag)[k];
      EqualSpecialKind(f.knownType) || HasFlag(f.flags, TYPE_CAT_SCALAR) || HasFlag(f.flags, TYPE_EQUAL_IGNORE)
  }

  /** Two structs of type `tag` hold the same value in every field not marked EQUAL_IGNORE. */
  predicate AgreeOutsideIgnored(t: Tables, tag: int, a: seq<Value>, b: seq<Value>)
    requires ValidTables(t) && 0 <= tag < |t.nodeTypes|
  {
    AgreeBefore(t, tag, a, b, |a|)
  }

  /** The same, for the fields before field n only. */
  predicate AgreeBefore(t: Tables, tag: int, a: seq<Value>, b: seq<Value>, n: nat)
    requires ValidTables(t) && 0 <= tag < |t.nodeTypes|
  {
    var infos := FieldsOf(t, tag);
    |a| == |b| == |infos| && n <= |a|
    && forall k :: 0 <= k < n && !HasFlag(infos[k].flags, TYPE_EQUAL_IGNORE) ==> a[k] == b[k]
  }

  /** Well-formed structs that differ only in EQUAL_IGNORE fields compare equal. */
  lemma {:induction false} AgreeingFieldsAreEqual(t: Tables, tag: int, a: seq<Value>, b: seq<Value>)
    requires ValidTables(t) && EqualSupported(t) && 0 <= tag < |t.nodeTypes|
    requires ConformsFields(t, tag, FieldsOf(t, tag), a) && ConformsFields(t, tag, FieldsOf(t, tag), b)
    requires AgreeOutsideIgnored(t, tag, a, b)
    ensures EqualFields(t, tag, a, b) == Ok(true)
    decreases a, 2
  {
    SkipAgreeingPrefix(t, tag, a, b, |a|);
  }

  lemma {:induction false} AgreeingField(t: Tables, tag: int, a: seq<Value>, b: seq<Value>, i: nat)
    requires ValidTables(t) && EqualSupported(t) && 0 <= tag < |t.nodeTypes|
    requires ConformsFields(t, tag, FieldsOf(t, tag), a) && ConformsFields(t, tag, FieldsOf(t, tag), b)
    requires i < |a| == |b| && a[i] == b[i]
    requires !HasFlag(FieldsOf(t, tag)[i].flags, TYPE_EQUAL_IGNORE)
    ensures EqualField(t, tag, a, b, FieldsOf(t, tag)[i], a[i], b[i]) == Ok(true)
    decreases a[i], 1
  {
    var k := FieldsOf(t, tag)[i].knownType;
    if k == KNode {
      AgreeingEmbedded(t, tag, a, b, i);
    } else if k == KDatum {
      AgreeingDatum(t, tag, a, b, i);
    } else if k == KValueUnion {
      AgreeingUnion(t, tag, a, b, i);
    } else if EqualSpecialKind(k) {
      AgreeingPointer(t, tag, a, b, i);
    } else {
      AgreeingScalar(t, tag, a, b, i);
    }
  }

  lemma {:induction false} AgreeingEmbedded(t: Tables, tag: int, a: seq<Value>, b: seq<Value>, i: nat)
    requires ValidTables(t) && EqualSupported(t) && 0 <= tag < |t.nodeTypes|
    requires ConformsFields(t, tag, FieldsOf(t, tag), a)
    requires i < |a| == |b| && a[i] == b[i]
    requires FieldsOf(t, tag)[i].knownType == KNode
    ensures EqualField(t, tag, a, b, FieldsOf(t, tag)[i], a[i], b[i]) == Ok(true)
    decreases a[i], 0
  {
    var infos := FieldsOf(t, tag);
    var f, v := infos[i], a[i];
    assert ConformsValue(t, tag, infos, a, f, v);
    assert ConformsEmbedded(t, f, v);
    var sub := if f.offset == 0 then f.typeId else TagWord(v.fields).value;
    AgreeingFieldsAreEqual(t, sub, v.fields, v.fields);
  }

  lemma {:induction false} AgreeingDatum(t: Tables, tag: int, a: seq<Value>, b: seq<Value>, i: nat)
    requires ValidTables(t) && 0 <= tag < |t.nodeTypes|
    requires ConformsFields(t, tag, FieldsOf(t, tag), a)
    requires i < |a| == |b| && a[i] == b[i]
    requires ConformsFields(t, tag, FieldsOf(t, tag), b)
    requires FieldsOf(t, tag)[i].knownType == KDatum
    ensures EqualField(t, tag, a, b, FieldsOf(t, tag)[i], a[i], b[i]) == Ok(true)
  {
    var infos := FieldsOf(t, tag);
    assert ConformsValue(t, tag, infos, a, infos[i], a[i]);
    assert ConformsValue(t, tag, infos, b, infos[i], b[i]);
  }

  lemma {:induction false} AgreeingPointer(t: Tables, tag: int, a: seq<Value>, b: seq<Value>, i: nat)
    requires ValidTables(t) && 0 <= tag < |t.nodeTypes|
    requires ConformsFields(t, tag, FieldsOf(t, tag), a)
    requires i < |a| == |b| && a[i] == b[i]
    requires FieldsOf(t, tag)[i].knownType in {KOpFuncId, KPPgArr, KPBitmapset, KPNode, KPChar}
    ensures EqualField(t, tag, a, b, FieldsOf(t, tag)[i], a[i], b[i]) == Ok(true)
  {
    var infos := FieldsOf(t, tag);
    assert ConformsValue(t, tag, infos, a, infos[i], a[i]);
  }

  lemma {:induction false} AgreeingUnion(t: Tables, tag: int, a: seq<Value>, b: seq<Value>, i: nat)
    requires ValidTables(t) && 0 <= tag < |t.nodeTypes|
    requires ConformsFields(t, tag, FieldsOf(t, tag), a)
    requires i < |a| == |b| && a[i] == b[i] && FieldsOf(t, tag)[i].knownType == KValueUnion
    ensures EqualField(t, tag, a, b, FieldsOf(t, tag)[i], a[i], b[i]) == Ok(true)
  {
    var infos := FieldsOf(t, tag);
    assert ConformsValue(t, tag, infos, a, infos[i], a[i]);
  }

  lemma {:induction false} AgreeingScalar(t: Tables, tag: int, a: seq<Value>, b: seq<Value>, i: nat)
    requires ValidTables(t) && EqualSupported(t) && 0 <= tag < |t.nodeTypes|
    requires i < |a| == |b| == |FieldsOf(t, tag)| && a[i] == b[i]
    requires !HasFlag(FieldsOf(t, tag)[i].flags, TYPE_EQUAL_IGNORE) && !EqualSpecialKind(FieldsOf(t, tag)[i].knownType)
    ensures EqualField(t, tag, a, b, FieldsOf(t, tag)[i], a[i], b[i]) == Ok(true)
  {
    assert ValidField(t, FieldsOf(t, tag)[i]);
  }

  /**
   * The short cuts of nodes_equal_new_rec_real: identical references are
   * equal, exactly one NULL is unequal, and nodes with different tags are
   * unequal.
   */
  lemma {:induction false} EqualShortCuts(t: Tables, a: Option<Node>, b: Option<Node>)
    requires ValidTables(t)
    ensures a == b ==> Equal(t, a, b) == Ok(true)
    ensures a.None? != b.None? ==> Equal(t, a, b) == Ok(false)
    ensures (a.Some? && b.Some? && NodeTag(t, a.value).Some? && NodeTag(t, b.value).Some?
             && NodeTag(t, a.value) != NodeTag(t, b.value)) ==> Equal(t, a, b) == Ok(false)
  {
  }

  /** A well-formed node equals itself with no short cut: value identity may stand in for pointer identity. */
  lemma {:induction false} EqualContentsReflexive(t: Tables, n: Node)
    requires ValidTables(t) && EqualSupported(t) && ConformsNode(t, n)
    ensures EqualContents(t, Some(n), Some(n)) == Ok(true)
  {
    match n
    case Struct(fs) =>
      AgreeingFieldsAreEqual(t, TagWord(fs).value, fs, fs);
    case List(cs) =>
      CellsReflexive(t, cs, 0);
    case _ =>
  }

  lemma {:induction false} CellsReflexive(t: Tables, cs: seq<Option<Node>>, i: nat)
    requires ValidTables(t) && i <= |cs|
    ensures EqualCells(t, cs, cs, i) == Ok(true)
    decreases |cs| - i
  {
    if i < |cs| {
      CellsReflexive(t, cs, i + 1);
    }
  }

  /** Two well-formed nodes of one type that differ only in EQUAL_IGNORE fields are equal. */
  lemma {:induction false} IgnoredFieldsDoNotMatter(t: Tables, a: seq<Value>, b: seq<Value>)
    requires ValidTables(t) && EqualSupported(t)
    requires ConformsNode(t, Struct(a)) && ConformsNode(t, Struct(b)) && TagWord(a) == TagWord(b)
    requires AgreeOutsideIgnored(t, TagWord(a).value, a, b)
    ensures Equal(t, Some(Struct(a)), Some(Struct(b))) == Ok(true)
  {
    var tag := TagWord(a).value;
    assert ConformsFields(t, tag, FieldsOf(t, tag), a);
    assert ConformsFields(t, tag, FieldsOf(t, tag), b);
    AgreeingFieldsAreEqual(t, tag, a, b);
    StructsCompareByFields(t, a, b);
  }

  /** Two structs with one node-type tag compare field by field. */
  lemma {:induction false} StructsCompareByFields(t: Tables, a: seq<Value>, b: seq<Value>)
    requires ValidTables(t) && TagWord(a) == TagWord(b) && TagWord(a).Some? && IsNodeType(t, TagWord(a).value)
    ensures a != b ==> Equal(t, Some(Struct(a)), Some(Struct(b))) == EqualFields(t, TagWord(a).value, a, b)
  {
  }

  /**
   * The first compared field that differs decides: when the fields before
   * field i agree and the scalar field i differs, the structs are unequal.
   */
  lemma {:induction false} ScalarDifferenceIsUnequal(t: Tables, tag: int, a: seq<Value>, b: seq<Value>, i: nat)
    requires ValidTables(t) && EqualSupported(t) && 0 <= tag < |t.nodeTypes|
    requires ConformsFields(t, tag, FieldsOf(t, tag), a) && ConformsFields(t, tag, FieldsOf(t, tag), b)
    requires i < |a| && !EqualSpecialKind(FieldsOf(t, tag)[i].knownType)
    requires !HasFlag(FieldsOf(t, tag)[i].flags, TYPE_EQUAL_IGNORE) && a[i] != b[i]
    requires AgreeBefore(t, tag, a, b, i)
    ensures EqualFields(t, tag, a, b) == Ok(false)
  {
    SkipAgreeingPrefix(t, tag, a, b, i);
    DifferenceAt(t, tag, a, b, i);
  }

  /** The agreeing fields before field i do not change the outcome of the loop. */
  lemma {:induction false} SkipAgreeingPrefix(t: Tables, tag: int, a: seq<Value>, b: seq<Value>, i: nat)
    requires ValidTables(t) && EqualSupported(t) && 0 <= tag < |t.nodeTypes|
    requires ConformsFields(t, tag, FieldsOf(t, tag), a) && ConformsFields(t, tag, FieldsOf(t, tag), b)
    requires AgreeBefore(t, tag, a, b, i)
    ensures EqualFieldsFrom(t, tag, a, b, 0) == EqualFieldsFrom(t, tag, a, b, i)
    decreases a, 1
  {
    var infos := FieldsOf(t, tag);
    forall k | 0 <= k < i
      ensures EqualFieldsFrom(t, tag, a, b, k) == EqualFieldsFrom(t, tag, a, b, k + 1)
    {
      assert !HasFlag(infos[k].flags, TYPE_EQUAL_IGNORE) ==> a[k] == b[k];
      SkipAgreeing(t, tag, a, b, k);
    }
    ChainFrom(t, tag, a, b, 0, i);
  }

  /** Steps that each leave the outcome unchanged compose. */
  lemma {:induction false} ChainFrom(t: Tables, tag: int, a: seq<Value>, b: seq<Value>, j: nat, i: nat)
    requires ValidTables(t) && 0 <= tag < |t.nodeTypes|
    requires |a| == |b| == |FieldsOf(t, tag)| && j <= i <= |a|
    requires forall k :: j <= k < i ==> EqualFieldsFrom(t, tag, a, b, k) == EqualFieldsFrom(t, tag, a, b, k + 1)
    ensures EqualFieldsFrom(t, tag, a, b, j) == EqualFieldsFrom(t, tag, a, b, i)
    decreases i - j
  {
    if j < i {
      ChainFrom(t, tag, a, b, j + 1, i);
    }
  }

  /** A field that is ignored or agrees does not change the outcome of the loop. */
  lemma {:induction false} SkipAgreeing(t: Tables, tag: int, a: seq<Value>, b: seq<Value>, j: nat)
    requires ValidTables(t) && EqualSupported(t) && 0 <= tag < |t.nodeTypes|
    requires ConformsFields(t, tag, FieldsOf(t, tag), a) && ConformsFields(t, tag, FieldsOf(t, tag), b)
    requires j < |a| == |b| && (!HasFlag(FieldsOf(t, tag)[j].flags, TYPE_EQUAL_IGNORE) ==> a[j] == b[j])
    ensures EqualFieldsFrom(t, tag, a, b, j) == EqualFieldsFrom(t, tag, a, b, j + 1)
    decreases a, 0
  {
    if !HasFlag(FieldsOf(t, tag)[j].flags, TYPE_EQUAL_IGNORE) {
      AgreeingField(t, tag, a, b, j);
    }
  }

  lemma {:induction false} DifferenceAt(t: Tables, tag: int, a: seq<Value>, b: seq<Value>, i: nat)
    requires ValidTables(t) && EqualSupported(t) && 0 <= tag < |t.nodeTypes|
    requires i < |a| == |b| == |FieldsOf(t, tag)| && !EqualSpecialKind(FieldsOf(t, tag)[i].knownType)
    requires !HasFlag(FieldsOf(t, tag)[i].flags, TYPE_EQUAL_IGNORE) && a[i] != b[i]
    ensures EqualField(t, tag, a, b, FieldsOf(t, tag)[i], a[i], b[i]) == Ok(false)
  {
    assert ValidField(t, FieldsOf(t, tag)[i]);
  }

  /** Lists of different lengths are unequal whatever their elements. */
  lemma {:induction false} ListsOfDifferentLengthsAreUnequal(t: Tables, a: seq<Option<Node>>, b: seq<Option<Node>>)
    requires ValidTables(t) && |a| != |b|
    ensures Equal(t, Some(List(a)), Some(List(b))) == Ok(false)
  {
  }
}
