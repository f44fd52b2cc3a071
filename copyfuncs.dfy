// Table-driven deep copy (src/backend/nodes/copyfuncs_new.c). A node is
// copied into a zeroed node of its type whose tag is already set, one field
// at a time along the field table; lists are copied cell by cell. The
// functions are the specification (the field loop is a fold over the field
// index carrying the destination); the methods are the loops, each proved
// to compute its function.

module CopyFuncs {
  import opened Wrappers
  import opened CInt
  import opened NodeInfo
  import opened NodeValues
  import opened EqualFuncs

  /** The kinds nodecopy_fields copies with a typed assignment. */
  predicate CopiedByAssignment(k: KnownType)
  {
    k in {KUInt16, KOpFuncId, KOid, KUInt32, KUInt64, KInt16, KLocation, KInt32, KInt64,
          KFloat32, KFloat64, KBool, KChar}
  }

  /** The kinds with a case of their own in nodecopy_fields; the rest take the memcpy-or-error default. */
  predicate CopySpecialKind(k: KnownType)
  {
    CopiedByAssignment(k) || k in {KNode, KDatum, KValueUnion, KPPgArr, KPNode, KPChar, KPBitmapset}
  }

  // ---------------------------------------------------------------------
  // Specification

  /** nodecopy_new_rec: NULL stays NULL, lists are copied as lists, any other node field by field into NewNode. */
  function CopyNode(t: Tables, obj: Option<Node>): (r: Result<Option<Node>>)
    requires ValidTables(t)
    ensures obj.None? ==> r == Ok(None)
    decreases obj, 2
  {
    if obj.None? then Ok(None)
    else
      var n := obj.value;
      match NodeTag(t, n)
      case None => Err(SchemaError("node without a tag"))
      case Some(tag) =>
        if IsListTag(t, tag) then
          var l :- CopyList(t, tag, n);
          Ok(Some(l))
        else if !(0 <= tag < |t.nodeTypes|) then Err(Undefined("tag outside ti_node_types"))
        else if !n.Struct? || |n.fields| != |FieldsOf(t, tag)| then Err(SchemaError("struct does not match its field table"))
        else
          var fs :- CopyFieldsFrom(t, tag, n.fields, NewNode(t, tag), 0);
          Ok(Some(Struct(fs)))
  }

  /** nodecopy_list: a list of the same length (and capacity); node cells deep-copied, int and Oid cells memcpy'd. */
  function CopyList(t: Tables, tag: int, n: Node): (r: Result<Node>)
    requires ValidTables(t) && IsListTag(t, tag)
    ensures n.IntList? && tag == t.tags.TIntList ==> r == Ok(n)
    ensures n.OidList? && tag == t.tags.TOidList ==> r == Ok(n)
    ensures r.Ok? && n.List? ==> r.value.List? && |r.value.cells| == |n.cells|
    decreases n, 1
  {
    if tag == t.tags.TList then
      if !n.List? then Err(SchemaError("not a List"))
      else
        var cs :- CopyCells(t, n.cells, 0);
        Ok(List(cs))
    else if tag == t.tags.TOidList then
      if !n.OidList? then Err(SchemaError("not an OID List")) else Ok(n)
    else
      if !n.IntList? then Err(SchemaError("not an integer List")) else Ok(n)
  }

  /** The copies of cells i.. of a node list. */
  function CopyCells(t: Tables, cs: seq<Option<Node>>, i: nat): (r: Result<seq<Option<Node>>>)
    requires ValidTables(t) && i <= |cs|
    ensures r.Ok? ==> |r.value| == |cs| - i
    decreases cs, |cs| - i
  {
    if i == |cs| then Ok([])
    else
      var c :- CopyNode(t, cs[i]);
      var rest :- CopyCells(t, cs, i + 1);
      Ok([c] + rest)
  }

  /**
   * The field loop of nodecopy_fields from field i on, `dst` being the
   * destination so far: COPY_IGNORE fields keep what dst holds, every
   * other field is overwritten by the copy of the source field.
   */
  function CopyFieldsFrom(t: Tables, tag: int, src: seq<Value>, dst: seq<Value>, i: nat): (r: Result<seq<Value>>)
    requires ValidTables(t) && 0 <= tag < |t.nodeTypes|
    requires |src| == |dst| == |FieldsOf(t, tag)| && i <= |src|
    ensures r.Ok? ==> |r.value| == |src|
    decreases src, 1, |src| - i
  {
    var infos := FieldsOf(t, tag);
    if i == |src| then Ok(dst)
    else if HasFlag(infos[i].flags, TYPE_COPY_IGNORE) then CopyFieldsFrom(t, tag, src, dst, i + 1)
    else
      match CopyValue(t, tag, src, infos[i], dst[i], src[i])
      case Err(e) => Err(e)
      case Ok(v) => CopyFieldsFrom(t, tag, src, dst[i := v], i + 1)
  }

  /**
   * The new contents of one destination field: `base` is what the
   * destination holds there (a NULL source pointer leaves it), `v` the
   * source field, `src` the source struct (the Const siblings, the Value tag).
   */
  function CopyValue(t: Tables, tag: int, src: seq<Value>, f: TIStructField, base: Value, v: Value): (r: Result<Value>)
    requires ValidTables(t) && 0 <= tag < |t.nodeTypes| && ValidField(t, f)
    requires v in src
    ensures CopiedByAssignment(f.knownType) ==> r == Ok(v)
    ensures f.knownType == KNode && r.Ok? ==> v.Embedded? && r.value.Embedded? && |r.value.fields| == |v.fields|
    ensures f.knownType == KPNode && v == NodePtr(None) ==> r == Ok(base)
    decreases v, 1
  {
    var k := f.knownType;
    if CopiedByAssignment(k) then Ok(v)
    else if k == KNode then CopyEmbedded(t, f, base, v)
    else if k == KDatum then CopyDatum(t, tag, src, v)
    else if k == KValueUnion then CopyUnion(t, TagWord(src), base, v)
    else if k == KPNode then
      if !v.NodePtr? then Err(SchemaError("node pointer expected"))
      else if v.node.None? then Ok(base)
      else
        var c :- CopyNode(t, v.node);
        Ok(NodePtr(c))
    else if k in {KPPgArr, KPChar, KPBitmapset} then CopyPointer(k, base, v)
    else CopyScalar(f, v)
  }

  /** The pointer kinds that do not recurse: a NULL pointer stays NULL, anything else is duplicated. */
  function CopyPointer(k: KnownType, base: Value, v: Value): (r: Result<Value>)
    requires k in {KPPgArr, KPChar, KPBitmapset}
    ensures r.Ok? <==> (k == KPPgArr && v.Arr?) || (k == KPChar && v.Str?) || (k == KPBitmapset && v.Bitmap?)
    ensures ((k == KPPgArr && v.Arr? && v.elems.NullArr?) || (k == KPChar && v.Str? && v.s.None?)
             || (k == KPBitmapset && v.Bitmap? && v.members.None?)) ==> r == Ok(base)
    ensures (k == KPPgArr && v.Arr? && v.elems.ArrOf?) || (k == KPBitmapset && v.Bitmap? && v.members.Some?) ==> r == Ok(v)
    ensures k == KPChar && v.Str? && v.s.Some? ==>
      r.Ok? && r.value.Str? && r.value.s.Some? && r.value.s.value <= v.s.value && '\0' !in r.value.s.value
  {
    if k == KPPgArr then
      if !v.Arr? then Err(SchemaError("array expected"))
      else if v.elems.NullArr? then Ok(base)
      else Ok(Arr(ArrOf(v.elems.items)))           // pgarr_helper_clone
    else if k == KPChar then
      if !v.Str? then Err(SchemaError("string expected"))
      else if v.s.None? then Ok(base)
      else Ok(Str(Some(CString(v.s.value))))      // strlen + 1 bytes
    else
      if !v.Bitmap? then Err(SchemaError("Bitmapset expected"))
      else if v.members.None? then Ok(base)
      else Ok(Bitmap(Some(v.members.value)))
  }

  /**
   * A struct embedded by value, copied into the layout and destination
   * memory EmbeddedTarget picks.
   */
  function CopyEmbedded(t: Tables, f: TIStructField, base: Value, v: Value): (r: Result<Value>)
    requires ValidTables(t) && ValidField(t, f) && f.knownType == KNode
    ensures r.Ok? ==> v.Embedded? && r.value.Embedded? && |r.value.fields| == |v.fields|
    decreases v, 0
  {
    var target :- EmbeddedTarget(t, f, base, v);
    var fs :- CopyFieldsFrom(t, target.sub, v.fields, target.start, 0);
    Ok(Embedded(fs))
  }

  datatype Target = Target(sub: int, start: seq<Value>)

  /**
   * Where an embedded struct is copied to. At offset 0 it shares the
   * destination's tag word and is filled in place under the declared
   * layout; elsewhere the source's own tag picks the layout, which must
   * have the declared size, and the destination memory is still zero.
   */
  function EmbeddedTarget(t: Tables, f: TIStructField, base: Value, v: Value): (r: Result<Target>)
    requires ValidTables(t) && ValidField(t, f) && f.knownType == KNode
    ensures r.Ok? ==> v.Embedded? && 0 <= r.value.sub < |t.nodeTypes|
                      && |v.fields| == |r.value.start| == |FieldsOf(t, r.value.sub)|
    ensures r.Ok? && f.offset != 0 ==> r.value.start == ZeroFields(t, r.value.sub)
  {
    if !v.Embedded? then Err(SchemaError("embedded struct expected"))
    else if f.offset == 0 then
      var start := InPlaceStart(t, f, base);
      if |v.fields| != |start| then Err(SchemaError("embedded struct does not match its field table"))
      else Ok(Target(f.typeId, start))
    else
      match TagWord(v.fields)
      case None => Err(SchemaError("embedded struct without a tag"))
      case Some(sub) =>
        if !(0 <= sub < |t.nodeTypes|) then Err(Undefined("tag outside ti_node_types"))
        else if t.nodeTypes[sub].size != t.nodeTypes[f.typeId].size then Err(SchemaError("embedded size mismatch"))
        else if |v.fields| != |FieldsOf(t, sub)| then Err(SchemaError("embedded struct does not match its field table"))
        else Ok(Target(sub, ZeroFields(t, sub)))
  }

  /** The destination memory of an embedded struct at offset 0: what the destination holds there, under the declared layout. */
  function InPlaceStart(t: Tables, f: TIStructField, base: Value): (r: seq<Value>)
    requires ValidTables(t) && ValidField(t, f) && f.knownType == KNode
    ensures |r| == |FieldsOf(t, f.typeId)|
  {
    if base.Embedded? && |base.fields| == |FieldsOf(t, f.typeId)| then base.fields
    else ZeroFields(t, f.typeId)
  }

  /** Const.constvalue: by value or NULL it is the word itself, otherwise datumCopy copies the bytes it points to. */
  function CopyDatum(t: Tables, tag: int, src: seq<Value>, v: Value): (r: Result<Value>)
    requires ValidTables(t) && 0 <= tag < |t.nodeTypes|
    ensures r.Ok? ==> r.value == v
  {
    var infos := FieldsOf(t, tag);
    var byval := BoolField(t, infos, src, "constbyval");
    var isnull := BoolField(t, infos, src, "constisnull");
    if byval.Err? then Err(byval.fault)
    else if isnull.Err? then Err(isnull.fault)
    else if !v.DatumWord? then Err(SchemaError("Datum expected"))
    else if byval.value || isnull.value then Ok(v)
    else Ok(DatumWord(v.bytes))
  }

  /** nodecopy_value_union: by the source's tag; a Null value leaves the destination's zero word. */
  function CopyUnion(t: Tables, vtag: Option<int>, base: Value, v: Value): (r: Result<Value>)
    ensures r.Ok? && vtag != Some(t.tags.TNull) ==> r.value.Union?
  {
    if !v.Union? then Err(SchemaError("value union expected"))
    else if vtag.None? then Err(SchemaError("Value without a tag"))
    else
      var tag := vtag.value;
      if tag == t.tags.TInteger then
        var i :- UnionIval(v.u);
        Ok(Union(IVal(i)))
      else if tag == t.tags.TFloat || tag == t.tags.TString || tag == t.tags.TBitString then
        var s :- UnionStr(v.u);
        if s.None? then Ok(Union(SVal(None))) else Ok(Union(SVal(Some(CString(s.value)))))
      else if tag == t.tags.TNull then Ok(base)
      else Err(Undefined("pg_unreachable: not a Value tag"))
  }

  /** The default case: memcpy when the type is scalar, an error otherwise. */
  function CopyScalar(f: TIStructField, v: Value): (r: Result<Value>)
    ensures HasFlag(f.flags, TYPE_CAT_SCALAR) <==> r.Ok?
    ensures r.Ok? ==> r.value == v
  {
    ScalarOrForceScalarIsCatScalar(f.flags);
    if HasFlag(f.flags, ScalarOrForceScalar) then Ok(v)
    else Err(SchemaError("don't know how to copy field"))
  }

  // ---------------------------------------------------------------------
  // The loops

  /** nodecopy_new_rec. */
  method CopyNodeRec(t: Tables, obj: Option<Node>) returns (r: Result<Option<Node>>)
    requires ValidTables(t)
    ensures r == CopyNode(t, obj)
    decreases obj, 2
  {
    if obj.None? {
      return Ok(None);
    }
    var n := obj.value;
    var tag := NodeTag(t, n);
    if tag.None? {
      return Err(SchemaError("node without a tag"));
    }
    if IsListTag(t, tag.value) {
      var l := CopyListRec(t, tag.value, n);
      if l.Err? {
        return Err(l.fault);
      }
      return Ok(Some(l.value));
    }
    if !(0 <= tag.value < |t.nodeTypes|) {
      return Err(Undefined("tag outside ti_node_types"));
    }
    if !n.Struct? || |n.fields| != |FieldsOf(t, tag.value)| {
      return Err(SchemaError("struct does not match its field table"));
    }
    var dst := NewNode(t, tag.value);
    var fs := CopyFieldsLoop(t, tag.value, n.fields, dst);
    if fs.Err? {
      return Err(fs.fault);
    }
    return Ok(Some(Struct(fs.value)));
  }

  /** nodecopy_list. */
  method CopyListRec(t: Tables, tag: int, n: Node) returns (r: Result<Node>)
    requires ValidTables(t) && IsListTag(t, tag)
    ensures r == CopyList(t, tag, n)
    decreases n, 1
  {
    if tag == t.tags.TList {
      if !n.List? {
        return Err(SchemaError("not a List"));
      }
      var cells: seq<Option<Node>> := [];
      var i := 0;
      if CopyCells(t, n.cells, 0).Ok? {
        assert [] + CopyCells(t, n.cells, 0).value == CopyCells(t, n.cells, 0).value;
      }
      while i < |n.cells|
        invariant 0 <= i <= |n.cells|
        invariant CopyCells(t, n.cells, 0) == Prepend(cells, CopyCells(t, n.cells, i))
        decreases |n.cells| - i
      {
        var c := CopyNodeRec(t, n.cells[i]);
        if c.Err? {
          return Err(c.fault);
        }
        var rest := CopyCells(t, n.cells, i + 1);
        if rest.Ok? {
          assert cells + ([c.value] + rest.value) == (cells + [c.value]) + rest.value;
        }
        cells := cells + [c.value];
        i := i + 1;
      }
      assert cells + [] == cells;
      return Ok(List(cells));
    } else if tag == t.tags.TOidList {
      if !n.OidList? {
        return Err(SchemaError("not an OID List"));
      }
      return Ok(n);
    } else {
      if !n.IntList? {
        return Err(SchemaError("not an integer List"));
      }
      return Ok(n);
    }
  }

  /** nodecopy_fields: the loop over the field table, writing into dst. */
  method CopyFieldsLoop(t: Tables, tag: int, src: seq<Value>, dst0: seq<Value>) returns (r: Result<seq<Value>>)
    requires ValidTables(t) && 0 <= tag < |t.nodeTypes|
    requires |src| == |dst0| == |FieldsOf(t, tag)|
    ensures r == CopyFieldsFrom(t, tag, src, dst0, 0)
    decreases src, 1
  {
    var infos := FieldsOf(t, tag);
    var dst := dst0;
    for i := 0 to |src|
      invariant |dst| == |src|
      invariant CopyFieldsFrom(t, tag, src, dst0, 0) == CopyFieldsFrom(t, tag, src, dst, i)
    {
      if HasFlag(infos[i].flags, TYPE_COPY_IGNORE) {
        continue;
      }
      var v := CopyValueRec(t, tag, src, infos[i], dst[i], src[i]);
      if v.Err? {
        return Err(v.fault);
      }
      dst := dst[i := v.value];
    }
    return Ok(dst);
  }

  /** The switch on the field's known type. */
  method CopyValueRec(t: Tables, tag: int, src: seq<Value>, f: TIStructField, base: Value, v: Value)
    returns (r: Result<Value>)
    requires ValidTables(t) && 0 <= tag < |t.nodeTypes| && ValidField(t, f)
    requires v in src
    ensures r == CopyValue(t, tag, src, f, base, v)
    decreases v, 1
  {
    var k := f.knownType;
    if k == KNode {
      r := CopyEmbeddedRec(t, f, base, v);
    } else if k == KPNode && v.NodePtr? && v.node.Some? {
      var c := CopyNodeRec(t, v.node);
      if c.Err? {
        return Err(c.fault);
      }
      return Ok(NodePtr(c.value));
    } else {
      r := CopyValue(t, tag, src, f, base, v);
    }
  }

  /** The KNOWN_TYPE_NODE case: nodecopy_fields on the embedded struct. */
  method CopyEmbeddedRec(t: Tables, f: TIStructField, base: Value, v: Value) returns (r: Result<Value>)
    requires ValidTables(t) && ValidField(t, f) && f.knownType == KNode
    ensures r == CopyEmbedded(t, f, base, v)
    decreases v, 0
  {
    var target := EmbeddedTarget(t, f, base, v);
    if target.Err? {
      return Err(target.fault);
    }
    var fs := CopyFieldsLoop(t, target.value.sub, v.fields, target.value.start);
    if fs.Err? {
      return Err(fs.fault);
    }
    return Ok(Embedded(fs.value));
  }

  // ---------------------------------------------------------------------
  // Properties

  /** COPY_IGNORE fields are not touched: they keep what the destination held. */
  lemma {:induction false} IgnoredFieldsKeepDestination(t: Tables, tag: int, src: seq<Value>, dst: seq<Value>, i: nat)
    requires ValidTables(t) && 0 <= tag < |t.nodeTypes|
    requires |src| == |dst| == |FieldsOf(t, tag)| && i <= |src|
    requires CopyFieldsFrom(t, tag, src, dst, i).Ok?
    ensures forall k :: 0 <= k < |src| && (k < i || HasFlag(FieldsOf(t, tag)[k].flags, TYPE_COPY_IGNORE)) ==>
              CopyFieldsFrom(t, tag, src, dst, i).value[k] == dst[k]
    decreases |src| - i
  {
    if i < |src| {
      var d := CopyFieldsTurn(t, tag, src, dst, i);
      IgnoredFieldsKeepDestination(t, tag, src, d, i + 1);
      var r := CopyFieldsFrom(t, tag, src, d, i + 1).value;
      forall k | 0 <= k < |src| && (k < i || HasFlag(FieldsOf(t, tag)[k].flags, TYPE_COPY_IGNORE))
        ensures r[k] == dst[k]
      {
        assert r[k] == d[k];
      }
    }
  }

  /** One turn of the field loop: only field `i` of the destination may change, and not when it is COPY_IGNORE. */
  lemma {:induction false} CopyFieldsTurn(t: Tables, tag: int, src: seq<Value>, dst: seq<Value>, i: nat) returns (d: seq<Value>)
    requires ValidTables(t) && 0 <= tag < |t.nodeTypes|
    requires |src| == |dst| == |FieldsOf(t, tag)| && i < |src|
    requires CopyFieldsFrom(t, tag, src, dst, i).Ok?
    ensures |d| == |dst| && CopyFieldsFrom(t, tag, src, d, i + 1) == CopyFieldsFrom(t, tag, src, dst, i)
    ensures forall k :: 0 <= k < |dst| && k != i ==> d[k] == dst[k]
    ensures HasFlag(FieldsOf(t, tag)[i].flags, TYPE_COPY_IGNORE) ==> d == dst
  {
    var infos := FieldsOf(t, tag);
    if HasFlag(infos[i].flags, TYPE_COPY_IGNORE) {
      d := dst;
    } else {
      d := dst[i := CopyValue(t, tag, src, infos[i], dst[i], src[i]).value];
    }
  }

  /** So a copied struct has the zeroed contents of a new node in every COPY_IGNORE field. */
  lemma {:induction false} IgnoredFieldsAreZero(t: Tables, fs: seq<Value>)
    requires ValidTables(t) && TagWord(fs).Some? && IsNodeType(t, TagWord(fs).value)
    requires CopyNode(t, Some(Struct(fs))).Ok?
    ensures var tag := TagWord(fs).value;
            var c := CopyNode(t, Some(Struct(fs))).value;
            c.Some? && c.value.Struct? && |c.value.fields| == |FieldsOf(t, tag)|
            && forall k :: 0 <= k < |fs| && HasFlag(FieldsOf(t, tag)[k].flags, TYPE_COPY_IGNORE) ==>
                 c.value.fields[k] == NewNode(t, tag)[k]
  {
    var tag := TagWord(fs).value;
    IgnoredFieldsKeepDestination(t, tag, fs, NewNode(t, tag), 0);
  }

  /**
   * Tables whose every copied field the copy handles: each field that is
   * not COPY_IGNORE has a case of its own or is memcpy-able, and the first
   * field of every struct, the word at offset 0, is the tag or a base struct.
   */
  predicate CopySupported(t: Tables)
    requires ValidTables(t)
  {
    forall tag, k :: 0 <= tag < |t.nodeTypes| && 0 <= k < |FieldsOf(t, tag)| ==>
      var f := FieldsOf(t, tag)[k];
      && (HasFlag(f.flags, TYPE_COPY_IGNORE) || CopySpecialKind(f.knownType) || HasFlag(f.flags, TYPE_CAT_SCALAR))
      && (k == 0 ==> f.knownType == KNodeTag || f.knownType == KNode)
  }

  /** What CopySupported says of field k of type tag. */
  lemma {:induction false} SupportedField(t: Tables, tag: int, k: nat)
    requires ValidTables(t) && CopySupported(t) && 0 <= tag < |t.nodeTypes| && k < |FieldsOf(t, tag)|
    ensures var f := FieldsOf(t, tag)[k];
            && (HasFlag(f.flags, TYPE_COPY_IGNORE) || CopySpecialKind(f.knownType) || HasFlag(f.flags, TYPE_CAT_SCALAR))
            && (k == 0 ==> f.knownType == KNodeTag || f.knownType == KNode)
  {
  }

  /** The destination a copy starts from: zeroed memory, with the tag word set when `x` says so. */
  function ZeroBase(t: Tables, tag: int, x: Option<int>): (r: seq<Value>)
    requires ValidTables(t) && 0 <= tag < |t.nodeTypes|
    ensures |r| == |FieldsOf(t, tag)|
    ensures forall k :: 1 <= k < |r| ==> r[k] == ZeroFields(t, tag)[k]
  {
    if x.Some? then SetTag(ZeroFields(t, tag), x.value) else ZeroFields(t, tag)
  }

  /** A base struct at offset 0 of a zeroed destination is itself zeroed (with the same tag word). */
  lemma {:induction false} ZeroBaseHead(t: Tables, tag: int, x: Option<int>)
    requires ValidTables(t) && 0 <= tag < |t.nodeTypes| && |FieldsOf(t, tag)| > 0
    requires FieldsOf(t, tag)[0].knownType == KNode
    ensures var f := FieldsOf(t, tag)[0];
            InPlaceStart(t, f, ZeroBase(t, tag, x)[0]) == ZeroBase(t, f.typeId, x)
  {
    var f := FieldsOf(t, tag)[0];
    var z := ZeroFields(t, tag);
    assert z[0] == ZeroOf(t, f.knownType, f.typeId, f.size, tag);
    assert z[0] == Embedded(ZeroFields(t, f.typeId));
  }

  // ---------------------------------------------------------------------
  // What a copy is: the image of the source

  /**
   * The node copyObject makes of a well-formed node `n`: `n` itself, except
   * that every COPY_IGNORE field, at any depth, holds what the zeroed
   * destination held there. Without COPY_IGNORE fields it is `n`.
   */
  function Image(t: Tables, n: Node): Node
    requires ValidTables(t)
    decreases n, 3
  {
    match n
    case Struct(fs) =>
      if TagWord(fs).Some? && 0 <= TagWord(fs).value < |t.nodeTypes| && |fs| == |FieldsOf(t, TagWord(fs).value)|
      then Struct(ImageFields(t, TagWord(fs).value, fs, TagWord(fs)))
      else n
    case List(cs) => List(ImageCells(t, cs))
    case _ => n
  }

  /** The images of the cells of a node list, NULL cells staying NULL. */
  function ImageCells(t: Tables, cs: seq<Option<Node>>): (r: seq<Option<Node>>)
    requires ValidTables(t)
    ensures |r| == |cs|
    decreases cs, 0
  {
    seq(|cs|, k requires 0 <= k < |cs| => ImageCell(t, cs[k]))
  }

  function ImageCell(t: Tables, c: Option<Node>): Option<Node>
    requires ValidTables(t)
    decreases c, 4
  {
    if c.Some? then Some(Image(t, c.value)) else None
  }

  /**
   * The image of the fields `src` of a struct of type `tag` copied onto
   * ZeroBase(t, tag, x): a COPY_IGNORE field keeps the zeroed value, any
   * other holds the image of the source field.
   */
  function ImageFields(t: Tables, tag: int, src: seq<Value>, x: Option<int>): (r: seq<Value>)
    requires ValidTables(t) && 0 <= tag < |t.nodeTypes| && |src| == |FieldsOf(t, tag)|
    ensures |r| == |src|
    decreases src, 2
  {
    var infos := FieldsOf(t, tag);
    var z := ZeroBase(t, tag, x);
    seq(|src|, k requires 0 <= k < |src| =>
      if HasFlag(infos[k].flags, TYPE_COPY_IGNORE) then z[k]
      else ImageValue(t, infos[k], if k == 0 then x else None, src[k]))
  }

  /**
   * The image of one copied field: an embedded struct is the image of its
   * fields under its layout (a base struct at offset 0 keeps the tag word
   * `x`), a node pointer points to the image of its node, and every other
   * value is copied as it is.
   */
  function ImageValue(t: Tables, f: TIStructField, x: Option<int>, v: Value): Value
    requires ValidTables(t) && ValidField(t, f)
    decreases v, 1
  {
    if f.knownType == KNode && v.Embedded? then
      if f.offset == 0 then
        if |v.fields| == |FieldsOf(t, f.typeId)| then Embedded(ImageFields(t, f.typeId, v.fields, x)) else v
      else if TagWord(v.fields).Some? && 0 <= TagWord(v.fields).value < |t.nodeTypes|
              && |v.fields| == |FieldsOf(t, TagWord(v.fields).value)| then
        Embedded(ImageFields(t, TagWord(v.fields).value, v.fields, None))
      else v
    else if f.knownType == KPNode && v.NodePtr? && v.node.Some? then NodePtr(Some(Image(t, v.node.value)))
    else v
  }

  // ---------------------------------------------------------------------
  // The copy computes the image

  /**
   * A well-formed node is copied to its image: every field equal to the
   * source's, deeply, except the COPY_IGNORE fields, which hold a new
   * node's zeroed contents.
   */
  lemma {:induction false} CopyIsExact(t: Tables, n: Node)
    requires ValidTables(t) && DistinctTags(t.tags) && CopySupported(t) && ConformsNode(t, n)
    ensures CopyNode(t, Some(n)) == Ok(Some(Image(t, n)))
    decreases n, 0
  {
    match n
    case Struct(fs) =>
      var tag := TagWord(fs).value;
      CopyFromZeroExact(t, tag, fs, Some(tag));
    case List(cs) =>
      CopyCellsExact(t, cs, 0);
      assert ImageCells(t, cs)[0..] == ImageCells(t, cs);
    case IntList(_) =>
    case OidList(_) =>
  }

  lemma {:induction false} CopyCellsExact(t: Tables, cs: seq<Option<Node>>, i: nat)
    requires ValidTables(t) && DistinctTags(t.tags) && CopySupported(t) && i <= |cs|
    requires forall k :: 0 <= k < |cs| ==> cs[k].Some? ==> ConformsNode(t, cs[k].value)
    ensures CopyCells(t, cs, i) == Ok(ImageCells(t, cs)[i..])
    decreases cs, |cs| - i
  {
    if i < |cs| {
      var ic := ImageCells(t, cs);
      CellExact(t, cs[i]);
      CopyCellsExact(t, cs, i + 1);
      assert ic[i..] == [ic[i]] + ic[i + 1..];
    }
  }

  lemma {:induction false} CellExact(t: Tables, c: Option<Node>)
    requires ValidTables(t) && DistinctTags(t.tags) && CopySupported(t)
    requires c.Some? ==> ConformsNode(t, c.value)
    ensures CopyNode(t, c) == Ok(ImageCell(t, c))
    decreases c, 1
  {
    if c.Some? {
      CopyIsExact(t, c.value);
    }
  }

  /** The field loop turns a zeroed destination into the image of a conforming struct. */
  lemma {:induction false} CopyFromZeroExact(t: Tables, tag: int, src: seq<Value>, x: Option<int>)
    requires ValidTables(t) && DistinctTags(t.tags) && CopySupported(t) && 0 <= tag < |t.nodeTypes|
    requires ConformsFields(t, tag, FieldsOf(t, tag), src)
    ensures CopyFieldsFrom(t, tag, src, ZeroBase(t, tag, x), 0) == Ok(ImageFields(t, tag, src, x))
    decreases src, 3
  {
    var img := ImageFields(t, tag, src, x);
    CopyFieldsExact(t, tag, src, x, 0);
    assert img[..0] + ZeroBase(t, tag, x)[0..] == ZeroBase(t, tag, x);
  }

  /** The field loop from field i on, fields before i already holding their image, the rest still zero. */
  lemma {:induction false} CopyFieldsExact(t: Tables, tag: int, src: seq<Value>, x: Option<int>, i: nat)
    requires ValidTables(t) && DistinctTags(t.tags) && CopySupported(t) && 0 <= tag < |t.nodeTypes|
    requires ConformsFields(t, tag, FieldsOf(t, tag), src) && i <= |src|
    ensures var img := ImageFields(t, tag, src, x);
            CopyFieldsFrom(t, tag, src, img[..i] + ZeroBase(t, tag, x)[i..], i) == Ok(img)
    decreases src, 2, |src| - i
  {
    var z := ZeroBase(t, tag, x);
    var img := ImageFields(t, tag, src, x);
    if i == |src| {
      assert img[..i] + z[i..] == img;
    } else {
      ImageStep(t, tag, src, x, i);
      CopyFieldsExact(t, tag, src, x, i + 1);
    }
  }

  /** Field i of the loop takes its image. */
  lemma {:induction false} ImageStep(t: Tables, tag: int, src: seq<Value>, x: Option<int>, i: nat)
    requires ValidTables(t) && DistinctTags(t.tags) && CopySupported(t) && 0 <= tag < |t.nodeTypes|
    requires ConformsFields(t, tag, FieldsOf(t, tag), src) && i < |src|
    ensures var img := ImageFields(t, tag, src, x);
            var z := ZeroBase(t, tag, x);
            CopyFieldsFrom(t, tag, src, img[..i] + z[i..], i) == CopyFieldsFrom(t, tag, src, img[..i + 1] + z[i + 1..], i + 1)
    decreases src, 1
  {
    if !HasFlag(FieldsOf(t, tag)[i].flags, TYPE_COPY_IGNORE) {
      CopyValueExact(t, tag, src, x, i);
    }
    CopyFieldsStep(t, tag, src, ImageFields(t, tag, src, x), ZeroBase(t, tag, x), i);
  }

  /** Field i taking its image moves the split point by one. */
  lemma {:induction false} CopyFieldsStep(t: Tables, tag: int, src: seq<Value>, img: seq<Value>, z: seq<Value>, i: nat)
    requires ValidTables(t) && 0 <= tag < |t.nodeTypes|
    requires |src| == |img| == |z| == |FieldsOf(t, tag)| && i < |src|
    requires HasFlag(FieldsOf(t, tag)[i].flags, TYPE_COPY_IGNORE) ==> img[i] == z[i]
    requires !HasFlag(FieldsOf(t, tag)[i].flags, TYPE_COPY_IGNORE) ==>
      CopyValue(t, tag, src, FieldsOf(t, tag)[i], z[i], src[i]) == Ok(img[i])
    ensures CopyFieldsFrom(t, tag, src, img[..i] + z[i..], i) == CopyFieldsFrom(t, tag, src, img[..i + 1] + z[i + 1..], i + 1)
  {
    Splice(img, z, i);
    if HasFlag(FieldsOf(t, tag)[i].flags, TYPE_COPY_IGNORE) {
      assert img[..i] + z[i..] == img[..i + 1] + z[i + 1..];
    }
  }

  /** Overwriting element i of a splice moves the split point by one. */
  lemma {:induction false} Splice<T>(a: seq<T>, b: seq<T>, i: nat)
    requires |a| == |b| && i < |a|
    ensures (a[..i] + b[i..])[i] == b[i]
    ensures (a[..i] + b[i..])[i := a[i]] == a[..i + 1] + b[i + 1..]
  {
    assert (a[..i] + b[i..])[i := a[i]] == a[..i + 1] + b[i + 1..];
  }

  /** One copied field of a conforming struct is copied to its image. */
  lemma {:induction false} CopyValueExact(t: Tables, tag: int, src: seq<Value>, x: Option<int>, i: nat)
    requires ValidTables(t) && DistinctTags(t.tags) && CopySupported(t) && 0 <= tag < |t.nodeTypes|
    requires ConformsFields(t, tag, FieldsOf(t, tag), src) && i < |src|
    requires !HasFlag(FieldsOf(t, tag)[i].flags, TYPE_COPY_IGNORE)
    ensures CopyValue(t, tag, src, FieldsOf(t, tag)[i], ZeroBase(t, tag, x)[i], src[i])
            == Ok(ImageValue(t, FieldsOf(t, tag)[i], if i == 0 then x else None, src[i]))
    decreases src[i], 2
  {
    var infos := FieldsOf(t, tag);
    var f := infos[i];
    var k := f.knownType;
    var v := src[i];
    var base := ZeroBase(t, tag, x)[i];
    assert ConformsValue(t, tag, infos, src, f, v);
    SupportedField(t, tag, i);
    assert i > 0 ==> base == ZeroOf(t, k, f.typeId, f.size, tag);
    if CopiedByAssignment(k) {
    } else if k == KNode {
      if i == 0 {
        ZeroBaseHead(t, tag, x);
        EmbeddedExact(t, f, base, v, x);
      } else {
        EmbeddedExact(t, f, base, v, None);
      }
    } else if k == KDatum {
      DatumExact(t, tag, src, v);
    } else if k == KValueUnion {
      UnionExact(t, TagWord(src).value, base, v);
    } else if k == KPNode {
      if v.node.Some? {
        PNodeExact(t, v);
      }
    } else if k in {KPPgArr, KPChar, KPBitmapset} {
      PointerExact(k, base, v);
    } else {
      assert HasFlag(f.flags, TYPE_CAT_SCALAR);
    }
  }

  lemma {:induction false} EmbeddedExact(t: Tables, f: TIStructField, base: Value, v: Value, x: Option<int>)
    requires ValidTables(t) && DistinctTags(t.tags) && CopySupported(t) && ValidField(t, f) && f.knownType == KNode
    requires ConformsEmbedded(t, f, v)
    requires f.offset == 0 ==> InPlaceStart(t, f, base) == ZeroBase(t, f.typeId, x)
    ensures CopyEmbedded(t, f, base, v) == Ok(ImageValue(t, f, x, v))
    decreases v, 1
  {
    if f.offset == 0 {
      CopyFromZeroExact(t, f.typeId, v.fields, x);
    } else {
      var sub := TagWord(v.fields).value;
      CopyFromZeroExact(t, sub, v.fields, None);
    }
  }

  lemma {:induction false} DatumExact(t: Tables, tag: int, src: seq<Value>, v: Value)
    requires ValidTables(t) && 0 <= tag < |t.nodeTypes|
    requires ConformsDatum(t, FieldsOf(t, tag), src, v)
    ensures CopyDatum(t, tag, src, v) == Ok(v)
  {
  }

  lemma {:induction false} UnionExact(t: Tables, vtag: int, base: Value, v: Value)
    requires DistinctTags(t.tags) && v.Union? && ConformsUnion(t, vtag, v.u)
    requires vtag == t.tags.TNull ==> base == Union(SVal(None))
    ensures CopyUnion(t, Some(vtag), base, v) == Ok(v)
  {
  }

  lemma {:induction false} PNodeExact(t: Tables, v: Value)
    requires ValidTables(t) && DistinctTags(t.tags) && CopySupported(t)
    requires v.NodePtr? && v.node.Some? && ConformsNode(t, v.node.value)
    ensures CopyNode(t, v.node) == Ok(Some(Image(t, v.node.value)))
    decreases v, 1
  {
    CopyIsExact(t, v.node.value);
  }

  /** An unchanged NULL stays NULL, and a pointer to conforming contents is copied exactly. */
  lemma {:induction false} PointerExact(k: KnownType, base: Value, v: Value)
    requires k in {KPPgArr, KPChar, KPBitmapset}
    requires k == KPPgArr ==> v.Arr? && base == Arr(NullArr)
    requires k == KPChar ==> v.Str? && (v.s.Some? ==> '\0' !in v.s.value) && base == Str(None)
    requires k == KPBitmapset ==> v.Bitmap? && base == Bitmap(None)
    ensures CopyPointer(k, base, v) == Ok(v)
  {
    if k == KPChar && v.s.Some? {
      assert CString(v.s.value) == v.s.value;
    }
  }

  // ---------------------------------------------------------------------
  // The copy compares equal

  /**
   * Tables where nothing the copy skips is compared: every COPY_IGNORE
   * field is also EQUAL_IGNORE, and no struct skips its first field, the
   * word holding its tag.
   */
  predicate CopyIgnoredNotCompared(t: Tables)
    requires ValidTables(t)
  {
    forall tag, k :: 0 <= tag < |t.nodeTypes| && 0 <= k < |FieldsOf(t, tag)| ==>
      HasFlag(FieldsOf(t, tag)[k].flags, TYPE_COPY_IGNORE) ==>
        HasFlag(FieldsOf(t, tag)[k].flags, TYPE_EQUAL_IGNORE) && k != 0
  }

  /**
   * The copy of a well-formed node compares equal to the original under the
   * deep comparison, even without the identity short cut, on tables where
   * the fields the copy skips are not compared.
   */
  lemma {:induction false} CopyComparesEqual(t: Tables, n: Node)
    requires ValidTables(t) && DistinctTags(t.tags) && CopySupported(t) && EqualSupported(t)
    requires CopyIgnoredNotCompared(t) && ConformsNode(t, n)
    ensures CopyNode(t, Some(n)).Ok? && CopyNode(t, Some(n)).value.Some?
    ensures EqualContents(t, CopyNode(t, Some(n)).value, Some(n)) == Ok(true)
  {
    CopyIsExact(t, n);
    ImageComparesEqual(t, n);
  }

  /** The image of a well-formed node compares equal to the node. */
  lemma {:induction false} ImageComparesEqual(t: Tables, n: Node)
    requires ValidTables(t) && CopySupported(t) && EqualSupported(t) && CopyIgnoredNotCompared(t)
    requires ConformsNode(t, n)
    ensures EqualContents(t, Some(Image(t, n)), Some(n)) == Ok(true)
    decreases n, 3
  {
    match n
    case Struct(fs) =>
      var tag := TagWord(fs).value;
      ImageTagWord(t, tag, fs, TagWord(fs));
      ImageFieldsMatch(t, tag, fs, TagWord(fs));
    case List(cs) =>
      var ic := ImageCells(t, cs);
      forall k | 0 <= k < |cs|
        ensures Equal(t, ic[k], cs[k]) == Ok(true)
      {
        assert ic[k] == ImageCell(t, cs[k]);
        if cs[k].Some? {
          ImageCellEqual(t, cs[k]);
        }
      }
    case IntList(_) =>
    case OidList(_) =>
  }

  lemma {:induction false} ImageCellEqual(t: Tables, c: Option<Node>)
    requires ValidTables(t) && CopySupported(t) && EqualSupported(t) && CopyIgnoredNotCompared(t)
    requires c.Some? && ConformsNode(t, c.value)
    ensures Equal(t, ImageCell(t, c), c) == Ok(true)
    decreases c, 4
  {
    ImageComparesEqual(t, c.value);
  }

  /** The image of a struct's fields keeps its tag word. */
  lemma {:induction false} ImageTagWord(t: Tables, tag: int, src: seq<Value>, x: Option<int>)
    requires ValidTables(t) && CopySupported(t) && CopyIgnoredNotCompared(t) && 0 <= tag < |t.nodeTypes|
    requires ConformsFields(t, tag, FieldsOf(t, tag), src)
    ensures TagWord(ImageFields(t, tag, src, x)) == TagWord(src)
    decreases src
  {
    if |src| > 0 {
      var infos := FieldsOf(t, tag);
      var f, v := infos[0], src[0];
      assert ConformsValue(t, tag, infos, src, f, v);
      SupportedField(t, tag, 0);
      if f.knownType == KNode {
        assert ConformsEmbedded(t, f, v);
        if f.offset == 0 {
          ImageTagWord(t, f.typeId, v.fields, x);
        } else {
          ImageTagWord(t, TagWord(v.fields).value, v.fields, None);
        }
      }
    }
  }

  /** The image of a conforming struct's fields compares equal to them. */
  lemma {:induction false} ImageFieldsMatch(t: Tables, tag: int, src: seq<Value>, x: Option<int>)
    requires ValidTables(t) && CopySupported(t) && EqualSupported(t) && CopyIgnoredNotCompared(t)
    requires 0 <= tag < |t.nodeTypes| && ConformsFields(t, tag, FieldsOf(t, tag), src)
    ensures EqualFields(t, tag, ImageFields(t, tag, src, x), src) == Ok(true)
    decreases src, 2
  {
    var infos := FieldsOf(t, tag);
    var img := ImageFields(t, tag, src, x);
    forall k | 0 <= k < |src| && !HasFlag(infos[k].flags, TYPE_EQUAL_IGNORE)
      ensures FieldAgrees(t, tag, img, src, infos[k], img[k], src[k])
    {
      ImageFieldAgrees(t, tag, src, x, k);
    }
    EqualFieldsIffMatch(t, tag, img, src);
  }

  /** A compared field of the image agrees with the source field. */
  lemma {:induction false} ImageFieldAgrees(t: Tables, tag: int, src: seq<Value>, x: Option<int>, i: nat)
    requires ValidTables(t) && CopySupported(t) && EqualSupported(t) && CopyIgnoredNotCompared(t)
    requires 0 <= tag < |t.nodeTypes| && ConformsFields(t, tag, FieldsOf(t, tag), src)
    requires i < |src| && !HasFlag(FieldsOf(t, tag)[i].flags, TYPE_EQUAL_IGNORE)
    ensures var img := ImageFields(t, tag, src, x);
            FieldAgrees(t, tag, img, src, FieldsOf(t, tag)[i], img[i], src[i])
    decreases src[i], 1
  {
    var infos := FieldsOf(t, tag);
    var img := ImageFields(t, tag, src, x);
    var f, v := infos[i], src[i];
    var k := f.knownType;
    assert ConformsValue(t, tag, infos, src, f, v);
    assert img[i] == ImageValue(t, f, if i == 0 then x else None, v);
    if k == KNode {
      assert ConformsEmbedded(t, f, v);
      if f.offset == 0 {
        ImageFieldsMatch(t, f.typeId, v.fields, if i == 0 then x else None);
      } else {
        var sub := TagWord(v.fields).value;
        ImageTagWord(t, sub, v.fields, None);
        ImageFieldsMatch(t, sub, v.fields, None);
      }
    } else if k == KDatum {
      ImageBools(t, tag, src, x);
      ImageBoolField(t, infos, img, src, "constisnull");
    } else if k == KValueUnion {
      ImageTagWord(t, tag, src, x);
    } else if k == KPNode {
      if v.node.Some? {
        ImageComparesEqual(t, v.node.value);
      }
    } else if !EqualSpecialKind(k) {
      assert ValidField(t, f);
    }
  }

  /** The image keeps every bool field a bool. */
  lemma {:induction false} ImageBools(t: Tables, tag: int, src: seq<Value>, x: Option<int>)
    requires ValidTables(t) && CopyIgnoredNotCompared(t) && 0 <= tag < |t.nodeTypes|
    requires ConformsFields(t, tag, FieldsOf(t, tag), src)
    ensures forall j :: 0 <= j < |src| && src[j].Bool? ==> ImageFields(t, tag, src, x)[j].Bool?
  {
    var infos := FieldsOf(t, tag);
    forall j | 0 <= j < |src| && src[j].Bool?
      ensures ImageFields(t, tag, src, x)[j].Bool?
    {
      ImageBoolAt(t, tag, src, x, j);
    }
  }

  lemma {:induction false} ImageBoolAt(t: Tables, tag: int, src: seq<Value>, x: Option<int>, j: nat)
    requires ValidTables(t) && CopyIgnoredNotCompared(t) && 0 <= tag < |t.nodeTypes|
    requires ConformsFields(t, tag, FieldsOf(t, tag), src)
    requires j < |src| && src[j].Bool?
    ensures ImageFields(t, tag, src, x)[j].Bool?
  {
    var infos := FieldsOf(t, tag);
    var f := infos[j];
    assert ConformsValue(t, tag, infos, src, f, src[j]);
    if HasFlag(f.flags, TYPE_COPY_IGNORE) {
      var k := f.knownType;
      ConformingBool(t, tag, infos, src, f, src[j]);
      assert ZeroFields(t, tag)[j] == ZeroOf(t, k, f.typeId, f.size, tag);
      assert j != 0;
    }
  }

  /** Only a bool field holds a bool. */
  lemma {:induction false} ConformingBool(t: Tables, tag: int, infos: seq<TIStructField>, vals: seq<Value>,
                                          f: TIStructField, v: Value)
    requires ValidTables(t) && 0 <= tag < |t.nodeTypes| && infos == FieldsOf(t, tag) && ValidField(t, f)
    requires ConformsValue(t, tag, infos, vals, f, v) && v.Bool?
    ensures f.knownType == KBool
  {
  }

  /** A bool sibling that reads in the source reads in a struct that keeps every bool a bool. */
  lemma {:induction false} ImageBoolField(t: Tables, infos: seq<TIStructField>, a: seq<Value>, b: seq<Value>, name: string)
    requires ValidTables(t) && forall k :: 0 <= k < |infos| ==> ValidField(t, infos[k])
    requires |a| == |b| && forall j :: 0 <= j < |b| && b[j].Bool? ==> a[j].Bool?
    requires BoolField(t, infos, b, name).Ok?
    ensures BoolField(t, infos, a, name).Ok?
  {
  }
}
