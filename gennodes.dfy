// The decision logic of the node-metadata generator, src/backend/nodes/gennodes.c:
// the string tables it looks names up in and interns names into, the flag
// list it renders as a C expression, and the rules that decide, for each
// field of a node struct, its known type, its type id and its flags.
//
// libclang is not part of this model.  What the generator asks clang about
// a type (its kind, its spelling, its canonical type, the pointee of a
// pointer, the element type of a pgarr struct, whether its size is known, the
// constants of an enum) is given as a `CType` value.  The text the generator
// prints is modelled by the records it describes: a field record holds the
// string-table ids, the rendered flag expression and the known-type
// identifiers it would print.

module GenNodes {
  import opened Wrappers
  import opened CInt
  import NodeInfo

  // ---------------------------------------------------------------------
  // string_in_arr

  /**
   * The position of the first entry equal to `m` in a table of C strings
   * whose entries may be NULL (`None`), or -1 when there is none.
   */
  function IndexOf(arr: seq<Option<string>>, m: string): (r: int)
    ensures -1 <= r < |arr|
    decreases |arr|
  {
    if |arr| == 0 then -1
    else if arr[0] == Some(m) then 0
    else
      var k := IndexOf(arr[1..], m);
      if k == -1 then -1 else k + 1
  }

  /** IndexOf is -1 exactly when `m` is absent, and otherwise the first position holding `m`. */
  lemma {:induction false} IndexOfMeaning(arr: seq<Option<string>>, m: string)
    ensures IndexOf(arr, m) == -1 <==> Some(m) !in arr
    ensures IndexOf(arr, m) >= 0 ==> arr[IndexOf(arr, m)] == Some(m) && Some(m) !in arr[..IndexOf(arr, m)]
    decreases |arr|
  {
    if |arr| > 0 && arr[0] != Some(m) {
      IndexOfMeaning(arr[1..], m);
      assert arr == [arr[0]] + arr[1..];
      var k := IndexOf(arr[1..], m);
      if k >= 0 {
        assert arr[..k + 1] == [arr[0]] + arr[1..][..k];
      }
    }
  }

  /** The first position holding `m` (or -1 when there is none) is IndexOf. */
  lemma {:induction false} IndexOfIs(arr: seq<Option<string>>, m: string, r: int)
    requires (r == -1 && Some(m) !in arr) || (0 <= r < |arr| && arr[r] == Some(m) && Some(m) !in arr[..r])
    ensures IndexOf(arr, m) == r
  {
    IndexOfMeaning(arr, m);
  }

  /** Appending to a table that already holds `m` does not move it. */
  lemma {:induction false} IndexOfExtended(arr: seq<Option<string>>, more: seq<Option<string>>, m: string)
    requires Some(m) in arr
    ensures IndexOf(arr + more, m) == IndexOf(arr, m)
  {
    IndexOfMeaning(arr, m);
    var k := IndexOf(arr, m);
    assert (arr + more)[..k] == arr[..k];
    IndexOfIs(arr + more, m, k);
  }

  /** Appending `m` to a table that lacks it puts it at the old length. */
  lemma {:induction false} IndexOfAppended(arr: seq<Option<string>>, m: string)
    requires Some(m) !in arr
    ensures IndexOf(arr + [Some(m)], m) == |arr|
  {
    assert (arr + [Some(m)])[..|arr|] == arr;
    IndexOfIs(arr + [Some(m)], m, |arr|);
  }

  /**
   * string_in_arr: a scan for the first entry equal to `match`, skipping
   * NULL entries (lines 56-71).  The C loop counts with an `int`.
   */
  method StringInArr(arr: seq<Option<string>>, m: string) returns (r: int)
    requires |arr| <= INT32_MAX
    ensures r == IndexOf(arr, m)
    ensures r == -1 <==> Some(m) !in arr
    ensures r >= 0 ==> arr[r] == Some(m) && Some(m) !in arr[..r]
  {
    r := -1;
    var i := 0;
    while i < |arr|
      invariant 0 <= i <= |arr|
      invariant Some(m) !in arr[..i]
    {
      var el := arr[i];
      if el.Some? && el.value == m {
        r := i;
        break;
      }
      assert arr[..i + 1] == arr[..i] + [el];
      i := i + 1;
    }
    if r == -1 {
      assert arr[..i] == arr;
    }
    IndexOfIs(arr, m, r);
  }

  /** No string occurs twice among the non-NULL entries of a table. */
  predicate Distinct(arr: seq<Option<string>>)
  {
    forall i, j | 0 <= i < j < |arr| :: arr[i].Some? ==> arr[i] != arr[j]
  }

  /** Appending a string the table lacks keeps it free of duplicates. */
  lemma {:induction false} DistinctAppend(arr: seq<Option<string>>, m: string)
    requires Distinct(arr) && Some(m) !in arr
    ensures Distinct(arr + [Some(m)])
  {
    var a := arr + [Some(m)];
    forall i, j | 0 <= i < j < |a| && a[i].Some?
      ensures a[i] != a[j]
    {
      if j == |arr| {
        assert a[i] == arr[i];
      }
    }
  }

  // ---------------------------------------------------------------------
  // The flag list and flag_append

  /** The flag names the generator appends (the TYPE_* defines of nodes/nodeinfo.h). */
  datatype FlagName =
    | CatScalar | CatIncomplete | EqualIgnore | EqualForceScalar | CopyIgnore | CopyForceScalar | OutIgnore

  /** The identifier printed for a flag. */
  function Name(f: FlagName): (s: string)
    ensures |s| > 1
  {
    match f
    case CatScalar => "TYPE_CAT_SCALAR"
    case CatIncomplete => "TYPE_CAT_INCOMPLETE"
    case EqualIgnore => "TYPE_EQUAL_IGNORE"
    case EqualForceScalar => "TYPE_EQUAL_FORCE_SCALAR"
    case CopyIgnore => "TYPE_COPY_IGNORE"
    case CopyForceScalar => "TYPE_COPY_FORCE_SCALAR"
    case OutIgnore => "TYPE_OUT_IGNORE"
  }

  /** The C expression `f1 | f2 | ... | fn` naming the flags `fs` (empty for no flags). */
  function Join(fs: seq<FlagName>): string
  {
    if |fs| == 0 then ""
    else if |fs| == 1 then Name(fs[0])
    else Name(fs[0]) + " | " + Join(fs[1..])
  }

  /** The flags initializer: the joined names, or `0` for no flags (lines 557-558). */
  function Render(fs: seq<FlagName>): string
  {
    if |fs| == 0 then "0" else Join(fs)
  }

  /** Joining gives the empty text only for no flags. */
  lemma {:induction false} JoinEmpty(fs: seq<FlagName>)
    ensures Join(fs) == [] <==> fs == []
  {
    if |fs| > 1 {
      assert |Name(fs[0]) + " | " + Join(fs[1..])| > 0;
    }
  }

  /**
   * What flag_append does to a buffer holding Join(fs) (lines 89-95): the
   * separator goes in only when the buffer is non-empty, and the result is
   * Join(fs + [f]).
   */
  lemma {:induction false} JoinSnoc(fs: seq<FlagName>, f: FlagName)
    ensures Join(fs + [f]) == if Join(fs) == [] then Name(f) else Join(fs) + " | " + Name(f)
    decreases |fs|
  {
    JoinEmpty(fs);
    if |fs| == 1 {
      assert fs + [f] == [fs[0], f];
      assert [fs[0], f][1..] == [f];
    } else if |fs| > 1 {
      var tail := fs[1..];
      assert (fs + [f])[1..] == tail + [f];
      assert Join(fs + [f]) == Name(fs[0]) + " | " + Join(tail + [f]);
      JoinSnoc(tail, f);
      JoinEmpty(tail);
      ConcatAssoc(Name(fs[0]) + " | ", Join(tail), " | " + Name(f));
    }
  }

  /** The rendered flags read `0` exactly when no flag was appended. */
  lemma {:induction false} RenderZero(fs: seq<FlagName>)
    ensures Render(fs) == "0" <==> fs == []
  {
    if |fs| > 1 {
      assert |Name(fs[0]) + " | " + Join(fs[1..])| > 1;
    }
  }

  /** The flags buffer of one field record; `added` is the list of names appended so far. */
  class FlagBuffer {
    var data: string
    ghost var added: seq<FlagName>

    ghost predicate Valid()
      reads this
    {
      data == Join(added)
    }

    /** The flag buffer starts empty, as initStringInfo leaves it. */
    constructor ()
      ensures Valid() && added == [] && data == []
    {
      data := [];
      added := [];
    }

    /** flag_append (lines 89-95): ` | ` only between names. */
    method Append(flag: FlagName)
      requires Valid()
      modifies this
      ensures Valid() && added == old(added) + [flag]
    {
      JoinSnoc(added, flag);
      if |data| > 0 {
        data := data + " | ";
      }
      data := data + Name(flag);
      added := added + [flag];
    }

    /** Finishing the flag text: an empty buffer becomes `0` (lines 557-558). */
    method Finish()
      requires Valid()
      modifies this
      ensures data == Render(added) && added == old(added)
    {
      JoinEmpty(added);
      if |data| == 0 {
        data := data + ['0'];
      }
    }
  }

  // ---------------------------------------------------------------------
  // Types as clang reports them, and categorize_type

  /** The clang type kinds the generator distinguishes. */
  datatype TypeKind =
    | Invalid | Pointer | Typedef | Record | Enum | Bool
    | CharS | SChar | CharU | UChar
    | UShort | UInt | ULong | ULongLong | UInt128
    | Short | Int | Long | LongLong | Int128
    | Float | Double | OtherKind

  /** One enumerator of an enum declaration: its name and its unsigned value. */
  datatype EnumConstDecl = EnumConstDecl(name: string, value: nat)

  /**
   * A type: its own kind and spelling, the kind and spelling of its
   * canonical type, the pointee of the canonical type when that is a
   * pointer, the element type found in a pgarr struct's `elementsp` field
   * (None when the struct does not have the size/capacity/elementsp shape),
   * whether clang knows its size, and the constants of its enum declaration.
   */
  datatype CType = CType(
    kind: TypeKind, spelling: string, canonKind: TypeKind, canonSpelling: string,
    pointee: Option<CType>, elem: Option<CType>, sizeKnown: bool,
    enumerators: seq<EnumConstDecl>)

  /** The zeroed CXType: kind Invalid, no spelling, no size. */
  const InvalidType: CType := CType(Invalid, [], Invalid, [], None, None, false, [])

  /** Whether the field is a pointer (tpref's test on the canonicalised `intype`). */
  predicate IsPtr(t: CType) { t.canonKind == Pointer }

  /** The type categorize_type examines: the pointee of a pointer, else the type itself. */
  function Target(t: CType): CType
  {
    if IsPtr(t) then (if t.pointee.Some? then t.pointee.value else InvalidType) else t
  }

  /** The element type of a pgarr struct (the zeroed type when it has no valid `elementsp`). */
  function ElemOf(u: CType): CType
  {
    if u.elem.Some? then u.elem.value else InvalidType
  }

  /** The identifier part after KNOWN_TYPE_ / KNOWN_TYPE_P_. */
  datatype KnownBase =
    | Unknown | EnumT | NodeT | Oid | Location | CoercionForm | NodeTagT | Datum | Char
    | UInt16 | UInt32 | UInt128T | Int16 | Int32 | Int128T | Float32 | Float64 | BoolT
    | Bitmapset | PgArr | ValueUnion | OpFuncId

  /**
   * A known-type initializer as printed: `KNOWN_TYPE_<base>` or
   * `KNOWN_TYPE_P_<base>`, or for long integers the expression choosing the
   * 64- or 32-bit identifier by `sizeof(<canonical name>)`.
   */
  datatype KnownId =
    | Known(base: KnownBase, pointer: bool)
    | SizeDependent(signed: bool, pointer: bool, canonName: string)

  /** "KNOWN_TYPE_UNKNOWN", the initial value of both known-type outputs. */
  const UnknownId: KnownId := Known(Unknown, false)

  /** The branches of categorize_type's else-if chain (lines 235-353), in order. */
  datatype Branch =
    | BOid | BLocation | BCoercionForm | BNodeTag | BDatum | BChar | BUnsigned | BSigned
    | BFloat | BDouble | BBool | BBitmapset | BNode | BPgArr | BValueUnion | BNone

  const ArrayOfPrefix: string := "struct ArrayOf"

  /** The first branch of the chain whose condition holds for the examined type `u`. */
  function BranchOf(u: CType): Branch
  {
    var td := u.kind == Typedef;
    var ck := u.canonKind;
    if td && ck == UInt && u.spelling == "Oid" then BOid
    else if td && ck == Int && u.spelling == "Location" then BLocation
    else if td && ck == Enum && u.spelling == "CoercionForm" then BCoercionForm
    else if td && ck == Enum && u.spelling == "NodeTag" then BNodeTag
    else if td && (ck == UInt || ck == ULong || ck == ULongLong) && u.spelling == "Datum" then BDatum
    else if ck == CharS || ck == SChar || ck == CharU || ck == UChar then BChar
    else if ck == UShort || ck == UInt || ck == ULong || ck == ULongLong || ck == UInt128 then BUnsigned
    else if ck == Short || ck == Int || ck == Long || ck == LongLong || ck == Int128 then BSigned
    else if ck == Float then BFloat
    else if ck == Double then BDouble
    else if ck == Bool then BBool
    else if u.canonSpelling == "struct Bitmapset" then BBitmapset
    else if u.canonSpelling == "struct Node" then BNode
    else if |u.canonSpelling| >= |ArrayOfPrefix| && u.canonSpelling[..|ArrayOfPrefix|] == ArrayOfPrefix then BPgArr
    else if ck == Record && u.canonSpelling == "union ValUnion" then BValueUnion
    else BNone
  }

  /**
   * The known type a plain branch assigns (every branch but BNode and BPgArr);
   * BNone keeps `k`, the value set by the enum or node-type lookup.
   */
  function BranchKnown(b: Branch, u: CType, p: bool, k: KnownId): KnownId
  {
    var ck := u.canonKind;
    if b == BOid then Known(Oid, p)
    else if b == BLocation then Known(Location, p)
    else if b == BCoercionForm then Known(CoercionForm, p)
    else if b == BNodeTag then Known(NodeTagT, p)
    else if b == BDatum then Known(Datum, p)
    else if b == BChar then Known(Char, p)
    else if b == BUnsigned then
      (if ck == UShort then Known(UInt16, p)
       else if ck == UInt then Known(UInt32, p)
       else if ck == ULong || ck == ULongLong then SizeDependent(false, p, u.canonSpelling)
       else Known(UInt128T, p))
    else if b == BSigned then
      (if ck == Short then Known(Int16, p)
       else if ck == Int then Known(Int32, p)
       else if ck == Long || ck == LongLong then SizeDependent(true, p, u.canonSpelling)
       else Known(Int128T, p))
    else if b == BFloat then Known(Float32, p)
    else if b == BDouble then Known(Float64, p)
    else if b == BBool then Known(BoolT, p)
    else if b == BBitmapset then Known(Bitmapset, p)
    else if b == BValueUnion then Known(ValueUnion, p)
    else k
  }

  /** The outputs of categorize_type: type id, known type, element known type, element size. */
  datatype Cat = Cat(typeId: int, known: KnownId, elemKnown: KnownId, elemSize: Option<string>)

  /**
   * The head of categorize_type (lines 216-232): an enum gives ENUM and its
   * registry index, a node struct NODE and its node-type index, each index
   * as uint16; anything else leaves the outputs as they were.
   */
  function Looked(nodeTypes: seq<Option<string>>, enums: seq<Option<string>>, u: CType, p: bool, c0: Cat): Cat
  {
    if u.canonKind == Enum then c0.(typeId := ToUInt16(IndexOf(enums, u.canonSpelling)), known := Known(EnumT, p))
    else if IndexOf(nodeTypes, u.canonSpelling) != -1 then
      c0.(typeId := ToUInt16(IndexOf(nodeTypes, u.canonSpelling)), known := Known(NodeT, p))
    else c0
  }

  const NodeEmbedded: string := "struct Node cannot be embedded"
  const NestedArrays: string := "recursive arrays are not supported"
  const NodeTypeIdSet: string := "Assert(*type_id == TYPE_ID_UNKNOWN)"

  /**
   * Every branch of the chain but the pgarr one, after the lookups gave
   * `c1`: struct Node must be pointed to and must not carry a type id; the
   * others set their known type.
   */
  function Plain(b: Branch, u: CType, p: bool, c1: Cat): Result<Cat>
  {
    if b == BNode then
      if !p then Err(Abort(NodeEmbedded))
      else if c1.typeId != NodeInfo.TYPE_ID_UNKNOWN then Err(Abort(NodeTypeIdSet))
      else Ok(c1.(known := Known(NodeT, true)))
    else Ok(c1.(known := BranchKnown(b, u, p, c1.known)))
  }

  /**
   * categorize_type called for a pgarr element, with NULL element outputs:
   * a pgarr there is refused.
   */
  function CategorizedElem(nodeTypes: seq<Option<string>>, enums: seq<Option<string>>, t: CType, c0: Cat): Result<Cat>
  {
    var p := IsPtr(t);
    var u := Target(t);
    var c1 := Looked(nodeTypes, enums, u, p, c0);
    var b := BranchOf(u);
    if b == BPgArr then Err(Abort(NestedArrays)) else Plain(b, u, p, c1)
  }

  /**
   * categorize_type (lines 181-353) for a field of type `t`, starting from
   * outputs `c0`, with the node-type names `nodeTypes` and the enum
   * registry `enums` left by the call.  A pgarr passes its element type to
   * the element call with the type id and the element known type as its
   * outputs, and records the element's size when clang knows it.
   */
  function CategorizedField(nodeTypes: seq<Option<string>>, enums: seq<Option<string>>, t: CType, c0: Cat): Result<Cat>
  {
    var p := IsPtr(t);
    var u := Target(t);
    var c1 := Looked(nodeTypes, enums, u, p, c0);
    var b := BranchOf(u);
    if b == BPgArr then
      var e := ElemOf(u);
      var inner := CategorizedElem(nodeTypes, enums, e, Cat(c1.typeId, c1.elemKnown, UnknownId, None));
      if inner.Err? then inner
      else Ok(Cat(inner.value.typeId, Known(PgArr, p), inner.value.known,
                  if e.sizeKnown then Some(e.spelling) else c1.elemSize))
    else Plain(b, u, p, c1)
  }

  /** The categorization of the field call (`top`) or of the element call. */
  function Categorized(nodeTypes: seq<Option<string>>, enums: seq<Option<string>>, t: CType, c0: Cat, top: bool): Result<Cat>
  {
    if top then CategorizedField(nodeTypes, enums, t, c0) else CategorizedElem(nodeTypes, enums, t, c0)
  }

  /**
   * The flags one call of categorize_type appends itself: TYPE_CAT_SCALAR
   * on both the pointer and the non-pointer branch (lines 198-208), then
   * TYPE_EQUAL_IGNORE for Location and CoercionForm (lines 235-247).
   */
  function OwnFlags(t: CType): seq<FlagName>
  {
    var b := BranchOf(Target(t));
    [CatScalar] + (if b == BLocation || b == BCoercionForm then [EqualIgnore] else [])
  }

  /** The flags categorize_type appends: its own, then for a pgarr the element call's. */
  function CategoryFlags(t: CType, top: bool): seq<FlagName>
  {
    var u := Target(t);
    OwnFlags(t) + (if top && BranchOf(u) == BPgArr then OwnFlags(ElemOf(u)) else [])
  }

  // ---------------------------------------------------------------------
  // The per-field override rules of find_StructFields_vis (lines 436-558)

  /** The eight RestrictInfo fields that equal() compares. */
  predicate RestrictInfoCompared(f: string)
  {
    f == "type" || f == "clause" || f == "is_pushed_down" || f == "outerjoin_delayed" ||
    f == "security_level" || f == "required_relids" || f == "outer_relids" || f == "nullable_relids"
  }

  /** The RestrictInfo pointers to equivalence classes and members, copied shallowly. */
  predicate RestrictInfoEcPointer(f: string)
  {
    f == "parent_ec" || f == "left_ec" || f == "right_ec" || f == "left_em" || f == "right_em"
  }

  /** The branches of the rule chain, in order. */
  datatype Rule =
    | RFirstTag | RPlaceHolderVar | RQuery | RAggref | RGroupingFunc | RRestrictInfo | RPathKey
    | ROpFuncId | RNoRule

  /** The rule chosen for field `field` at position `off` of struct `st` whose known type is `k`. */
  function RuleOf(st: string, field: string, off: int, k: KnownId): Rule
  {
    if k == Known(NodeTagT, false) && off == 0 then RFirstTag
    else if st == "struct PlaceHolderVar" then RPlaceHolderVar
    else if st == "struct Query" then RQuery
    else if st == "struct Aggref" then RAggref
    else if st == "struct GroupingFunc" then RGroupingFunc
    else if st == "struct RestrictInfo" then RRestrictInfo
    else if st == "struct PathKey" then RPathKey
    else if field == "opfuncid" then ROpFuncId
    else RNoRule
  }

  /** The flags the chosen rule appends. */
  function RuleFlags(r: Rule, field: string): seq<FlagName>
  {
    if r == RFirstTag then [OutIgnore]
    else if r == RPlaceHolderVar then (if field == "phrels" || field == "phexpr" then [EqualIgnore] else [])
    else if r == RQuery then (if field == "queryId" then [EqualIgnore] else [])
    else if r == RAggref then (if field == "aggtranstype" then [EqualIgnore] else [])
    else if r == RGroupingFunc then (if field == "refs" || field == "cols" then [EqualIgnore] else [])
    else if r == RRestrictInfo then
      (if !RestrictInfoCompared(field) then [EqualIgnore] else []) +
      (if RestrictInfoEcPointer(field) then [CopyForceScalar] else []) +
      (if field == "scansel_cache" then [CopyIgnore] else [])
    else if r == RPathKey then (if field == "pk_eclass" then [EqualForceScalar, CopyForceScalar] else [])
    else []
  }

  /** The known type after the rules: only the opfuncid rule overrides it. */
  function RuleKnown(r: Rule, k: KnownId): KnownId
  {
    if r == ROpFuncId then Known(OpFuncId, false) else k
  }

  /** Every flag a field of type `t` named `field` at position `off` of struct `st` receives, in order. */
  function FieldFlags(st: string, field: string, off: int, t: CType, k: KnownId): seq<FlagName>
  {
    CategoryFlags(t, true) + (if !t.sizeKnown then [CatIncomplete] else []) + RuleFlags(RuleOf(st, field, off, k), field)
  }

  // ---------------------------------------------------------------------
  // The collected tables

  /** An enum record: the string id of its name and the slice of enum constants it owns. */
  datatype EnumRecord = EnumRecord(name: nat, firstFieldAt: nat, numFields: nat)

  /** An enum constant record: the string id of its name and its value as uint32. */
  datatype EnumConstRecord = EnumConstRecord(name: nat, value: int)

  /**
   * A struct field record: string ids of the field name and of its canonical
   * type name, its size (None for TYPE_SIZE_UNKNOWN, else the spelled type),
   * the rendered flags, the type id and the known-type identifiers.
   */
  datatype FieldRecord = FieldRecord(
    name: nat, typ: nat, size: Option<string>, flags: string, typeId: int,
    known: KnownId, elemKnown: KnownId, elemSize: Option<string>)

  /** The string table: no duplicates, no NULL, and its size fits the int the lookups count with. */
  predicate TableOk(tab: seq<Option<string>>)
  {
    Distinct(tab) && (forall i | 0 <= i < |tab| :: tab[i].Some?) && |tab| <= INT32_MAX - 1
  }

  /** Every enum constant record names a string of the table. */
  predicate ConstsNamed(tab: seq<Option<string>>, cs: seq<EnumConstRecord>)
  {
    forall i | 0 <= i < |cs| :: cs[i].name < |tab|
  }

  /**
   * Each enum is registered once, its record names it and owns a slice of
   * the constant table.
   */
  predicate EnumsOk(tab: seq<Option<string>>, names: seq<Option<string>>, recs: seq<EnumRecord>, cs: seq<EnumConstRecord>)
  {
    Distinct(names) && |recs| == |names| && |names| <= INT32_MAX - 1 &&
    (forall i | 0 <= i < |recs| ::
       recs[i].name < |tab| && tab[recs[i].name] == names[i] && recs[i].firstFieldAt + recs[i].numFields <= |cs|)
  }

  /** Every field record names strings of the table. */
  predicate FieldsNamed(tab: seq<Option<string>>, fs: seq<FieldRecord>)
  {
    forall i | 0 <= i < |fs| :: fs[i].name < |tab| && fs[i].typ < |tab|
  }

  /**
   * The constants `consts` of one enum sit, in order, at `start` of the
   * constant table, each naming its own string and holding its value
   * truncated to uint32.
   */
  predicate SliceHolds(tab: seq<Option<string>>, cs: seq<EnumConstRecord>, start: nat, consts: seq<EnumConstDecl>)
  {
    start + |consts| <= |cs| &&
    forall x | start <= x < start + |consts| ::
      cs[x].name < |tab| && tab[cs[x].name] == Some(consts[x - start].name) &&
      cs[x].value == ToUInt32(consts[x - start].value)
  }

  /** Growing the string table keeps every reference into it. */
  lemma {:induction false} TableGrows(tab: seq<Option<string>>, tab2: seq<Option<string>>,
      names: seq<Option<string>>, recs: seq<EnumRecord>, cs: seq<EnumConstRecord>, fs: seq<FieldRecord>)
    requires tab <= tab2
    ensures ConstsNamed(tab, cs) ==> ConstsNamed(tab2, cs)
    ensures EnumsOk(tab, names, recs, cs) ==> EnumsOk(tab2, names, recs, cs)
    ensures FieldsNamed(tab, fs) ==> FieldsNamed(tab2, fs)
  {
    if EnumsOk(tab, names, recs, cs) {
      forall i | 0 <= i < |recs|
        ensures recs[i].name < |tab2| && tab2[recs[i].name] == names[i]
      {
        assert tab2[recs[i].name] == tab[recs[i].name];
      }
    }
  }

  /** Growing the string table keeps a recorded slice. */
  lemma {:induction false} SliceGrows(tab: seq<Option<string>>, tab2: seq<Option<string>>,
      cs: seq<EnumConstRecord>, start: nat, consts: seq<EnumConstDecl>)
    requires tab <= tab2 && SliceHolds(tab, cs, start, consts)
    ensures SliceHolds(tab2, cs, start, consts)
  {
    forall x | start <= x < start + |consts|
      ensures cs[x].name < |tab2| && tab2[cs[x].name] == Some(consts[x - start].name)
    {
      assert tab2[cs[x].name] == tab[cs[x].name];
    }
  }

  /** Recording one more constant extends the recorded slice. */
  lemma {:induction false} SliceExtends(tab: seq<Option<string>>, cs: seq<EnumConstRecord>, start: nat,
      consts: seq<EnumConstDecl>, k: nat, nid: nat)
    requires k < |consts| && |cs| == start + k && SliceHolds(tab, cs, start, consts[..k])
    requires nid < |tab| && tab[nid] == Some(consts[k].name)
    ensures SliceHolds(tab, cs + [EnumConstRecord(nid, ToUInt32(consts[k].value))], start, consts[..k + 1])
  {
    var cs2 := cs + [EnumConstRecord(nid, ToUInt32(consts[k].value))];
    forall x | start <= x < start + k + 1
      ensures cs2[x].name < |tab| && tab[cs2[x].name] == Some(consts[..k + 1][x - start].name) &&
              cs2[x].value == ToUInt32(consts[..k + 1][x - start].value)
    {
      if x < start + k {
        assert cs2[x] == cs[x];
        assert consts[..k + 1][x - start] == consts[..k][x - start];
      }
    }
  }

  /** Appending constants keeps every enum's slice inside the constant table. */
  lemma {:induction false} ConstsGrow(tab: seq<Option<string>>, names: seq<Option<string>>, recs: seq<EnumRecord>,
      cs: seq<EnumConstRecord>, c: EnumConstRecord)
    requires EnumsOk(tab, names, recs, cs) && ConstsNamed(tab, cs) && c.name < |tab|
    ensures EnumsOk(tab, names, recs, cs + [c]) && ConstsNamed(tab, cs + [c])
  {
  }

  /** Registering a new enum whose record names it keeps the registry well formed. */
  lemma {:induction false} EnumRegistered(tab: seq<Option<string>>, names: seq<Option<string>>, recs: seq<EnumRecord>,
      cs: seq<EnumConstRecord>, name: string, rec: EnumRecord)
    requires EnumsOk(tab, names, recs, cs) && Some(name) !in names && |names| < INT32_MAX - 1
    requires rec.name < |tab| && tab[rec.name] == Some(name) && rec.firstFieldAt + rec.numFields <= |cs|
    ensures EnumsOk(tab, names + [Some(name)], recs + [rec], cs)
  {
    DistinctAppend(names, name);
  }

  /** The part of CollectInfo this model keeps. */
  class CollectInfo {
    var strtab: seq<Option<string>>
    var nodeTypes: seq<Option<string>>
    var interestingEnums: seq<Option<string>>
    var enums: seq<EnumRecord>
    var enumConsts: seq<EnumConstRecord>
    var fields: seq<FieldRecord>
    var off: nat

    /** The string table, the enum registry and the field records are well formed. */
    predicate Valid()
      reads this
    {
      TableOk(strtab) && |nodeTypes| <= INT32_MAX && EnumsOk(strtab, interestingEnums, enums, enumConsts) &&
      ConstsNamed(strtab, enumConsts) && FieldsNamed(strtab, fields)
    }

    /** The zeroed CollectInfo of main, with the node-type names already collected. */
    constructor (nodeTypeNames: seq<Option<string>>)
      requires |nodeTypeNames| <= INT32_MAX
      ensures Valid() && nodeTypes == nodeTypeNames
      ensures strtab == [] && interestingEnums == [] && enums == [] && enumConsts == [] && fields == [] && off == 0
    {
      strtab := [];
      nodeTypes := nodeTypeNames;
      interestingEnums := [];
      enums := [];
      enumConsts := [];
      fields := [];
      off := 0;
    }

    /**
     * intern_string (lines 73-87): the id of `str` in the string table,
     * appending it when absent, so that the table never holds a duplicate.
     */
    method Intern(str: string) returns (id: nat)
      requires Valid() && |strtab| < INT32_MAX - 1
      modifies this
      ensures Valid() && id < |strtab| && strtab[id] == Some(str)
      ensures old(Some(str) in strtab) ==> strtab == old(strtab) && id == IndexOf(strtab, str)
      ensures old(Some(str) !in strtab) ==> strtab == old(strtab) + [Some(str)] && id == old(|strtab|)
      ensures nodeTypes == old(nodeTypes) && interestingEnums == old(interestingEnums) && enums == old(enums)
      ensures enumConsts == old(enumConsts) && fields == old(fields) && off == old(off)
    {
      var i := StringInArr(strtab, str);
      if i != -1 {
        id := i;
      } else {
        DistinctAppend(strtab, str);
        TableGrows(strtab, strtab + [Some(str)], interestingEnums, enums, enumConsts, fields);
        strtab := strtab + [Some(str)];
        id := |strtab| - 1;
      }
    }

    /**
     * find_EnumFields_vis (lines 131-145) over the constants of one enum:
     * each name interned, each record appended, so that they form one
     * contiguous slice starting at the old end of the constant table.
     */
    method AddEnumConsts(consts: seq<EnumConstDecl>)
      requires Valid() && |strtab| + |consts| < INT32_MAX - 1
      modifies this
      ensures Valid() && SliceHolds(strtab, enumConsts, old(|enumConsts|), consts)
      ensures |enumConsts| == old(|enumConsts|) + |consts| && enumConsts[..old(|enumConsts|)] == old(enumConsts)
      ensures old(strtab) <= strtab && |strtab| <= old(|strtab|) + |consts|
      ensures nodeTypes == old(nodeTypes) && interestingEnums == old(interestingEnums) && enums == old(enums)
      ensures fields == old(fields) && off == old(off)
    {
      var start := |enumConsts|;
      for k := 0 to |consts|
        invariant Valid()
        invariant old(strtab) <= strtab && |strtab| <= old(|strtab|) + k
        invariant |enumConsts| == start + k && enumConsts[..start] == old(enumConsts)
        invariant SliceHolds(strtab, enumConsts, start, consts[..k])
        invariant nodeTypes == old(nodeTypes) && interestingEnums == old(interestingEnums) && enums == old(enums)
        invariant fields == old(fields) && off == old(off)
      {
        ghost var tab0 := strtab;
        var nid := Intern(consts[k].name);
        SliceGrows(tab0, strtab, enumConsts, start, consts[..k]);
        SliceExtends(strtab, enumConsts, start, consts, k, nid);
        var rec := EnumConstRecord(nid, ToUInt32(consts[k].value));
        ConstsGrow(strtab, interestingEnums, enums, enumConsts, rec);
        assert (enumConsts + [rec])[..start] == enumConsts[..start];
        enumConsts := enumConsts + [rec];
      }
      assert consts[..|consts|] == consts;
    }

    /**
     * get_enum (lines 147-178): an enum not yet registered gets its
     * constants appended as one contiguous slice, then its record; either
     * way the result is its registry index as uint16.
     */
    method GetEnum(name: string, consts: seq<EnumConstDecl>) returns (id: int)
      requires Valid() && |strtab| + |consts| < INT32_MAX - 2 && |interestingEnums| < INT32_MAX - 2
      modifies this
      ensures Valid()
      ensures Some(name) in interestingEnums && id == ToUInt16(IndexOf(interestingEnums, name))
      ensures old(Some(name) in interestingEnums) ==>
        strtab == old(strtab) && interestingEnums == old(interestingEnums) && enums == old(enums) && enumConsts == old(enumConsts)
      ensures old(Some(name) !in interestingEnums) ==>
        interestingEnums == old(interestingEnums) + [Some(name)] &&
        |enums| == old(|enums|) + 1 && enums[..old(|enums|)] == old(enums) &&
        enums[old(|enums|)].firstFieldAt == old(|enumConsts|) && enums[old(|enums|)].numFields == |consts| &&
        |enumConsts| == old(|enumConsts|) + |consts| && enumConsts[..old(|enumConsts|)] == old(enumConsts) &&
        SliceHolds(strtab, enumConsts, old(|enumConsts|), consts)
      ensures old(strtab) <= strtab && |strtab| <= old(|strtab|) + |consts| + 1
      ensures nodeTypes == old(nodeTypes) && fields == old(fields) && off == old(off)
    {
      var e := StringInArr(interestingEnums, name);
      if e == -1 {
        e := AddEnum(name, consts);
      }
      id := ToUInt16(e);
    }

    /**
     * The registration branch of get_enum (lines 155-175): the constants
     * first, as one slice at the old end of the constant table, then the
     * record naming them, then the name; the result is the new last index.
     */
    method AddEnum(name: string, consts: seq<EnumConstDecl>) returns (e: int)
      requires Valid() && Some(name) !in interestingEnums
      requires |strtab| + |consts| < INT32_MAX - 2 && |interestingEnums| < INT32_MAX - 2
      modifies this
      ensures Valid() && interestingEnums == old(interestingEnums) + [Some(name)]
      ensures e == old(|interestingEnums|) && e == IndexOf(interestingEnums, name)
      ensures |enums| == old(|enums|) + 1 && enums[..old(|enums|)] == old(enums)
      ensures enums[old(|enums|)].firstFieldAt == old(|enumConsts|) && enums[old(|enums|)].numFields == |consts|
      ensures |enumConsts| == old(|enumConsts|) + |consts| && enumConsts[..old(|enumConsts|)] == old(enumConsts)
      ensures SliceHolds(strtab, enumConsts, old(|enumConsts|), consts)
      ensures old(strtab) <= strtab && |strtab| <= old(|strtab|) + |consts| + 1
      ensures nodeTypes == old(nodeTypes) && fields == old(fields) && off == old(off)
    {
      var start := |enumConsts|;
      AddEnumConsts(consts);
      ghost var tab0 := strtab;
      var nameId := Intern(name);
      SliceGrows(tab0, strtab, enumConsts, start, consts);
      var rec := EnumRecord(nameId, start, |consts|);
      EnumRegistered(strtab, interestingEnums, enums, enumConsts, name, rec);
      IndexOfAppended(interestingEnums, name);
      assert (enums + [rec])[..|enums|] == enums;
      enums := enums + [rec];
      interestingEnums := interestingEnums + [Some(name)];
      e := |interestingEnums| - 1;
    }

    /**
     * The enum and node-type lookups at the head of categorize_type (lines
     * 216-232): an enum is registered and gives ENUM, a known node struct
     * gives NODE; either way the type id is the table index as uint16.
     */
    method LookupType(u: CType, p: bool, c0: Cat) returns (c: Cat)
      requires Valid() && |strtab| + |u.enumerators| < INT32_MAX - 2 && |interestingEnums| < INT32_MAX - 2
      modifies this
      ensures Valid() && c == Looked(nodeTypes, interestingEnums, u, p, c0)
      ensures u.canonKind == Enum ==> Some(u.canonSpelling) in interestingEnums
      ensures old(strtab) <= strtab && |strtab| <= old(|strtab|) + |u.enumerators| + 1
      ensures old(interestingEnums) <= interestingEnums && |interestingEnums| <= old(|interestingEnums|) + 1
      ensures nodeTypes == old(nodeTypes) && fields == old(fields) && off == old(off)
    {
      c := c0;
      if u.canonKind == Enum {
        var id := GetEnum(u.canonSpelling, u.enumerators);
        c := c.(typeId := id, known := Known(EnumT, p));
      } else {
        var tp := StringInArr(nodeTypes, u.canonSpelling);
        if tp != -1 {
          c := c.(typeId := ToUInt16(tp), known := Known(NodeT, p));
        }
      }
    }

    /**
     * The start both calls of categorize_type share (lines 198-232):
     * TYPE_CAT_SCALAR on either branch of the pointer test, then the enum or
     * node-type lookup.
     */
    method CategorizeHead(t: CType, flags: FlagBuffer, c0: Cat) returns (c: Cat)
      requires Valid() && flags.Valid()
      requires |strtab| + |Target(t).enumerators| < INT32_MAX - 2 && |interestingEnums| < INT32_MAX - 2
      modifies this, flags
      ensures Valid() && flags.Valid() && flags.added == old(flags.added) + [CatScalar]
      ensures c == Looked(nodeTypes, interestingEnums, Target(t), IsPtr(t), c0)
      ensures Target(t).canonKind == Enum ==> Some(Target(t).canonSpelling) in interestingEnums
      ensures old(strtab) <= strtab && |strtab| <= old(|strtab|) + |Target(t).enumerators| + 1
      ensures old(interestingEnums) <= interestingEnums && |interestingEnums| <= old(|interestingEnums|) + 1
      ensures nodeTypes == old(nodeTypes) && fields == old(fields) && off == old(off)
    {
      flags.Append(CatScalar);
      c := LookupType(Target(t), IsPtr(t), c0);
    }

    /**
     * categorize_type called for the element of a pgarr, with no element
     * outputs: a pgarr there is refused, every other branch is as for a field.
     */
    method CategorizeElem(t: CType, flags: FlagBuffer, c0: Cat) returns (r: Result<Cat>)
      requires Valid() && flags.Valid()
      requires |strtab| + |Target(t).enumerators| < INT32_MAX - 2 && |interestingEnums| < INT32_MAX - 2
      modifies this, flags
      ensures Valid() && flags.Valid() && flags.added == old(flags.added) + OwnFlags(t)
      ensures r == CategorizedElem(nodeTypes, interestingEnums, t, c0)
      ensures Registered(interestingEnums, t, false)
      ensures old(strtab) <= strtab && |strtab| <= old(|strtab|) + |Target(t).enumerators| + 1
      ensures old(interestingEnums) <= interestingEnums && |interestingEnums| <= old(|interestingEnums|) + 1
      ensures nodeTypes == old(nodeTypes) && fields == old(fields) && off == old(off)
    {
      var c := CategorizeHead(t, flags, c0);
      var b := BranchOf(Target(t));
      if b == BPgArr {
        r := Err(Abort(NestedArrays));
      } else {
        if b == BLocation || b == BCoercionForm {
          flags.Append(EqualIgnore);
        }
        r := Plain(b, Target(t), IsPtr(t), c);
      }
    }

    /**
     * categorize_type (lines 181-353) for a field of type `t`: the outputs as
     * Categorized states them, its flags appended to `flags`, and every enum
     * it meets registered.
     */
    method CategorizeType(t: CType, flags: FlagBuffer, c0: Cat) returns (r: Result<Cat>)
      requires Valid() && flags.Valid()
      requires |strtab| + FieldBudget(t) < INT32_MAX && |interestingEnums| < INT32_MAX - 4
      modifies this, flags
      ensures Valid() && flags.Valid() && flags.added == old(flags.added) + CategoryFlags(t, true)
      ensures r == Categorized(nodeTypes, interestingEnums, t, c0, true)
      ensures Registered(interestingEnums, t, true)
      ensures old(strtab) <= strtab && |strtab| + 2 <= old(|strtab|) + FieldBudget(t)
      ensures old(interestingEnums) <= interestingEnums && |interestingEnums| <= old(|interestingEnums|) + 2
      ensures nodeTypes == old(nodeTypes) && fields == old(fields) && off == old(off)
    {
      ghost var f0 := flags.added;
      var u := Target(t);
      var c := CategorizeHead(t, flags, c0);
      var b := BranchOf(u);
      if b == BPgArr {
        ghost var mid := interestingEnums;
        var e := ElemOf(u);
        var inner := CategorizeElem(e, flags, Cat(c.typeId, c.elemKnown, UnknownId, None));
        LookedStays(nodeTypes, mid, interestingEnums, u, IsPtr(t), c0);
        assert CategoryFlags(t, true) == [CatScalar] + OwnFlags(e);
        ConcatAssoc(f0, [CatScalar], OwnFlags(e));
        if inner.Err? {
          r := inner;
        } else {
          r := Ok(Cat(inner.value.typeId, Known(PgArr, IsPtr(t)), inner.value.known,
                      if e.sizeKnown then Some(e.spelling) else c.elemSize));
        }
      } else {
        if b == BLocation || b == BCoercionForm {
          flags.Append(EqualIgnore);
        }
        r := Plain(b, u, IsPtr(t), c);
      }
    }

    /**
     * The rule chain of find_StructFields_vis (lines 451-550) for the field
     * `field` at the current position of struct `st` whose known type is `k`:
     * the flags it appends, and the known type after it.
     */
    method ApplyRules(flags: FlagBuffer, st: string, field: string, k: KnownId) returns (known: KnownId)
      requires flags.Valid()
      modifies flags
      ensures flags.Valid() && flags.added == old(flags.added) + RuleFlags(RuleOf(st, field, off, k), field)
      ensures known == RuleKnown(RuleOf(st, field, off, k), k)
    {
      known := k;
      var rule := RuleOf(st, field, off, k);
      if rule == RFirstTag {
        flags.Append(OutIgnore);
      } else if rule == RPlaceHolderVar {
        if field == "phrels" || field == "phexpr" {
          flags.Append(EqualIgnore);
        }
      } else if rule == RQuery {
        if field == "queryId" {
          flags.Append(EqualIgnore);
        }
      } else if rule == RAggref {
        if field == "aggtranstype" {
          flags.Append(EqualIgnore);
        }
      } else if rule == RGroupingFunc {
        if field == "refs" || field == "cols" {
          flags.Append(EqualIgnore);
        }
      } else if rule == RRestrictInfo {
        ghost var before := flags.added;
        if !RestrictInfoCompared(field) {
          flags.Append(EqualIgnore);
        }
        if RestrictInfoEcPointer(field) {
          flags.Append(CopyForceScalar);
        }
        if field == "scansel_cache" {
          flags.Append(CopyIgnore);
        }
        assert flags.added == before + RuleFlags(RRestrictInfo, field);
      } else if rule == RPathKey {
        if field == "pk_eclass" {
          flags.Append(EqualForceScalar);
          flags.Append(CopyForceScalar);
        }
      } else if rule == ROpFuncId {
        known := Known(OpFuncId, false);
      }
    }

    /**
     * find_StructFields_vis (lines 436-578) for field `field` of type `t` in
     * struct `st`: categorize, mark an incomplete type, apply the struct and
     * field rules, intern the field and type names and append the record.
     */
    method VisitField(st: string, field: string, t: CType) returns (r: Outcome)
      requires Valid()
      requires |strtab| + FieldBudget(t) < INT32_MAX - 4
      requires |interestingEnums| < INT32_MAX - 4
      modifies this
      ensures Valid()
      ensures r == StatusOf(Categorized(nodeTypes, interestingEnums, t, Cat(NodeInfo.TYPE_ID_UNKNOWN, UnknownId, UnknownId, None), true))
      ensures r == Done ==>
        |fields| == old(|fields|) + 1 && fields == old(fields) + [fields[old(|fields|)]] && off == old(off) + 1 &&
        FieldRecordedAt(strtab, interestingEnums, nodeTypes, fields[old(|fields|)], st, (field, t), old(off))
      ensures old(strtab) <= strtab && old(interestingEnums) <= interestingEnums
      ensures |strtab| <= old(|strtab|) + FieldBudget(t)
      ensures |interestingEnums| <= old(|interestingEnums|) + 2
      ensures nodeTypes == old(nodeTypes)
    {
      var flags := new FlagBuffer();
      var c := CategorizeType(t, flags, Cat(NodeInfo.TYPE_ID_UNKNOWN, UnknownId, UnknownId, None));
      if c.Err? {
        r := Failed(c.fault);
      } else {
        RecordField(st, field, t, c.value, flags);
        r := Done;
      }
    }

    /**
     * The rest of find_StructFields_vis (lines 446-578) once the field is
     * categorized as `cat` with `flags` holding the categorization's flags:
     * TYPE_CAT_INCOMPLETE when clang knows no size, the rule chain, `0` for
     * no flags, the names interned and the record appended.
     */
    method RecordField(st: string, field: string, t: CType, cat: Cat, flags: FlagBuffer)
      requires Valid() && flags.Valid() && flags.added == CategoryFlags(t, true)
      requires |strtab| + 2 < INT32_MAX - 1
      modifies this, flags
      ensures Valid()
      ensures |fields| == old(|fields|) + 1 && fields == old(fields) + [fields[old(|fields|)]] && off == old(off) + 1
      ensures FieldRecorded(strtab, fields[old(|fields|)], st, field, old(off), t, cat)
      ensures old(strtab) <= strtab && |strtab| <= old(|strtab|) + 2
      ensures nodeTypes == old(nodeTypes) && interestingEnums == old(interestingEnums)
    {
      var known := FinishFlags(st, field, t, cat.known, flags);
      var size: Option<string> := if t.sizeKnown then Some(t.canonSpelling) else None;
      var nameId := Intern(field);
      ghost var tab1 := strtab;
      var typeId := Intern(t.canonSpelling);
      assert strtab[nameId] == tab1[nameId];
      var rec := FieldRecord(nameId, typeId, size, flags.data, cat.typeId, known, cat.elemKnown, cat.elemSize);
      fields := fields + [rec];
      off := off + 1;
    }

    /**
     * The flags of find_StructFields_vis after categorization (lines
     * 446-558): TYPE_CAT_INCOMPLETE when clang knows no size, the rule
     * chain, and `0` for no flags; and the known type after the rules.
     */
    method FinishFlags(st: string, field: string, t: CType, k: KnownId, flags: FlagBuffer) returns (known: KnownId)
      requires flags.Valid() && flags.added == CategoryFlags(t, true)
      modifies flags
      ensures flags.data == Render(FieldFlags(st, field, off, t, k))
      ensures known == RuleKnown(RuleOf(st, field, off, k), k)
    {
      if !t.sizeKnown {
        flags.Append(CatIncomplete);
      }
      ghost var inc: seq<FlagName> := if !t.sizeKnown then [CatIncomplete] else [];
      assert flags.added == CategoryFlags(t, true) + inc;
      known := ApplyRules(flags, st, field, k);
      assert flags.added == FieldFlags(st, field, off, t, k);
      flags.Finish();
    }

    /**
     * The field walk find_NodeStructDefs_vis starts for one node struct
     * (lines 636-643): the position restarts at 0 and every field is
     * visited in order, stopping at the first that fails.
     */
    method VisitStruct(st: string, members: seq<(string, CType)>) returns (r: Outcome)
      requires Valid()
      requires |strtab| + Budget(members) < INT32_MAX - 8
      requires |interestingEnums| + 2 * |members| < INT32_MAX - 4
      modifies this
      ensures Valid() && nodeTypes == old(nodeTypes)
      ensures r == Done ==>
        |fields| == old(|fields|) + |members| && fields[..old(|fields|)] == old(fields) &&
        StructRecorded(strtab, interestingEnums, nodeTypes, fields[old(|fields|)..], st, members)
    {
      off := 0;
      r := Done;
      var i := 0;
      ghost var start := |fields|;
      while i < |members| && r == Done
        invariant 0 <= i <= |members| && Valid() && nodeTypes == old(nodeTypes)
        invariant |strtab| <= old(|strtab|) + Budget(members[..i])
        invariant |interestingEnums| <= old(|interestingEnums|) + 2 * i
        invariant r == Done ==> off == i && |fields| == start + i && fields[..start] == old(fields)
        invariant r == Done ==> StructRecorded(strtab, interestingEnums, nodeTypes, fields[start..], st, members)
      {
        BudgetPrefix(members, i);
        r := VisitNext(st, members, start, i);
        i := i + 1;
      }
    }

    /** One step of that walk: visit member `i` and extend what the struct has recorded. */
    method VisitNext(st: string, members: seq<(string, CType)>, ghost start: nat, i: nat) returns (r: Outcome)
      requires Valid() && i < |members| && off == i && |fields| == start + i
      requires StructRecorded(strtab, interestingEnums, nodeTypes, fields[start..], st, members)
      requires |strtab| + FieldBudget(members[i].1) < INT32_MAX - 4
      requires |interestingEnums| < INT32_MAX - 4
      modifies this
      ensures Valid() && nodeTypes == old(nodeTypes)
      ensures |strtab| <= old(|strtab|) + FieldBudget(members[i].1)
      ensures |interestingEnums| <= old(|interestingEnums|) + 2
      ensures r == Done ==>
        off == i + 1 && |fields| == start + i + 1 && fields[..start] == old(fields)[..start] &&
        StructRecorded(strtab, interestingEnums, nodeTypes, fields[start..], st, members)
    {
      ghost var tab0, enums0, fields0 := strtab, interestingEnums, fields;
      r := VisitField(st, members[i].0, members[i].1);
      if r == Done {
        SnocSlices(fields0, fields[start + i], start);
        StructRecordedExtends(tab0, strtab, enums0, interestingEnums, nodeTypes, fields0[start..], fields[start + i], st, members);
      }
    }
  }

  /** The slices of a sequence with one more element at its end. */
  lemma {:induction false} SnocSlices<T>(a: seq<T>, x: T, k: nat)
    requires k <= |a|
    ensures (a + [x])[..k] == a[..k] && (a + [x])[k..] == a[k..] + [x]
  {
  }

  /** The records `recs` are those of the first |recs| members of struct `st`, in order. */
  predicate StructRecorded(tab: seq<Option<string>>, enums: seq<Option<string>>, nodeTypes: seq<Option<string>>,
      recs: seq<FieldRecord>, st: string, members: seq<(string, CType)>)
  {
    |recs| <= |members| &&
    forall j | 0 <= j < |recs| :: FieldRecordedAt(tab, enums, nodeTypes, recs[j], st, members[j], j)
  }

  /** One record of the extended struct: an earlier one survives the growth, the new one is `rec`. */
  lemma {:induction false} ExtendedRecordAt(tab0: seq<Option<string>>, tab: seq<Option<string>>,
      enums0: seq<Option<string>>, enums: seq<Option<string>>, nodeTypes: seq<Option<string>>,
      recs: seq<FieldRecord>, rec: FieldRecord, st: string, members: seq<(string, CType)>, j: nat)
    requires tab0 <= tab && enums0 <= enums && StructRecorded(tab0, enums0, nodeTypes, recs, st, members)
    requires |recs| < |members| && FieldRecordedAt(tab, enums, nodeTypes, rec, st, members[|recs|], |recs|)
    requires j <= |recs|
    ensures FieldRecordedAt(tab, enums, nodeTypes, (recs + [rec])[j], st, members[j], j)
  {
    if j < |recs| {
      assert (recs + [rec])[j] == recs[j];
      RecordedStays(tab0, tab, enums0, enums, nodeTypes, recs[j], st, members[j], j);
    } else {
      assert (recs + [rec])[j] == rec;
    }
  }

  /** Recording the next member, after the tables grew, keeps the earlier records valid. */
  lemma {:induction false} StructRecordedExtends(tab0: seq<Option<string>>, tab: seq<Option<string>>,
      enums0: seq<Option<string>>, enums: seq<Option<string>>, nodeTypes: seq<Option<string>>,
      recs: seq<FieldRecord>, rec: FieldRecord, st: string, members: seq<(string, CType)>)
    requires tab0 <= tab && enums0 <= enums && StructRecorded(tab0, enums0, nodeTypes, recs, st, members)
    requires |recs| < |members| && FieldRecordedAt(tab, enums, nodeTypes, rec, st, members[|recs|], |recs|)
    ensures StructRecorded(tab, enums, nodeTypes, recs + [rec], st, members)
  {
    forall j | 0 <= j < |recs| + 1
      ensures FieldRecordedAt(tab, enums, nodeTypes, (recs + [rec])[j], st, members[j], j)
    {
      ExtendedRecordAt(tab0, tab, enums0, enums, nodeTypes, recs, rec, st, members, j);
    }
  }

  /** The string-table room one field may use up: its enum constants, two enum names and two field strings. */
  function FieldBudget(t: CType): nat
  {
    |Target(t).enumerators| + |Target(ElemOf(Target(t))).enumerators| + 4
  }

  /** The string-table room a struct's fields may use up. */
  function Budget(members: seq<(string, CType)>): nat
  {
    if |members| == 0 then 0 else Budget(members[..|members| - 1]) + FieldBudget(members[|members| - 1].1)
  }

  lemma {:induction false} BudgetPrefix(members: seq<(string, CType)>, i: nat)
    requires i < |members|
    ensures Budget(members[..i + 1]) == Budget(members[..i]) + FieldBudget(members[i].1)
    ensures Budget(members[..i + 1]) <= Budget(members)
    decreases |members|
  {
    assert members[..i + 1][..i] == members[..i];
    if i + 1 < |members| {
      BudgetPrefix(members[..|members| - 1], i);
      assert members[..|members| - 1][..i + 1] == members[..i + 1];
      assert members[..|members| - 1][..i] == members[..i];
    } else {
      assert members[..i + 1] == members;
    }
  }

  /**
   * The record of field `field` at position `off` of struct `st`, for type
   * `t` categorized as `c`: its name and type name interned, its size known
   * or not, its flags rendered from FieldFlags, and the known type after
   * the rules.
   */
  predicate FieldRecorded(tab: seq<Option<string>>, f: FieldRecord, st: string, field: string, off: int, t: CType, c: Cat)
  {
    f.name < |tab| && tab[f.name] == Some(field) && f.typ < |tab| && tab[f.typ] == Some(t.canonSpelling) &&
    f.size == (if t.sizeKnown then Some(t.canonSpelling) else None) &&
    f.flags == Render(FieldFlags(st, field, off, t, c.known)) &&
    f.typeId == c.typeId && f.known == RuleKnown(RuleOf(st, field, off, c.known), c.known) &&
    f.elemKnown == c.elemKnown && f.elemSize == c.elemSize
  }

  /** FieldRecorded for the `i`-th member of a struct, categorized against the final tables. */
  predicate FieldRecordedAt(tab: seq<Option<string>>, enums: seq<Option<string>>, nodeTypes: seq<Option<string>>,
      f: FieldRecord, st: string, member: (string, CType), i: int)
  {
    var c := Categorized(nodeTypes, enums, member.1, Cat(NodeInfo.TYPE_ID_UNKNOWN, UnknownId, UnknownId, None), true);
    c.Ok? && Registered(enums, member.1, true) && FieldRecorded(tab, f, st, member.0, i, member.1, c.value)
  }

  /** Growing the tables keeps what a field record was recorded as. */
  lemma {:induction false} RecordedStays(tab: seq<Option<string>>, tab2: seq<Option<string>>,
      enums: seq<Option<string>>, enums2: seq<Option<string>>, nodeTypes: seq<Option<string>>,
      f: FieldRecord, st: string, member: (string, CType), i: int)
    requires tab <= tab2 && enums <= enums2
    requires FieldRecordedAt(tab, enums, nodeTypes, f, st, member, i)
    ensures FieldRecordedAt(tab2, enums2, nodeTypes, f, st, member, i)
  {
    assert tab2[f.name] == tab[f.name] && tab2[f.typ] == tab[f.typ];
    RegisteredGrows(enums, enums2, member.1, true);
    CategorizedStays(nodeTypes, enums, enums2, member.1, Cat(NodeInfo.TYPE_ID_UNKNOWN, UnknownId, UnknownId, None), true);
  }

  /** Every enum categorize_type meets on `t` is in the registry `enums`. */
  predicate Registered(enums: seq<Option<string>>, t: CType, top: bool)
    decreases if top then 1 else 0
  {
    var u := Target(t);
    (u.canonKind == Enum ==> Some(u.canonSpelling) in enums) &&
    (top && BranchOf(u) == BPgArr ==> Registered(enums, ElemOf(u), false))
  }

  /** Registering more enums keeps the ones registered. */
  lemma {:induction false} RegisteredGrows(enums: seq<Option<string>>, enums2: seq<Option<string>>, t: CType, top: bool)
    requires enums <= enums2 && Registered(enums, t, top)
    ensures Registered(enums2, t, top)
    decreases if top then 1 else 0
  {
    var u := Target(t);
    if u.canonKind == Enum {
      var k :| 0 <= k < |enums| && enums[k] == Some(u.canonSpelling);
      assert enums2[k] == Some(u.canonSpelling);
    }
    if top && BranchOf(u) == BPgArr {
      RegisteredGrows(enums, enums2, ElemOf(u), false);
    }
  }

  /** The enum and node-type lookups give the same outputs once more enums are registered. */
  lemma {:induction false} LookedStays(nodeTypes: seq<Option<string>>, enums: seq<Option<string>>,
      enums2: seq<Option<string>>, u: CType, p: bool, c0: Cat)
    requires enums <= enums2 && (u.canonKind == Enum ==> Some(u.canonSpelling) in enums)
    ensures Looked(nodeTypes, enums2, u, p, c0) == Looked(nodeTypes, enums, u, p, c0)
  {
    if u.canonKind == Enum {
      assert enums + enums2[|enums|..] == enums2;
      IndexOfExtended(enums, enums2[|enums|..], u.canonSpelling);
    }
  }

  /** A categorization whose enums are registered does not change when more enums are registered. */
  lemma {:induction false} CategorizedStays(nodeTypes: seq<Option<string>>, enums: seq<Option<string>>,
      enums2: seq<Option<string>>, t: CType, c0: Cat, top: bool)
    requires enums <= enums2 && Registered(enums, t, top)
    ensures Categorized(nodeTypes, enums2, t, c0, top) == Categorized(nodeTypes, enums, t, c0, top)
    decreases if top then 1 else 0
  {
    var u := Target(t);
    if u.canonKind == Enum {
      assert enums + enums2[|enums|..] == enums2;
      IndexOfExtended(enums, enums2[|enums|..], u.canonSpelling);
    }
    assert Looked(nodeTypes, enums2, u, IsPtr(t), c0) == Looked(nodeTypes, enums, u, IsPtr(t), c0);
    if top && BranchOf(u) == BPgArr {
      var c1 := Looked(nodeTypes, enums, u, IsPtr(t), c0);
      CategorizedStays(nodeTypes, enums, enums2, ElemOf(u), Cat(c1.typeId, c1.elemKnown, UnknownId, None), false);
    }
  }

  // ---------------------------------------------------------------------
  // Properties of the rules

  /** Categorization: TYPE_CAT_SCALAR always comes first, pointer or not. */
  lemma {:induction false} CategoryFlagsStartScalar(t: CType, top: bool)
    ensures |CategoryFlags(t, top)| >= 1 && CategoryFlags(t, top)[0] == CatScalar
    ensures IsPtr(t) ==> CategoryFlags(t, top)[0] == CatScalar
  {
  }

  /**
   * A Location typedef becomes LOCATION and a CoercionForm typedef
   * COERCIONFORM, each flagged TYPE_EQUAL_IGNORE (lines 235-247).
   */
  lemma {:induction false} LocationAndCoercionForm(nodeTypes: seq<Option<string>>, enums: seq<Option<string>>, t: CType, c0: Cat, top: bool)
    requires BranchOf(Target(t)) == BLocation || BranchOf(Target(t)) == BCoercionForm
    ensures Categorized(nodeTypes, enums, t, c0, top).Ok?
    ensures var k := Categorized(nodeTypes, enums, t, c0, top).value.known;
      k == Known(if BranchOf(Target(t)) == BLocation then Location else CoercionForm, IsPtr(t))
    ensures CategoryFlags(t, top) == [CatScalar, EqualIgnore]
  {
  }

  /** A Location field is a typedef named Location over int, and it gets exactly the Location branch. */
  lemma {:induction false} LocationBranch(u: CType)
    ensures BranchOf(u) == BLocation <==> u.kind == Typedef && u.canonKind == Int && u.spelling == "Location"
  {
  }

  /**
   * An enum that no later branch claims keeps ENUM, its type id being its
   * registry index as uint16.
   */
  lemma {:induction false} EnumField(nodeTypes: seq<Option<string>>, enums: seq<Option<string>>, t: CType, c0: Cat, top: bool)
    requires Target(t).canonKind == Enum && BranchOf(Target(t)) == BNone
    ensures Categorized(nodeTypes, enums, t, c0, top)
         == Ok(c0.(typeId := ToUInt16(IndexOf(enums, Target(t).canonSpelling)), known := Known(EnumT, IsPtr(t))))
  {
  }

  /** struct Node must be pointed to, and a pgarr of pgarrs is refused. */
  lemma {:induction false} CategorizeErrors(nodeTypes: seq<Option<string>>, enums: seq<Option<string>>, t: CType, c0: Cat)
    ensures BranchOf(Target(t)) == BNode && !IsPtr(t) ==> Categorized(nodeTypes, enums, t, c0, true).Err?
    ensures BranchOf(Target(t)) == BPgArr && BranchOf(Target(ElemOf(Target(t)))) == BPgArr ==>
      Categorized(nodeTypes, enums, t, c0, true).Err?
  {
  }

  /** The lookups and a plain branch never give OPFUNCID, and they keep the element known type. */
  lemma {:induction false} PlainKeepsElem(nodeTypes: seq<Option<string>>, enums: seq<Option<string>>, b: Branch, u: CType, p: bool, c0: Cat)
    requires c0.known.Known? ==> c0.known.base != OpFuncId
    ensures var r := Plain(b, u, p, Looked(nodeTypes, enums, u, p, c0));
      r.Ok? ==> r.value.known != Known(OpFuncId, false) && r.value.elemKnown == c0.elemKnown
  {
  }

  /** The element call never gives OPFUNCID and keeps the element known type. */
  lemma {:induction false} ElemNeverOpFuncId(nodeTypes: seq<Option<string>>, enums: seq<Option<string>>, t: CType, c0: Cat)
    requires c0.known.Known? ==> c0.known.base != OpFuncId
    ensures var r := CategorizedElem(nodeTypes, enums, t, c0);
      r.Ok? ==> r.value.known != Known(OpFuncId, false) && r.value.elemKnown == c0.elemKnown
  {
    PlainKeepsElem(nodeTypes, enums, BranchOf(Target(t)), Target(t), IsPtr(t), c0);
  }

  /** categorize_type never produces OPFUNCID: that known type comes only from the rules. */
  lemma {:induction false} CategorizeNeverOpFuncId(nodeTypes: seq<Option<string>>, enums: seq<Option<string>>, t: CType, c0: Cat, top: bool)
    requires c0.known.Known? ==> c0.known.base != OpFuncId
    requires c0.elemKnown.Known? ==> c0.elemKnown.base != OpFuncId
    ensures var r := Categorized(nodeTypes, enums, t, c0, top);
      r.Ok? ==> r.value.known != Known(OpFuncId, false) && r.value.elemKnown != Known(OpFuncId, false)
  {
    var u := Target(t);
    var p := IsPtr(t);
    if !top {
      ElemNeverOpFuncId(nodeTypes, enums, t, c0);
    } else if BranchOf(u) == BPgArr {
      var c1 := Looked(nodeTypes, enums, u, p, c0);
      ElemNeverOpFuncId(nodeTypes, enums, ElemOf(u), Cat(c1.typeId, c1.elemKnown, UnknownId, None));
    } else {
      PlainKeepsElem(nodeTypes, enums, BranchOf(u), u, p, c0);
    }
  }

  /** A NodeTag field that is the struct's first field is flagged TYPE_OUT_IGNORE (lines 451-455). */
  lemma {:induction false} FirstNodeTagOutIgnore(st: string, field: string, t: CType, k: KnownId)
    requires k == Known(NodeTagT, false)
    ensures OutIgnore in FieldFlags(st, field, 0, t, k)
    ensures RuleOf(st, field, 0, k) == RFirstTag
  {
    assert RuleFlags(RFirstTag, field) == [OutIgnore];
    var fs := FieldFlags(st, field, 0, t, k);
    assert fs[|fs| - 1] == OutIgnore;
  }

  /**
   * RestrictInfo (lines 503-537): outside the first-field NodeTag case, a
   * field gets TYPE_EQUAL_IGNORE from the rule exactly when it is not one of
   * the eight compared fields, TYPE_COPY_FORCE_SCALAR exactly for the
   * equivalence pointers and TYPE_COPY_IGNORE exactly for scansel_cache.
   */
  lemma {:induction false} RestrictInfoRules(field: string, off: int, k: KnownId)
    requires !(k == Known(NodeTagT, false) && off == 0)
    ensures var fs := RuleFlags(RuleOf("struct RestrictInfo", field, off, k), field);
      (EqualIgnore in fs <==> !RestrictInfoCompared(field)) &&
      (CopyForceScalar in fs <==> RestrictInfoEcPointer(field)) &&
      (CopyIgnore in fs <==> field == "scansel_cache")
  {
    var fs := RuleFlags(RRestrictInfo, field);
    var a := if !RestrictInfoCompared(field) then [EqualIgnore] else [];
    var b := if RestrictInfoEcPointer(field) then [CopyForceScalar] else [];
    var c := if field == "scansel_cache" then [CopyIgnore] else [];
    assert fs == a + b + c;
    assert EqualIgnore != CopyForceScalar && EqualIgnore != CopyIgnore && CopyForceScalar != CopyIgnore;
  }

  /**
   * No field is left uncopied that the comparison still looks at: a field
   * whose flags hold TYPE_COPY_IGNORE (only RestrictInfo's scansel_cache)
   * also holds TYPE_EQUAL_IGNORE, and it is never the leading NodeTag word.
   */
  lemma {:induction false} CopyIgnoredIsEqualIgnored(st: string, field: string, off: int, t: CType, k: KnownId)
    ensures var fs := FieldFlags(st, field, off, t, k);
      CopyIgnore in fs ==> EqualIgnore in fs && !(k == Known(NodeTagT, false) && off == 0)
  {
    var r := RuleOf(st, field, off, k);
    var fs := FieldFlags(st, field, off, t, k);
    assert fs == CategoryFlags(t, true) + (if !t.sizeKnown then [CatIncomplete] else []) + RuleFlags(r, field);
    if r == RRestrictInfo && field == "scansel_cache" {
      RestrictInfoRules(field, off, k);
    } else {
      assert CopyIgnore !in RuleFlags(r, field);
    }
  }

  /** pk_eclass of PathKey is compared and copied as a plain pointer (lines 538-545). */
  lemma {:induction false} PathKeyRule(field: string, off: int, k: KnownId)
    requires !(k == Known(NodeTagT, false) && off == 0)
    ensures RuleFlags(RuleOf("struct PathKey", field, off, k), field)
         == if field == "pk_eclass" then [EqualForceScalar, CopyForceScalar] else []
  {
  }

  /**
   * A field named opfuncid becomes KNOWN_TYPE_OPFUNCID exactly when no
   * earlier rule of the chain claimed its struct (lines 456-550); no other
   * field's known type is changed by the rules.
   */
  lemma {:induction false} OpFuncIdRule(st: string, field: string, off: int, k: KnownId)
    requires k != Known(OpFuncId, false)
    ensures RuleKnown(RuleOf(st, field, off, k), k) == Known(OpFuncId, false) <==>
      field == "opfuncid" && !(k == Known(NodeTagT, false) && off == 0) &&
      st != "struct PlaceHolderVar" && st != "struct Query" && st != "struct Aggref" &&
      st != "struct GroupingFunc" && st != "struct RestrictInfo" && st != "struct PathKey"
    ensures RuleKnown(RuleOf(st, field, off, k), k) != Known(OpFuncId, false) ==> RuleKnown(RuleOf(st, field, off, k), k) == k
  {
  }
}
