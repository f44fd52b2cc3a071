// The node schema tables of src/include/nodes/nodeinfo.h: the behaviour
// flags every field carries, the known-type categories the node algorithms
// dispatch on, and the shapes of the five read-only tables the generator
// emits. The tables are a value of type `Tables`; the node algorithms take
// it as a parameter.

module NodeInfo {
  import opened CInt

  // ---------------------------------------------------------------------
  // Flag bits (stored in a uint16)

  type Flags = bv16

  const TYPE_CAT_SCALAR: Flags := 1 << 0
  const TYPE_CAT_POINTER: Flags := 1 << 1
  const TYPE_CAT_INCOMPLETE: Flags := 1 << 2
  const TYPE_EQUAL_IGNORE: Flags := 1 << 3
  const TYPE_EQUAL_FORCE_SCALAR: Flags := 1 << 4
  const TYPE_COPY_IGNORE: Flags := 1 << 5
  const TYPE_COPY_FORCE_SCALAR: Flags := 1 << 6
  const TYPE_OUT_IGNORE: Flags := 1 << 7
  const TYPE_IN_IGNORE: Flags := 1 << 8

  /** The nine flags in declaration order. */
  const AllFlags: seq<Flags> := [TYPE_CAT_SCALAR, TYPE_CAT_POINTER, TYPE_CAT_INCOMPLETE,
    TYPE_EQUAL_IGNORE, TYPE_EQUAL_FORCE_SCALAR, TYPE_COPY_IGNORE, TYPE_COPY_FORCE_SCALAR,
    TYPE_OUT_IGNORE, TYPE_IN_IGNORE]

  /** `flags & f` taken as a C truth value. */
  predicate HasFlag(flags: Flags, f: Flags) { flags & f != 0 }

  /** A value with exactly one bit set. */
  predicate SingleBit(f: Flags) { f != 0 && f & (f - 1) == 0 }

  /** Flag i is bit i, so the nine flags are distinct single bits and no two overlap. */
  lemma {:induction false} FlagsAreDistinctBits()
    ensures |AllFlags| == 9
    ensures forall i :: 0 <= i < 9 ==> SingleBit(AllFlags[i])
    ensures forall i, j :: 0 <= i < j < 9 ==> AllFlags[i] & AllFlags[j] == 0
    ensures forall i :: 0 <= i < 9 ==> AllFlags[i] == (1 as Flags) << i
  {
  }

  /**
   * The mask `(TYPE_COPY_FORCE_SCALAR || TYPE_CAT_SCALAR)` that the copy
   * and equality algorithms test: `||` yields the C truth value 1, so the
   * mask is bit 0 whatever the two flags are.
   */
  const ScalarOrForceScalar: Flags := if TYPE_COPY_FORCE_SCALAR != 0 || TYPE_CAT_SCALAR != 0 then 1 else 0

  /**
   * The mask is TYPE_CAT_SCALAR alone: a field flagged only
   * TYPE_COPY_FORCE_SCALAR does not pass the test, and any field with
   * TYPE_CAT_SCALAR does.
   */
  lemma {:induction false} ScalarOrForceScalarIsCatScalar(flags: Flags)
    ensures ScalarOrForceScalar == TYPE_CAT_SCALAR
    ensures !HasFlag(TYPE_COPY_FORCE_SCALAR, ScalarOrForceScalar)
    ensures HasFlag(flags, ScalarOrForceScalar) <==> HasFlag(flags, TYPE_CAT_SCALAR)
  {
  }

  /** Both "unknown type id" and "unknown size" are the largest uint16. */
  const TYPE_ID_UNKNOWN: int := UINT16_MAX
  const TYPE_SIZE_UNKNOWN: int := UINT16_MAX

  lemma {:induction false} SentinelsAreUInt16Max()
    ensures TYPE_ID_UNKNOWN == TYPE_SIZE_UNKNOWN == 0xFFFF
    ensures !IsUInt16(TYPE_ID_UNKNOWN + 1)
  {
  }

  // ---------------------------------------------------------------------
  // Known type categories (enum TIKnownTypes)

  datatype KnownType =
    | KUnknown
      // scalar types
    | KInt16 | KInt32 | KInt64 | KInt128 | KUInt16 | KOid | KUInt32 | KUInt64 | KUInt128
    | KFloat32 | KFloat64 | KBool | KChar | KEnum | KNodeTag | KNode | KLocation | KDatum
    | KValueUnion | KCoercionForm | KOpFuncId
      // pointer types
    | KPChar | KPNode | KPBitmapset
    | KPInt16 | KPInt32 | KPInt64 | KPInt128 | KPUInt16 | KPOid | KPUInt32 | KPUInt64 | KPUInt128
    | KPFloat32 | KPFloat64 | KPBool | KPEnum | KPDatum
    | KPPgArr

  /** The categories whose field value is an enumerator of the enum table `type_id`. */
  predicate IsEnumLike(k: KnownType) { k == KEnum || k == KCoercionForm || k == KNodeTag }

  /** The categories held as an integer of a fixed width. */
  predicate IsIntegerLike(k: KnownType)
  {
    k in {KInt16, KInt32, KInt64, KUInt16, KOid, KUInt32, KUInt64, KLocation, KOpFuncId}
    || IsEnumLike(k)
  }

  /** The integer range of each integer-like category. */
  predicate InRangeOf(k: KnownType, v: int)
  {
    if k == KInt16 then IsInt16(v)
    else if k == KUInt16 then IsUInt16(v)
    else if k in {KInt32, KLocation} then IsInt32(v)
    else if k in {KOid, KUInt32, KOpFuncId, KEnum, KCoercionForm, KNodeTag} then IsUInt32(v)
    else if k == KInt64 then IsInt64(v)
    else if k == KUInt64 then IsUInt64(v)
    else false
  }

  // ---------------------------------------------------------------------
  // Table shapes

  /** A node type: its name, the slice of the field table holding its fields, its size. */
  datatype TINodeType = TINodeType(name: int, firstFieldAt: int, numFields: int, size: int)

  /** One field of a node type. */
  datatype TIStructField = TIStructField(
    name: int, typ: int, offset: int, size: int, flags: Flags,
    typeId: int, knownType: KnownType, elemKnownType: KnownType, elemSize: int)

  /** An enum type: its name and the slice of the enum-constant table holding its constants. */
  datatype TIEnum = TIEnum(name: int, firstFieldAt: int, numFields: int, size: int)

  /** One enumerator: its name and its uint32 value. */
  datatype TIEnumField = TIEnumField(name: int, value: int)

  /** A string table entry with its explicit length. */
  datatype TIString = TIString(length: int, str: string)

  /**
   * The numeric node tags the algorithms treat specially. They are
   * enumerators of NodeTag in nodes/nodes.h, which is not part of this
   * model, so they are given with the tables.
   */
  datatype SpecialTags = SpecialTags(
    TList: int, TIntList: int, TOidList: int,
    TInteger: int, TFloat: int, TString: int, TBitString: int, TNull: int)

  datatype Tables = Tables(
    nodeTypes: seq<TINodeType>,
    structFields: seq<TIStructField>,
    enums: seq<TIEnum>,
    enumFields: seq<TIEnumField>,
    strings: seq<TIString>,
    tags: SpecialTags)

  predicate IsListTag(t: Tables, tag: int)
  {
    tag == t.tags.TList || tag == t.tags.TIntList || tag == t.tags.TOidList
  }

  predicate IsValueTag(t: Tables, tag: int)
  {
    tag in {t.tags.TInteger, t.tags.TFloat, t.tags.TString, t.tags.TBitString, t.tags.TNull}
  }

  predicate DistinctTags(g: SpecialTags)
  {
    var values := {g.TInteger, g.TFloat, g.TString, g.TBitString, g.TNull};
    && g.TList != g.TIntList && g.TList != g.TOidList && g.TIntList != g.TOidList
    && g.TList !in values && g.TIntList !in values && g.TOidList !in values
    && g.TInteger != g.TFloat && g.TInteger != g.TString && g.TInteger != g.TBitString && g.TInteger != g.TNull
    && g.TFloat != g.TString && g.TFloat != g.TBitString && g.TFloat != g.TNull
    && g.TString != g.TBitString && g.TString != g.TNull && g.TBitString != g.TNull
  }

  predicate ValidString(s: TIString)
  {
    IsUInt16(s.length) && s.length == |s.str| && '\0' !in s.str
  }

  predicate ValidNodeType(t: Tables, n: TINodeType)
  {
    && IsUInt16(n.name) && n.name < |t.strings|
    && IsUInt16(n.firstFieldAt) && IsUInt16(n.numFields) && IsUInt16(n.size)
    && n.firstFieldAt + n.numFields <= |t.structFields|
  }

  predicate ValidField(t: Tables, f: TIStructField)
  {
    && IsUInt16(f.name) && f.name < |t.strings|
    && IsUInt16(f.typ) && f.typ < |t.strings|
    && IsUInt16(f.offset) && IsUInt16(f.size) && IsUInt16(f.elemSize)
    && (IsEnumLike(f.knownType) ==> 0 <= f.typeId < |t.enums|)
    && (IsEnumLike(f.elemKnownType) ==> 0 <= f.typeId < |t.enums|)
    && (f.knownType == KNode ==> 0 <= f.typeId < |t.nodeTypes|)
    && f.elemKnownType != KNode && f.elemKnownType != KPPgArr
  }

  predicate ValidEnum(t: Tables, e: TIEnum)
  {
    && IsUInt16(e.name) && e.name < |t.strings|
    && IsUInt16(e.firstFieldAt) && IsUInt16(e.numFields)
    && e.firstFieldAt + e.numFields <= |t.enumFields|
  }

  predicate ValidEnumField(t: Tables, c: TIEnumField)
  {
    IsUInt16(c.name) && c.name < |t.strings| && IsUInt32(c.value)
  }

  /**
   * The tables as the generator emits them: every index a uint16 that
   * lands inside its table, every slice inside the table it cuts, every
   * string of its stated length, the special tags distinct, and each
   * embedded struct of a type whose tag is smaller than the embedding
   * type's (base types are declared before their subtypes), which is also
   * what makes a zeroed node of every type a finite value.
   */
  predicate ValidTables(t: Tables)
  {
    && |t.nodeTypes| <= UINT16_MAX && |t.strings| <= UINT16_MAX + 1
    && (forall tag :: 0 <= tag < |t.nodeTypes| ==> ValidNodeType(t, t.nodeTypes[tag]) && ValidTypeFields(t, tag))
    && (forall i :: 0 <= i < |t.enums| ==> ValidEnum(t, t.enums[i]))
    && (forall i :: 0 <= i < |t.enumFields| ==> ValidEnumField(t, t.enumFields[i]))
    && (forall i :: 0 <= i < |t.strings| ==> ValidString(t.strings[i]))
    && DistinctTags(t.tags)
  }

  /** The fields of node type `tag` are valid and embed only types with smaller tags. */
  predicate ValidTypeFields(t: Tables, tag: int)
    requires 0 <= tag < |t.nodeTypes| && ValidNodeType(t, t.nodeTypes[tag])
  {
    var n := t.nodeTypes[tag];
    forall k :: n.firstFieldAt <= k < n.firstFieldAt + n.numFields ==>
      ValidField(t, t.structFields[k]) && EmbedsBelow(t, tag, t.structFields[k])
  }

  predicate EmbedsBelow(t: Tables, tag: int, f: TIStructField)
  {
    f.knownType == KNode ==> f.typeId < tag
  }

  /** The name stored at string-table index `i`. */
  function StringAt(t: Tables, i: int): (s: string)
    requires ValidTables(t) && 0 <= i < |t.strings|
    ensures |s| == t.strings[i].length && '\0' !in s
  {
    t.strings[i].str
  }

  /** The registered name of node type `tag`. */
  function TypeName(t: Tables, tag: int): string
    requires ValidTables(t) && 0 <= tag < |t.nodeTypes|
  {
    StringAt(t, t.nodeTypes[tag].name)
  }

  /** The fields of node type `tag`: its contiguous slice of the field table. */
  function FieldsOf(t: Tables, tag: int): (fs: seq<TIStructField>)
    requires ValidTables(t) && 0 <= tag < |t.nodeTypes|
    ensures |fs| == t.nodeTypes[tag].numFields
    ensures forall k :: 0 <= k < |fs| ==> ValidField(t, fs[k]) && EmbedsBelow(t, tag, fs[k])
  {
    var n := t.nodeTypes[tag];
    assert ValidTypeFields(t, tag);
    t.structFields[n.firstFieldAt .. n.firstFieldAt + n.numFields]
  }

  /** The constants of enum `e`: its contiguous slice of the enum-constant table. */
  function EnumFieldsOf(t: Tables, e: int): (cs: seq<TIEnumField>)
    requires ValidTables(t) && 0 <= e < |t.enums|
    ensures |cs| == t.enums[e].numFields
    ensures forall k :: 0 <= k < |cs| ==> cs[k] == t.enumFields[t.enums[e].firstFieldAt + k]
    ensures forall k :: 0 <= k < |cs| ==> ValidEnumField(t, cs[k])
  {
    var n := t.enums[e];
    t.enumFields[n.firstFieldAt .. n.firstFieldAt + n.numFields]
  }
}
