// Unique keys of base relations, src/backend/optimizer/path/uniquekey.c:
// how a unique index becomes a UniqueKey of its relation (or marks the
// relation single-row), and how the planner asks whether a relation is
// distinct for a list of pathkeys.
//
// Equivalence classes are compared by pointer in the code; here an
// equivalence class is its identity, a number.  Expressions and operator
// families are numbers too.  The planner routines the code calls and does
// not define (match_index_to_operand, build_equivalanceclass_list_for_exprs,
// ec_useful_for_merging) are given as the functions of a `Callbacks` value.

module UniqueKeys {

  type EcId = nat
  type Expr = nat
  type Oid = nat

  /** FirstLowInvalidHeapAttributeNumber, the offset of attribute numbers in attribute bitmaps. */
  const FirstLowInvalidHeapAttributeNumber: int := -7

  /** An entry of root->unique_exprs: a SingleRow node, or a list of equivalence classes. */
  datatype UniqueExpr = SingleRow(relid: nat) | EcList(ecs: seq<EcId>)

  /** UniqueKey: the indexes into root->unique_exprs, multi_nulls and use_for_distinct. */
  datatype UniqueKey = UniqueKey(indexes: set<nat>, multiNulls: bool, useForDistinct: bool)

  /** A PathKey with the relids of its equivalence class. */
  datatype PathKey = PathKey(eclass: EcId, ecRelids: set<nat>)

  /** A base restriction clause: its merge operator families, the relids of each side, and each side. */
  datatype RestrictInfo = RestrictInfo(mergeopfamilies: seq<Oid>, leftRelids: set<nat>, rightRelids: set<nat>,
                                       leftop: Expr, rightop: Expr)

  /**
   * One key column of an index: indexkeys[c] (positive for a column,
   * 0 for an expression, negative for a system column), the Var of
   * indextlist[c] with its varattno, and opfamily[c].
   */
  datatype IndexColumn = IndexColumn(attr: int, tlistExpr: Expr, tlistAttno: int, opfamily: Oid)

  /** IndexOptInfo: its flags, its key columns, and indexprs, one expression per key column 0. */
  datatype IndexInfo = IndexInfo(unique: bool, immediate: bool, hasPredicate: bool, predOK: bool,
                                 columns: seq<IndexColumn>, indexprs: seq<Expr>)

  /** The planner routines the code relies on. */
  datatype Callbacks = Callbacks(
    matchesOperand: (Expr, IndexInfo, nat) -> bool,
    ecsForExprs: seq<Expr> -> seq<EcId>,
    usefulForMerging: EcId -> bool)

  /** root: the unique expressions collected so far and the DISTINCT pathkeys. */
  class PlannerInfo {
    var uniqueExprs: seq<UniqueExpr>
    const distinctPathkeys: seq<PathKey>

    constructor (distinctPathkeys: seq<PathKey>)
      ensures this.distinctPathkeys == distinctPathkeys && uniqueExprs == []
    {
      this.distinctPathkeys := distinctPathkeys;
      uniqueExprs := [];
    }
  }

  /** A base relation: its relid, its unique keys, its not-null attributes, restrictions and indexes. */
  class RelOptInfo {
    const relid: nat
    var uniquekeys: seq<UniqueKey>
    const notnullAttrs: set<int>
    const baserestrictinfo: seq<RestrictInfo>
    const indexlist: seq<IndexInfo>

    constructor (relid: nat, notnullAttrs: set<int>, baserestrictinfo: seq<RestrictInfo>, indexlist: seq<IndexInfo>)
      ensures this.relid == relid && this.notnullAttrs == notnullAttrs
      ensures this.baserestrictinfo == baserestrictinfo && this.indexlist == indexlist
      ensures uniquekeys == []
    {
      this.relid := relid;
      this.notnullAttrs := notnullAttrs;
      this.baserestrictinfo := baserestrictinfo;
      this.indexlist := indexlist;
      uniquekeys := [];
    }
  }

  /** Every index a key holds names an entry of unique_exprs. */
  predicate IndexesValid(exprs: seq<UniqueExpr>, keys: seq<UniqueKey>)
  {
    forall k, i | 0 <= k < |keys| && i in keys[k].indexes :: i < |exprs|
  }

  // ---------------------------------------------------------------------
  // Containment

  /** list_is_subset_ptr: every class of `l` is one of `ecs`. */
  predicate SubsetOf(l: seq<EcId>, ecs: seq<EcId>)
  {
    forall i | 0 <= i < |l| :: l[i] in ecs
  }

  /** One entry is covered: a SingleRow by its relid, a list by the classes. */
  predicate ExprContained(e: UniqueExpr, ecs: seq<EcId>, relids: set<nat>)
  {
    match e
    case SingleRow(r) => r in relids
    case EcList(l) => SubsetOf(l, ecs)
  }

  /** Every entry the key names is covered. */
  predicate KeyContained(exprs: seq<UniqueExpr>, key: UniqueKey, ecs: seq<EcId>, relids: set<nat>)
    requires forall i | i in key.indexes :: i < |exprs|
  {
    forall i | i in key.indexes :: ExprContained(exprs[i], ecs, relids)
  }

  /**
   * uniquekey_contains_in (lines 247-283): walks the key's indexes and
   * answers false at the first entry not covered.  The code visits the
   * members in increasing order; the answer does not depend on the order.
   */
  method UniqueKeyContainsIn(exprs: seq<UniqueExpr>, key: UniqueKey, ecs: seq<EcId>, relids: set<nat>) returns (r: bool)
    requires forall i | i in key.indexes :: i < |exprs|
    ensures r <==> KeyContained(exprs, key, ecs, relids)
  {
    var rest := key.indexes;
    while rest != {}
      invariant rest <= key.indexes
      invariant forall i | i in key.indexes && i !in rest :: ExprContained(exprs[i], ecs, relids)
      decreases |rest|
    {
      var i :| i in rest;
      var e := exprs[i];
      if e.SingleRow? {
        if e.relid !in relids {
          return false;
        }
      } else if !SubsetOf(e.ecs, ecs) {
        return false;
      }
      rest := rest - {i};
    }
    return true;
  }

  /** The equivalence classes of the pathkeys, in order. */
  function PathkeyEcs(pks: seq<PathKey>): (r: seq<EcId>)
    ensures |r| == |pks| && forall j | 0 <= j < |pks| :: r[j] == pks[j].eclass
  {
    if pks == [] then [] else PathkeyEcs(pks[..|pks| - 1]) + [pks[|pks| - 1].eclass]
  }

  /** The union of the relids of the pathkeys' classes. */
  function PathkeyRelids(pks: seq<PathKey>): (r: set<nat>)
    ensures forall x :: x in r <==> exists j | 0 <= j < |pks| :: x in pks[j].ecRelids
  {
    if pks == [] then {}
    else
      var init := PathkeyRelids(pks[..|pks| - 1]);
      assert forall j | 0 <= j < |pks| - 1 :: pks[..|pks| - 1][j] == pks[j];
      init + pks[|pks| - 1].ecRelids
  }

  /** Some key without multi_nulls is covered by the pathkeys' classes and relids. */
  predicate DistinctFor(exprs: seq<UniqueExpr>, keys: seq<UniqueKey>, pks: seq<PathKey>)
    requires IndexesValid(exprs, keys)
  {
    exists k | 0 <= k < |keys| :: !keys[k].multiNulls && KeyContained(exprs, keys[k], PathkeyEcs(pks), PathkeyRelids(pks))
  }

  /**
   * relation_is_distinct_for (lines 97-124): gathers the pathkeys' classes
   * and relids, then looks for a key without multi_nulls contained in them.
   */
  method RelationIsDistinctFor(root: PlannerInfo, rel: RelOptInfo, pks: seq<PathKey>) returns (r: bool)
    requires IndexesValid(root.uniqueExprs, rel.uniquekeys)
    ensures r <==> DistinctFor(root.uniqueExprs, rel.uniquekeys, pks)
  {
    var lecs: seq<EcId> := [];
    var relids: set<nat> := {};
    var j := 0;
    while j < |pks|
      invariant 0 <= j <= |pks|
      invariant lecs == PathkeyEcs(pks[..j]) && relids == PathkeyRelids(pks[..j])
    {
      assert pks[..j + 1][..j] == pks[..j];
      lecs := lecs + [pks[j].eclass];
      relids := relids + pks[j].ecRelids;
      j := j + 1;
    }
    assert pks[..j] == pks;
    var keys := rel.uniquekeys;
    var k := 0;
    while k < |keys|
      invariant 0 <= k <= |keys|
      invariant forall m | 0 <= m < k :: !(!keys[m].multiNulls && KeyContained(root.uniqueExprs, keys[m], lecs, relids))
    {
      if !keys[k].multiNulls {
        var contained := UniqueKeyContainsIn(root.uniqueExprs, keys[k], lecs, relids);
        if contained {
          return true;
        }
      }
      k := k + 1;
    }
    return false;
  }

  // ---------------------------------------------------------------------
  // Usefulness of a key

  /** `ec` is the class of some pathkey. */
  predicate InPathkeys(ec: EcId, pks: seq<PathKey>)
  {
    exists j | 0 <= j < |pks| :: pks[j].eclass == ec
  }

  /** Every class is the class of some pathkey (vacuously so for none). */
  predicate AllInPathkeys(ecs: seq<EcId>, pks: seq<PathKey>)
  {
    forall i | 0 <= i < |ecs| :: InPathkeys(ecs[i], pks)
  }

  /** unique_ecs_useful_for_distinct (lines 289-316): the nested search over root->distinct_pathkeys. */
  method EcsUsefulForDistinct(ecs: seq<EcId>, pks: seq<PathKey>) returns (r: bool)
    ensures r <==> AllInPathkeys(ecs, pks)
  {
    var i := 0;
    while i < |ecs|
      invariant 0 <= i <= |ecs|
      invariant forall m | 0 <= m < i :: InPathkeys(ecs[m], pks)
    {
      var found := false;
      var j := 0;
      while j < |pks|
        invariant 0 <= j <= |pks| && !found
        invariant forall n | 0 <= n < j :: pks[n].eclass != ecs[i]
      {
        if ecs[i] == pks[j].eclass {
          found := true;
          break;
        }
        j := j + 1;
      }
      if !found {
        assert j == |pks|;
        return false;
      }
      i := i + 1;
    }
    return true;
  }

  /** Every class passes ec_useful_for_merging. */
  predicate AllUsefulForMerging(cb: Callbacks, ecs: seq<EcId>)
  {
    forall i | 0 <= i < |ecs| :: cb.usefulForMerging(ecs[i])
  }

  /** unique_ecs_useful_for_merging (lines 322-335). */
  method EcsUsefulForMerging(cb: Callbacks, ecs: seq<EcId>) returns (r: bool)
    ensures r <==> AllUsefulForMerging(cb, ecs)
  {
    var i := 0;
    while i < |ecs|
      invariant 0 <= i <= |ecs|
      invariant forall m | 0 <= m < i :: cb.usefulForMerging(ecs[m])
    {
      if !cb.usefulForMerging(ecs[i]) {
        return false;
      }
      i := i + 1;
    }
    return true;
  }

  /** Classes useful for DISTINCT are covered by the DISTINCT pathkeys' classes. */
  lemma {:induction false} UsefulForDistinctCovered(ecs: seq<EcId>, pks: seq<PathKey>)
    requires AllInPathkeys(ecs, pks)
    ensures SubsetOf(ecs, PathkeyEcs(pks))
  {
    forall i | 0 <= i < |ecs|
      ensures ecs[i] in PathkeyEcs(pks)
    {
      var j :| 0 <= j < |pks| && pks[j].eclass == ecs[i];
      assert PathkeyEcs(pks)[j] == ecs[i];
    }
  }

  // ---------------------------------------------------------------------
  // The constants of the restriction clauses

  /** mergeable_const_peer and expr_opfamilies, built side by side. */
  datatype ConstPeers = ConstPeers(peers: seq<Expr>, opfamilies: seq<seq<Oid>>)

  /**
   * The first loop of populate_baserel_uniquekeys (lines 60-74) over the
   * clauses `rs`: a mergeable clause with no relids on one side gives the
   * other side as a constant peer, with its merge operator families.
   */
  function GatherConstPeers(rs: seq<RestrictInfo>): ConstPeers
  {
    if rs == [] then ConstPeers([], [])
    else
      var acc := GatherConstPeers(rs[..|rs| - 1]);
      var r := rs[|rs| - 1];
      if r.mergeopfamilies == [] then acc
      else if r.leftRelids == {} then ConstPeers(acc.peers + [r.rightop], acc.opfamilies + [r.mergeopfamilies])
      else if r.rightRelids == {} then ConstPeers(acc.peers + [r.leftop], acc.opfamilies + [r.mergeopfamilies])
      else acc
  }

  /** The two lists stay aligned, and every operator family list comes from a mergeable clause. */
  lemma {:induction false} ConstPeersAligned(rs: seq<RestrictInfo>)
    ensures |GatherConstPeers(rs).peers| == |GatherConstPeers(rs).opfamilies| <= |rs|
    ensures forall k | 0 <= k < |GatherConstPeers(rs).opfamilies| ::
      exists j | 0 <= j < |rs| :: rs[j].mergeopfamilies == GatherConstPeers(rs).opfamilies[k] && rs[j].mergeopfamilies != []
  {
    if rs != [] {
      var init := rs[..|rs| - 1];
      ConstPeersAligned(init);
      var acc := GatherConstPeers(init);
      var g := GatherConstPeers(rs);
      forall k | 0 <= k < |g.opfamilies|
        ensures exists j | 0 <= j < |rs| :: rs[j].mergeopfamilies == g.opfamilies[k] && rs[j].mergeopfamilies != []
      {
        if k < |acc.opfamilies| {
          assert g.opfamilies[k] == acc.opfamilies[k];
          var j :| 0 <= j < |init| && init[j].mergeopfamilies == acc.opfamilies[k] && init[j].mergeopfamilies != [];
          assert rs[j] == init[j];
        } else {
          assert rs[|rs| - 1].mergeopfamilies == g.opfamilies[k];
        }
      }
    }
  }

  /** The loop over rel->baserestrictinfo. */
  method CollectConstPeers(rs: seq<RestrictInfo>) returns (cp: ConstPeers)
    ensures cp == GatherConstPeers(rs)
  {
    var peers: seq<Expr> := [];
    var fams: seq<seq<Oid>> := [];
    var i := 0;
    while i < |rs|
      invariant 0 <= i <= |rs|
      invariant ConstPeers(peers, fams) == GatherConstPeers(rs[..i])
    {
      assert rs[..i + 1][..i] == rs[..i];
      var r := rs[i];
      if r.mergeopfamilies != [] {
        if r.leftRelids == {} {
          peers := peers + [r.rightop];
          fams := fams + [r.mergeopfamilies];
        } else if r.rightRelids == {} {
          peers := peers + [r.leftop];
          fams := fams + [r.mergeopfamilies];
        }
      }
      i := i + 1;
    }
    assert rs[..i] == rs;
    return ConstPeers(peers, fams);
  }

  // ---------------------------------------------------------------------
  // add_uniquekey_for_uniqueindex

  /** The number of expression columns (indexkeys 0) among `cols`. */
  function ZeroAttrs(cols: seq<IndexColumn>): nat
  {
    if cols == [] then 0 else (if cols[0].attr == 0 then 1 else 0) + ZeroAttrs(cols[1..])
  }

  /** indexprs holds an expression for every expression column. */
  predicate WellFormedIndex(index: IndexInfo)
  {
    ZeroAttrs(index.columns) <= |index.indexprs|
  }

  /** Constant peer `k` matches column `c`: the column's operator family is one of the peer's, and the peer matches the column. */
  predicate PeerMatches(cb: Callbacks, index: IndexInfo, c: nat, cp: ConstPeers, k: nat)
    requires c < |index.columns| && k < |cp.peers| && k < |cp.opfamilies|
  {
    index.columns[c].opfamily in cp.opfamilies[k] && cb.matchesOperand(cp.peers[k], index, c)
  }

  /** Column `c` is equal to a constant (the forboth loop, lines 179-187). */
  predicate MatchedConst(cb: Callbacks, index: IndexInfo, c: nat, cp: ConstPeers)
    requires c < |index.columns|
  {
    exists k | 0 <= k < |cp.peers| && k < |cp.opfamilies| :: PeerMatches(cb, index, c, cp, k)
  }

  /** The forboth loop over the constant peers and their operator families. */
  method MatchConstPeer(cb: Callbacks, index: IndexInfo, c: nat, cp: ConstPeers) returns (matched: bool)
    requires c < |index.columns|
    ensures matched <==> MatchedConst(cb, index, c, cp)
  {
    var k := 0;
    while k < |cp.peers| && k < |cp.opfamilies|
      invariant 0 <= k <= |cp.peers| && k <= |cp.opfamilies|
      invariant forall m | 0 <= m < k :: !PeerMatches(cb, index, c, cp, m)
    {
      if index.columns[c].opfamily in cp.opfamilies[k] && cb.matchesOperand(cp.peers[k], index, c) {
        assert PeerMatches(cb, index, c, cp, k);
        return true;
      }
      k := k + 1;
    }
    return false;
  }

  /** Column `c` may hold NULLs: an expression, or a column not known NOT NULL. */
  predicate MayBeNull(index: IndexInfo, c: nat, notnull: set<int>)
    requires c < |index.columns|
  {
    var col := index.columns[c];
    col.attr == 0 || (col.attr > 0 && col.tlistAttno - FirstLowInvalidHeapAttributeNumber !in notnull)
  }

  datatype ColumnScan = StopAtSystemColumn | Gathered(exprs: seq<Expr>, multiNull: bool)

  /**
   * The column loop of add_uniquekey_for_uniqueindex (lines 145-193) from
   * column `c`, with the next expression of indexprs at `cursor`: a system
   * column stops it; every column not equal to a constant adds its
   * expression; a column that may be NULL sets multinull.
   */
  function ScanColumns(cb: Callbacks, index: IndexInfo, notnull: set<int>, cp: ConstPeers,
                       c: nat, cursor: nat, exprs: seq<Expr>, multiNull: bool): ColumnScan
    requires c <= |index.columns|
    requires cursor + ZeroAttrs(index.columns[c..]) <= |index.indexprs|
    decreases |index.columns| - c
  {
    if c == |index.columns| then Gathered(exprs, multiNull)
    else
      var col := index.columns[c];
      assert index.columns[c..][1..] == index.columns[c + 1..];
      if col.attr < 0 then StopAtSystemColumn
      else
        var expr := if col.attr > 0 then col.tlistExpr else index.indexprs[cursor];
        var next := if col.attr == 0 then cursor + 1 else cursor;
        ScanColumns(cb, index, notnull, cp, c + 1, next,
                    if MatchedConst(cb, index, c, cp) then exprs else exprs + [expr],
                    multiNull || MayBeNull(index, c, notnull))
  }

  /** The scan stops exactly when a system column lies ahead. */
  lemma {:induction false} ScanStopsAtSystemColumn(cb: Callbacks, index: IndexInfo, notnull: set<int>, cp: ConstPeers,
                                                   c: nat, cursor: nat, exprs: seq<Expr>, multiNull: bool)
    requires c <= |index.columns|
    requires cursor + ZeroAttrs(index.columns[c..]) <= |index.indexprs|
    ensures ScanColumns(cb, index, notnull, cp, c, cursor, exprs, multiNull).StopAtSystemColumn? <==>
      exists j | c <= j < |index.columns| :: index.columns[j].attr < 0
    decreases |index.columns| - c
  {
    if c < |index.columns| && index.columns[c].attr >= 0 {
      assert index.columns[c..][1..] == index.columns[c + 1..];
      var col := index.columns[c];
      ScanStopsAtSystemColumn(cb, index, notnull, cp, c + 1, if col.attr == 0 then cursor + 1 else cursor,
        if MatchedConst(cb, index, c, cp) then exprs else exprs + [if col.attr > 0 then col.tlistExpr else index.indexprs[cursor]],
        multiNull || MayBeNull(index, c, notnull));
    }
  }

  /**
   * What the scan gathers: the expressions gathered so far stay in front,
   * nothing is added exactly when every column ahead equals a constant,
   * and multinull ends up set exactly when it was or a column ahead may
   * be NULL.
   */
  lemma {:induction false} ScanGathers(cb: Callbacks, index: IndexInfo, notnull: set<int>, cp: ConstPeers,
                                       c: nat, cursor: nat, exprs: seq<Expr>, multiNull: bool)
    requires c <= |index.columns|
    requires cursor + ZeroAttrs(index.columns[c..]) <= |index.indexprs|
    ensures var r := ScanColumns(cb, index, notnull, cp, c, cursor, exprs, multiNull);
      r.Gathered? ==>
        exprs <= r.exprs &&
        (r.exprs == exprs <==> forall j | c <= j < |index.columns| :: MatchedConst(cb, index, j, cp)) &&
        (r.multiNull <==> multiNull || exists j | c <= j < |index.columns| :: MayBeNull(index, j, notnull))
    decreases |index.columns| - c
  {
    if c < |index.columns| && index.columns[c].attr >= 0 {
      assert index.columns[c..][1..] == index.columns[c + 1..];
      var col := index.columns[c];
      var exprs' := if MatchedConst(cb, index, c, cp) then exprs
                    else exprs + [if col.attr > 0 then col.tlistExpr else index.indexprs[cursor]];
      ScanGathers(cb, index, notnull, cp, c + 1, if col.attr == 0 then cursor + 1 else cursor,
                  exprs', multiNull || MayBeNull(index, c, notnull));
    }
  }

  /** What add_uniquekey_for_uniqueindex does with one unique index. */
  datatype IndexOutcome =
    | SkipSystemColumn             // a key column is a system column: nothing
    | SingleRowRel                 // every key column equals a constant: the relation is single-row
    | NoEcs                        // the expressions have no equivalence classes: nothing
    | NotUseful                    // neither DISTINCT nor merging can use them: nothing
    | NewKey(ecs: seq<EcId>, multiNull: bool, forDistinct: bool)

  /** add_uniquekey_for_uniqueindex's decision (lines 145-239). */
  function UniqueIndexOutcome(cb: Callbacks, index: IndexInfo, notnull: set<int>, cp: ConstPeers, distinctPks: seq<PathKey>): IndexOutcome
    requires WellFormedIndex(index)
  {
    match ScanColumns(cb, index, notnull, cp, 0, 0, [], false)
    case StopAtSystemColumn => SkipSystemColumn
    case Gathered(exprs, multiNull) =>
      if exprs == [] then SingleRowRel
      else
        var ecs := cb.ecsForExprs(exprs);
        if ecs == [] then NoEcs
        else if AllInPathkeys(ecs, distinctPks) then NewKey(ecs, multiNull, true)
        else if !AllUsefulForMerging(cb, ecs) then NotUseful
        else NewKey(ecs, multiNull, false)
  }

  /**
   * The outcomes: a system key column means nothing is added; otherwise
   * the relation is single-row exactly when every key column equals a
   * constant; a new key has classes, is for DISTINCT exactly when the
   * DISTINCT pathkeys cover its classes and is otherwise useful for
   * merging, and has multi_nulls exactly when a key column may be NULL.
   */
  lemma {:induction false} UniqueIndexOutcomes(cb: Callbacks, index: IndexInfo, notnull: set<int>, cp: ConstPeers, distinctPks: seq<PathKey>)
    requires WellFormedIndex(index)
    ensures var o := UniqueIndexOutcome(cb, index, notnull, cp, distinctPks);
      (o.SkipSystemColumn? <==> exists j | 0 <= j < |index.columns| :: index.columns[j].attr < 0) &&
      (o.SingleRowRel? <==> (forall j | 0 <= j < |index.columns| :: index.columns[j].attr >= 0) &&
                            (forall j | 0 <= j < |index.columns| :: MatchedConst(cb, index, j, cp))) &&
      (o.NewKey? ==> o.ecs != [] && (o.forDistinct <==> AllInPathkeys(o.ecs, distinctPks)) &&
                     (!o.forDistinct ==> AllUsefulForMerging(cb, o.ecs)) &&
                     (o.multiNull <==> exists j | 0 <= j < |index.columns| :: MayBeNull(index, j, notnull)))
  {
    assert index.columns[0..] == index.columns;
    ScanStopsAtSystemColumn(cb, index, notnull, cp, 0, 0, [], false);
    ScanGathers(cb, index, notnull, cp, 0, 0, [], false);
  }

  /** The planner state the outcomes change: root->unique_exprs and rel->uniquekeys. */
  datatype KeyState = KeyState(exprs: seq<UniqueExpr>, keys: seq<UniqueKey>)

  /**
   * The new state after an outcome: single-row appends a SingleRow entry
   * and leaves one key naming it (mark_rel_singlerow); a new key appends
   * its classes and a key naming them; the others change nothing.
   */
  function Apply(st: KeyState, relid: nat, o: IndexOutcome): KeyState
  {
    match o
    case SingleRowRel => KeyState(st.exprs + [SingleRow(relid)], [UniqueKey({|st.exprs|}, false, true)])
    case NewKey(ecs, multiNull, forDistinct) =>
      KeyState(st.exprs + [EcList(ecs)], st.keys + [UniqueKey({|st.exprs|}, multiNull, forDistinct)])
    case _ => st
  }

  /** Every outcome keeps the keys' indexes valid, and earlier entries of unique_exprs are never changed. */
  lemma {:induction false} ApplyKeepsIndexes(st: KeyState, relid: nat, o: IndexOutcome)
    requires IndexesValid(st.exprs, st.keys)
    ensures IndexesValid(Apply(st, relid, o).exprs, Apply(st, relid, o).keys)
    ensures st.exprs <= Apply(st, relid, o).exprs
  {
    var st' := Apply(st, relid, o);
    forall k, i | 0 <= k < |st'.keys| && i in st'.keys[k].indexes
      ensures i < |st'.exprs|
    {
      if o.NewKey? && k < |st.keys| {
        assert st'.keys[k] == st.keys[k];
      }
    }
  }

  /**
   * After the relation is marked single-row it is distinct for pathkeys
   * exactly when their relids include the relation's.
   */
  lemma {:induction false} SingleRowDistinct(st: KeyState, relid: nat, pks: seq<PathKey>)
    requires IndexesValid(st.exprs, st.keys)
    ensures var st' := Apply(st, relid, SingleRowRel);
      IndexesValid(st'.exprs, st'.keys) &&
      (DistinctFor(st'.exprs, st'.keys, pks) <==> relid in PathkeyRelids(pks))
  {
    var st' := Apply(st, relid, SingleRowRel);
    ApplyKeepsIndexes(st, relid, SingleRowRel);
    assert st'.exprs[|st.exprs|] == SingleRow(relid);
    if relid in PathkeyRelids(pks) {
      assert KeyContained(st'.exprs, st'.keys[0], PathkeyEcs(pks), PathkeyRelids(pks));
    }
  }

  /**
   * A new key without multi_nulls makes the relation distinct for any
   * pathkeys whose classes cover the key's; in particular a key for
   * DISTINCT makes it distinct for the DISTINCT pathkeys.
   */
  lemma {:induction false} NewKeyDistinct(st: KeyState, relid: nat, ecs: seq<EcId>, forDistinct: bool, pks: seq<PathKey>)
    requires IndexesValid(st.exprs, st.keys)
    requires SubsetOf(ecs, PathkeyEcs(pks)) || (forDistinct && AllInPathkeys(ecs, pks))
    ensures var st' := Apply(st, relid, NewKey(ecs, false, forDistinct));
      IndexesValid(st'.exprs, st'.keys) && DistinctFor(st'.exprs, st'.keys, pks)
  {
    var st' := Apply(st, relid, NewKey(ecs, false, forDistinct));
    ApplyKeepsIndexes(st, relid, NewKey(ecs, false, forDistinct));
    if !SubsetOf(ecs, PathkeyEcs(pks)) {
      UsefulForDistinctCovered(ecs, pks);
    }
    var k := |st.keys|;
    assert st'.exprs[|st.exprs|] == EcList(ecs);
    assert KeyContained(st'.exprs, st'.keys[k], PathkeyEcs(pks), PathkeyRelids(pks));
  }

  /** A key with multi_nulls never changes whether the relation is distinct. */
  lemma {:induction false} MultiNullKeyIgnored(exprs: seq<UniqueExpr>, keys: seq<UniqueKey>, key: UniqueKey, pks: seq<PathKey>)
    requires IndexesValid(exprs, keys + [key]) && key.multiNulls
    ensures IndexesValid(exprs, keys)
    ensures DistinctFor(exprs, keys + [key], pks) <==> DistinctFor(exprs, keys, pks)
  {
    var all := keys + [key];
    forall k, i | 0 <= k < |keys| && i in keys[k].indexes
      ensures i < |exprs|
    {
      assert all[k] == keys[k];
    }
    if DistinctFor(exprs, all, pks) {
      var k :| 0 <= k < |all| && !all[k].multiNulls && KeyContained(exprs, all[k], PathkeyEcs(pks), PathkeyRelids(pks));
      assert all[k] == keys[k];
    }
    if DistinctFor(exprs, keys, pks) {
      var k :| 0 <= k < |keys| && !keys[k].multiNulls && KeyContained(exprs, keys[k], PathkeyEcs(pks), PathkeyRelids(pks));
      assert all[k] == keys[k];
    }
  }

  /** A relation distinct for some pathkeys stays distinct when more pathkeys are added. */
  lemma {:induction false} DistinctForMorePathkeys(exprs: seq<UniqueExpr>, keys: seq<UniqueKey>, pks: seq<PathKey>, more: seq<PathKey>)
    requires IndexesValid(exprs, keys) && DistinctFor(exprs, keys, pks)
    ensures DistinctFor(exprs, keys, pks + more)
  {
    var all := pks + more;
    var k :| 0 <= k < |keys| && !keys[k].multiNulls && KeyContained(exprs, keys[k], PathkeyEcs(pks), PathkeyRelids(pks));
    forall i | i in keys[k].indexes
      ensures ExprContained(exprs[i], PathkeyEcs(all), PathkeyRelids(all))
    {
      match exprs[i]
      case SingleRow(r) =>
        var j :| 0 <= j < |pks| && r in pks[j].ecRelids;
        assert all[j] == pks[j];
      case EcList(l) =>
        forall m | 0 <= m < |l|
          ensures l[m] in PathkeyEcs(all)
        {
          var j :| 0 <= j < |pks| && PathkeyEcs(pks)[j] == l[m];
          assert PathkeyEcs(all)[j] == l[m];
        }
    }
    assert KeyContained(exprs, keys[k], PathkeyEcs(all), PathkeyRelids(all));
  }

  /**
   * mark_rel_singlerow (lines 353-364): appends a SingleRow entry for the
   * relation and replaces its keys with one key naming that entry, without
   * multi_nulls and for DISTINCT.
   */
  method MarkRelSingleRow(root: PlannerInfo, rel: RelOptInfo)
    modifies root, rel
    ensures root.uniqueExprs == old(root.uniqueExprs) + [SingleRow(rel.relid)]
    ensures rel.uniquekeys == [UniqueKey({|old(root.uniqueExprs)|}, false, true)]
  {
    var pos := |root.uniqueExprs|;
    root.uniqueExprs := root.uniqueExprs + [SingleRow(rel.relid)];
    rel.uniquekeys := [UniqueKey({pos}, false, true)];
  }

  /**
   * add_uniquekey_for_uniqueindex (lines 131-240): true exactly when the
   * relation was marked single-row; the state changes as the outcome says.
   */
  method AddUniqueKeyForUniqueIndex(root: PlannerInfo, rel: RelOptInfo, cb: Callbacks, index: IndexInfo, cp: ConstPeers)
    returns (singleRow: bool)
    requires WellFormedIndex(index)
    modifies root, rel
    ensures var o := UniqueIndexOutcome(cb, index, rel.notnullAttrs, cp, root.distinctPathkeys);
      singleRow == o.SingleRowRel? &&
      KeyState(root.uniqueExprs, rel.uniquekeys) == Apply(KeyState(old(root.uniqueExprs), old(rel.uniquekeys)), rel.relid, o)
  {
    var exprs: seq<Expr> := [];
    var multiNull := false;
    var cursor: nat := 0;
    var c: nat := 0;
    assert index.columns[0..] == index.columns;
    while c < |index.columns|
      invariant c <= |index.columns|
      invariant cursor + ZeroAttrs(index.columns[c..]) <= |index.indexprs|
      invariant ScanColumns(cb, index, rel.notnullAttrs, cp, c, cursor, exprs, multiNull) ==
                ScanColumns(cb, index, rel.notnullAttrs, cp, 0, 0, [], false)
      invariant root.uniqueExprs == old(root.uniqueExprs) && rel.uniquekeys == old(rel.uniquekeys)
    {
      assert index.columns[c..][1..] == index.columns[c + 1..];
      var col := index.columns[c];
      var expr: Expr;
      if col.attr > 0 {
        expr := col.tlistExpr;
        if col.tlistAttno - FirstLowInvalidHeapAttributeNumber !in rel.notnullAttrs {
          multiNull := true;
        }
      } else if col.attr == 0 {
        expr := index.indexprs[cursor];
        cursor := cursor + 1;
        multiNull := true;
      } else {
        return false;
      }
      var matched := MatchConstPeer(cb, index, c, cp);
      if !matched {
        exprs := exprs + [expr];
      }
      c := c + 1;
    }
    assert ScanColumns(cb, index, rel.notnullAttrs, cp, 0, 0, [], false) == Gathered(exprs, multiNull);
    if exprs == [] {
      MarkRelSingleRow(root, rel);
      return true;
    }
    var ecs := cb.ecsForExprs(exprs);
    if ecs == [] {
      return false;
    }
    var forDistinct := EcsUsefulForDistinct(ecs, root.distinctPathkeys);
    if !forDistinct {
      var merging := EcsUsefulForMerging(cb, ecs);
      if !merging {
        return false;
      }
    }
    var pos := |root.uniqueExprs|;
    root.uniqueExprs := root.uniqueExprs + [EcList(ecs)];
    rel.uniquekeys := rel.uniquekeys + [UniqueKey({pos}, multiNull, forDistinct)];
    return false;
  }

  // ---------------------------------------------------------------------
  // populate_baserel_uniquekeys

  /** An index populate_baserel_uniquekeys looks at: unique, immediate, and with its predicate proven if it has one. */
  predicate Eligible(index: IndexInfo)
  {
    index.unique && index.immediate && (!index.hasPredicate || index.predOK)
  }

  predicate AllWellFormed(ixs: seq<IndexInfo>)
  {
    forall i | 0 <= i < |ixs| :: WellFormedIndex(ixs[i])
  }

  /**
   * The index loop of populate_baserel_uniquekeys (lines 76-88) from index
   * `i`: ineligible indexes are skipped, and the first index that marks
   * the relation single-row ends it.
   */
  function PopulateFrom(cb: Callbacks, ixs: seq<IndexInfo>, i: nat, st: KeyState, relid: nat, notnull: set<int>,
                        cp: ConstPeers, distinctPks: seq<PathKey>): KeyState
    requires i <= |ixs| && AllWellFormed(ixs)
    decreases |ixs| - i
  {
    if i == |ixs| then st
    else if !Eligible(ixs[i]) then PopulateFrom(cb, ixs, i + 1, st, relid, notnull, cp, distinctPks)
    else
      var o := UniqueIndexOutcome(cb, ixs[i], notnull, cp, distinctPks);
      if o.SingleRowRel? then Apply(st, relid, o)
      else PopulateFrom(cb, ixs, i + 1, Apply(st, relid, o), relid, notnull, cp, distinctPks)
  }

  /** Populating keeps the keys' indexes valid and never changes an earlier entry of unique_exprs. */
  lemma {:induction false} PopulateKeepsIndexes(cb: Callbacks, ixs: seq<IndexInfo>, i: nat, st: KeyState, relid: nat,
                                                notnull: set<int>, cp: ConstPeers, distinctPks: seq<PathKey>)
    requires i <= |ixs| && AllWellFormed(ixs) && IndexesValid(st.exprs, st.keys)
    ensures var r := PopulateFrom(cb, ixs, i, st, relid, notnull, cp, distinctPks);
      IndexesValid(r.exprs, r.keys) && st.exprs <= r.exprs
    decreases |ixs| - i
  {
    if i < |ixs| {
      if !Eligible(ixs[i]) {
        PopulateKeepsIndexes(cb, ixs, i + 1, st, relid, notnull, cp, distinctPks);
      } else {
        var o := UniqueIndexOutcome(cb, ixs[i], notnull, cp, distinctPks);
        ApplyKeepsIndexes(st, relid, o);
        if !o.SingleRowRel? {
          PopulateKeepsIndexes(cb, ixs, i + 1, Apply(st, relid, o), relid, notnull, cp, distinctPks);
        }
      }
    }
  }

  /**
   * When an eligible index lies ahead whose key columns all equal
   * constants, populating leaves the relation with exactly one key, naming
   * a SingleRow entry for the relation.
   */
  lemma {:induction false} PopulateSingleRow(cb: Callbacks, ixs: seq<IndexInfo>, i: nat, st: KeyState, relid: nat,
                                             notnull: set<int>, cp: ConstPeers, distinctPks: seq<PathKey>)
    requires i <= |ixs| && AllWellFormed(ixs)
    requires exists j | i <= j < |ixs| :: Eligible(ixs[j]) && UniqueIndexOutcome(cb, ixs[j], notnull, cp, distinctPks).SingleRowRel?
    ensures var r := PopulateFrom(cb, ixs, i, st, relid, notnull, cp, distinctPks);
      |r.keys| == 1 && r.keys[0].indexes == {|r.exprs| - 1} && |r.exprs| > 0 && r.exprs[|r.exprs| - 1] == SingleRow(relid)
    decreases |ixs| - i
  {
    if !Eligible(ixs[i]) || !UniqueIndexOutcome(cb, ixs[i], notnull, cp, distinctPks).SingleRowRel? {
      var o := UniqueIndexOutcome(cb, ixs[i], notnull, cp, distinctPks);
      var st' := if Eligible(ixs[i]) then Apply(st, relid, o) else st;
      PopulateSingleRow(cb, ixs, i + 1, st', relid, notnull, cp, distinctPks);
    }
  }

  /**
   * populate_baserel_uniquekeys (lines 50-91): collects the constant peers
   * of the restriction clauses, then offers each eligible unique index in
   * turn until one marks the relation single-row.
   */
  method PopulateBaserelUniquekeys(root: PlannerInfo, rel: RelOptInfo, cb: Callbacks)
    requires AllWellFormed(rel.indexlist)
    modifies root, rel
    ensures KeyState(root.uniqueExprs, rel.uniquekeys) ==
      PopulateFrom(cb, rel.indexlist, 0, KeyState(old(root.uniqueExprs), old(rel.uniquekeys)), rel.relid,
                   rel.notnullAttrs, GatherConstPeers(rel.baserestrictinfo), root.distinctPathkeys)
  {
    var cp := CollectConstPeers(rel.baserestrictinfo);
    var i := 0;
    while i < |rel.indexlist|
      invariant 0 <= i <= |rel.indexlist|
      invariant PopulateFrom(cb, rel.indexlist, i, KeyState(root.uniqueExprs, rel.uniquekeys), rel.relid,
                             rel.notnullAttrs, cp, root.distinctPathkeys) ==
                PopulateFrom(cb, rel.indexlist, 0, KeyState(old(root.uniqueExprs), old(rel.uniquekeys)), rel.relid,
                             rel.notnullAttrs, cp, root.distinctPathkeys)
    {
      var index := rel.indexlist[i];
      if Eligible(index) {
        var singleRow := AddUniqueKeyForUniqueIndex(root, rel, cb, index, cp);
        if singleRow {
          return;
        }
      }
      i := i + 1;
    }
  }
}
