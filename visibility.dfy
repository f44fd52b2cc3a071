// Tuple visibility in zedstore, src/backend/access/zedstore/zedstore_visibility.c:
// the tuple-lock compatibility table, xid_is_visible, and the walks that
// zs_SatisfiesUpdate, am_i_holding_lock and the zs_Satisfies* routines of
// the scan make along the chain of UNDO records of one tuple.
//
// The transaction manager and the UNDO log are not modelled code: what
// TransactionIdIsCurrentTransactionId, TransactionIdIsInProgress,
// TransactionIdDidCommit, XidInMVCCSnapshot and GlobalVisTestIsRemovableXid
// answer is given as sets of xids, zsundo_fetch_record as a map from
// counters to records (a counter with no record was discarded), and
// zsundo_get_oldest_undo_ptr as the one counter it returns when a walk asks
// for it again.  An UNDO pointer is its counter.  elog(ERROR) and a failed
// Assert are `Err(Abort(..))`.

module ZedstoreVisibility {
  import opened Wrappers

  type Xid = nat

  const InvalidTransactionId: Xid := 0
  const FrozenTransactionId: Xid := 2
  /** InvalidCommandId, (CommandId) ~0. */
  const InvalidCommandId: nat := 0xFFFF_FFFF
  const InvalidZSTid: nat := 0
  const InvalidSpeculativeToken: nat := 0

  // LockTupleMode, weakest first
  const LockTupleKeyShare: int := 0
  const LockTupleShare: int := 1
  const LockTupleNoKeyExclusive: int := 2
  const LockTupleExclusive: int := 3

  const UnknownLockMode: string := "unknown tuple lock mode"
  const MissingRecord: string := "could not find UNDO record"
  const UnexpectedType: string := "unexpected UNDO record type"
  const InserterAssertion: string := "Assert(undorec->type == ZSUNDO_TYPE_INSERT)"
  const OldestAssertion: string := "Assert(scan->recent_oldest_undo.counter != 0)"
  const ToastRefused: string := "SnapshotToast not implemented in zedstore"
  const HistoricRefused: string := "SnapshotHistoricMVCC not implemented in zedstore yet"

  predicate IsLockMode(m: int) { LockTupleKeyShare <= m <= LockTupleExclusive }

  // ---------------------------------------------------------------------
  // zs_tuplelock_compatible

  /**
   * zs_tuplelock_compatible (lines 19-41): whether a lock `newmode` can be
   * taken while another transaction holds `mode`; an unknown `newmode` is
   * an error.
   */
  function TupleLockCompatible(mode: int, newmode: int): (r: Result<bool>)
    ensures r.Err? <==> !IsLockMode(newmode)
    ensures r.Ok? ==> (r.value <==> IsLockMode(mode) && mode + newmode <= 2)
  {
    if newmode == LockTupleKeyShare then
      Ok(mode == LockTupleKeyShare || mode == LockTupleShare || mode == LockTupleNoKeyExclusive)
    else if newmode == LockTupleShare then Ok(mode == LockTupleKeyShare || mode == LockTupleShare)
    else if newmode == LockTupleNoKeyExclusive then Ok(mode == LockTupleKeyShare)
    else if newmode == LockTupleExclusive then Ok(false)
    else Err(Abort(UnknownLockMode))
  }

  /**
   * The table: only an unknown requested mode is an error; between known
   * modes two locks are compatible exactly when their strengths add up to
   * at most 2 (so the table is symmetric, Exclusive conflicts with all,
   * and a stronger request is compatible with fewer held modes).
   */
  lemma {:induction false} TupleLockTable(mode: int, newmode: int)
    ensures TupleLockCompatible(mode, newmode).Err? <==> !IsLockMode(newmode)
    ensures IsLockMode(mode) && IsLockMode(newmode) ==>
      TupleLockCompatible(mode, newmode) == Ok(mode + newmode <= 2) &&
      TupleLockCompatible(mode, newmode) == TupleLockCompatible(newmode, mode)
    ensures IsLockMode(newmode) && !IsLockMode(mode) ==> TupleLockCompatible(mode, newmode) == Ok(false)
  {
  }

  /** A stronger request is compatible with no more held modes than a weaker one. */
  lemma {:induction false} TupleLockMonotone(mode: int, weaker: int, stronger: int)
    requires IsLockMode(weaker) && IsLockMode(stronger) && weaker <= stronger
    ensures TupleLockCompatible(mode, stronger) == Ok(true) ==> TupleLockCompatible(mode, weaker) == Ok(true)
  {
  }

  // ---------------------------------------------------------------------
  // What the walks consult

  /**
   * The transaction manager: the xids TransactionIdIsCurrentTransactionId,
   * TransactionIdIsInProgress and TransactionIdDidCommit answer true for.
   */
  datatype Xacts = Xacts(current: set<Xid>, inProgress: set<Xid>, committed: set<Xid>)

  datatype SnapshotType =
    | SnapshotMvcc | SnapshotSelf | SnapshotAny | SnapshotToast | SnapshotDirty
    | SnapshotHistoricMvcc | SnapshotNonVacuumable

  /**
   * The snapshot as the walks read it: its type, its curcid, the xids
   * XidInMVCCSnapshot reports as running, and the xids
   * GlobalVisTestIsRemovableXid reports removable.
   */
  datatype Snapshot = Snapshot(kind: SnapshotType, curcid: nat, running: set<Xid>, removable: set<Xid>)

  /** The UNDO record types, with the fields of each the walks read. */
  datatype RecordKind =
    | Insert(speculativeToken: nat)
    | Delete(changedPart: bool)
    | Update(newTid: nat, keyUpdate: bool)
    | TupleLock(lockMode: int)
    | OtherType(code: int)

  /** An UNDO record: its type, xid, cid and prevundorec counter. */
  datatype UndoRec = UndoRec(kind: RecordKind, xid: Xid, cid: nat, prev: nat)

  /** zsundo_fetch_record: the record at each counter still in the log. */
  type UndoLog = map<nat, UndoRec>

  /** Every record points to an older one (counters are handed out in increasing order). */
  predicate ChainsDescend(log: UndoLog)
  {
    forall c | c in log :: log[c].prev < c
  }

  /**
   * Everything a walk consults: the log, the transaction manager, the
   * snapshot, and the counter zsundo_get_oldest_undo_ptr returns when the
   * walk asks for it again.
   */
  datatype Env = Env(log: UndoLog, xacts: Xacts, snapshot: Snapshot, refreshedOldest: nat)

  /** `q` is reached from `p` by following prevundorec through records of the log. */
  predicate OnChain(log: UndoLog, p: nat, q: nat)
    requires ChainsDescend(log)
    decreases p
  {
    p == q || (p in log && OnChain(log, log[p].prev, q))
  }

  // ---------------------------------------------------------------------
  // xid_is_visible

  /**
   * xid_is_visible (lines 419-442): (visible, aborted) for the change made
   * by `xid` at command `cid`.
   */
  function XidIsVisible(env: Env, xid: Xid, cid: nat): (r: (bool, bool))
    ensures r.0 ==> xid in env.xacts.current || xid in env.xacts.committed
    ensures r.1 <==> xid !in env.xacts.current && xid !in env.snapshot.running && xid !in env.xacts.committed
    ensures !(r.0 && r.1)
  {
    if xid in env.xacts.current then (cid < env.snapshot.curcid, false)
    else if xid in env.snapshot.running then (false, false)
    else if xid in env.xacts.committed then (true, false)
    else (false, true)
  }

  /**
   * The change is visible when it is our own from an earlier command, or
   * another transaction's that the snapshot does not see running and that
   * committed; `aborted` is set exactly when it is neither ours, nor
   * running in the snapshot, nor committed; never both.
   */
  lemma {:induction false} XidIsVisibleCases(env: Env, xid: Xid, cid: nat)
    ensures XidIsVisible(env, xid, cid).0 <==>
      (xid in env.xacts.current && cid < env.snapshot.curcid) ||
      (xid !in env.xacts.current && xid !in env.snapshot.running && xid in env.xacts.committed)
    ensures XidIsVisible(env, xid, cid).1 <==>
      xid !in env.xacts.current && xid !in env.snapshot.running && xid !in env.xacts.committed
    ensures !(XidIsVisible(env, xid, cid).0 && XidIsVisible(env, xid, cid).1)
  {
  }

  // ---------------------------------------------------------------------
  // The out-parameters of the scan walks

  /** ZSNV_NONE and ZSNV_RECENTLY_DEAD. */
  datatype NvStatus = NvNone | NvRecentlyDead

  /** The fields of ZSUndoSlotVisibility the walks read or write. */
  datatype VisiInfo = VisiInfo(undoptr: nat, xmin: Xid, cmin: nat, xmax: Xid, nvStatus: NvStatus)

  /**
   * What a scan walk may write: visi_info, *next_tid, *obsoleting_xid,
   * scan->recent_oldest_undo, and the dirty snapshot's xmin, xmax and
   * speculativeToken.
   */
  datatype ScanOuts = ScanOuts(visi: VisiInfo, nextTid: nat, obsoleting: Xid, oldest: nat,
                               snapXmin: Xid, snapXmax: Xid, specToken: nat)

  /** The boolean a scan walk returns, with its out-parameters. */
  datatype Verdict = Verdict(visible: bool, outs: ScanOuts)

  /** visi_info after an UNDO record too old to matter: frozen xmin, invalid cmin. */
  function FrozenVisi(v: VisiInfo): VisiInfo { v.(xmin := FrozenTransactionId, cmin := InvalidCommandId) }

  /** visi_info after a record: its xid and cid. */
  function Stamp(v: VisiInfo, rec: UndoRec): VisiInfo { v.(xmin := rec.xid, cmin := rec.cid) }

  function Frozen(o: ScanOuts): ScanOuts { o.(visi := FrozenVisi(o.visi)) }

  function Stamped(o: ScanOuts, rec: UndoRec): ScanOuts { o.(visi := Stamp(o.visi, rec)) }

  /** *next_tid after a delete or update record: an update's new tid. */
  function WithNextTid(o: ScanOuts, rec: UndoRec): ScanOuts
  {
    if rec.kind.Update? then o.(nextTid := rec.kind.newTid) else o
  }

  predicate DeleteOrUpdate(rec: UndoRec) { rec.kind.Delete? || rec.kind.Update? }

  // ---------------------------------------------------------------------
  // zs_SatisfiesMVCC

  /**
   * zs_SatisfiesMVCC (lines 447-529) from counter `p`: an old record means
   * visible with a frozen xmin; a missing one refreshes the oldest counter
   * and is an error unless the record is now old; lock records are
   * skipped; an insert decides by xid_is_visible; a delete or update that
   * is visible hides the tuple, and one that is not continues down the
   * chain, noting its xid as obsoleting unless it aborted.
   */
  function MvccWalk(env: Env, p: nat, o: ScanOuts): Result<Verdict>
    requires ChainsDescend(env.log)
    decreases p, if p < o.oldest then 0 else 1
  {
    if p < o.oldest then Ok(Verdict(true, Frozen(o)))
    else if p !in env.log then
      if p >= env.refreshedOldest then Err(Abort(MissingRecord))
      else MvccWalk(env, p, o.(oldest := env.refreshedOldest))
    else
      var rec := env.log[p];
      if rec.kind.Insert? then
        var v := XidIsVisible(env, rec.xid, rec.cid);
        var o1 := if !v.0 && !v.1 then o.(obsoleting := rec.xid) else o;
        Ok(Verdict(v.0, Stamped(o1, rec)))
      else if rec.kind.TupleLock? then MvccWalk(env, rec.prev, o)
      else if DeleteOrUpdate(rec) then
        var o1 := WithNextTid(o, rec);
        var v := XidIsVisible(env, rec.xid, rec.cid);
        if v.0 then Ok(Verdict(false, o1))
        else MvccWalk(env, rec.prev, if v.1 then o1 else o1.(obsoleting := rec.xid))
      else Err(Abort(UnexpectedType))
  }

  /** zs_SatisfiesMVCC: the goto loop along the chain. */
  method SatisfiesMvcc(env: Env, o0: ScanOuts) returns (r: Result<Verdict>)
    requires ChainsDescend(env.log)
    ensures r == MvccWalk(env, o0.visi.undoptr, o0)
  {
    var p: nat := o0.visi.undoptr;
    var o := o0;
    while true
      invariant MvccWalk(env, p, o) == MvccWalk(env, o0.visi.undoptr, o0)
      decreases p, if p < o.oldest then 0 else 1
    {
      if p < o.oldest {
        return Ok(Verdict(true, Frozen(o)));
      }
      if p !in env.log {
        o := o.(oldest := env.refreshedOldest);
        if p >= o.oldest {
          return Err(Abort(MissingRecord));
        }
        continue;
      }
      var rec := env.log[p];
      if rec.kind.Insert? {
        var v := XidIsVisible(env, rec.xid, rec.cid);
        if !v.0 && !v.1 {
          o := o.(obsoleting := rec.xid);
        }
        return Ok(Verdict(v.0, Stamped(o, rec)));
      } else if rec.kind.TupleLock? {
        p := rec.prev;
      } else if DeleteOrUpdate(rec) {
        o := WithNextTid(o, rec);
        var v := XidIsVisible(env, rec.xid, rec.cid);
        if v.0 {
          return Ok(Verdict(false, o));
        }
        if !v.1 {
          o := o.(obsoleting := rec.xid);
        }
        p := rec.prev;
      } else {
        return Err(Abort(UnexpectedType));
      }
    }
  }

  // ---------------------------------------------------------------------
  // zs_SatisfiesSelf

  /**
   * zs_SatisfiesSelf (lines 534-622) from counter `p`: an insert is visible
   * when ours, or not in progress and committed; a delete or update hides
   * the tuple when ours or committed, leaves it visible while in progress,
   * and after an abort the walk goes on to the insert.
   */
  function SelfWalk(env: Env, p: nat, o: ScanOuts): Result<Verdict>
    requires ChainsDescend(env.log)
    decreases p, if p < o.oldest then 0 else 1
  {
    if p < o.oldest then Ok(Verdict(true, Frozen(o)))
    else if p !in env.log then
      if p >= env.refreshedOldest then Err(Abort(MissingRecord))
      else SelfWalk(env, p, o.(oldest := env.refreshedOldest))
    else
      var rec := env.log[p];
      var x := env.xacts;
      if rec.kind.Insert? then
        Ok(Verdict(rec.xid in x.current || (rec.xid !in x.inProgress && rec.xid in x.committed), Stamped(o, rec)))
      else if rec.kind.TupleLock? then SelfWalk(env, rec.prev, o)
      else if DeleteOrUpdate(rec) then
        var o1 := WithNextTid(o, rec);
        if rec.xid in x.current then Ok(Verdict(false, o1))
        else if rec.xid in x.inProgress then Ok(Verdict(true, o1))
        else if rec.xid !in x.committed then SelfWalk(env, rec.prev, o1)
        else Ok(Verdict(false, o1))
      else Err(Abort(UnexpectedType))
  }

  /** zs_SatisfiesSelf: the goto loop along the chain. */
  method SatisfiesSelf(env: Env, o0: ScanOuts) returns (r: Result<Verdict>)
    requires ChainsDescend(env.log)
    ensures r == SelfWalk(env, o0.visi.undoptr, o0)
  {
    var p: nat := o0.visi.undoptr;
    var o := o0;
    var x := env.xacts;
    while true
      invariant SelfWalk(env, p, o) == SelfWalk(env, o0.visi.undoptr, o0)
      decreases p, if p < o.oldest then 0 else 1
    {
      if p < o.oldest {
        return Ok(Verdict(true, Frozen(o)));
      }
      if p !in env.log {
        o := o.(oldest := env.refreshedOldest);
        if p >= o.oldest {
          return Err(Abort(MissingRecord));
        }
        continue;
      }
      var rec := env.log[p];
      if rec.kind.Insert? {
        o := Stamped(o, rec);
        if rec.xid in x.current {
          return Ok(Verdict(true, o));
        } else if rec.xid in x.inProgress {
          return Ok(Verdict(false, o));
        } else {
          return Ok(Verdict(rec.xid in x.committed, o));
        }
      } else if rec.kind.TupleLock? {
        p := rec.prev;
      } else if DeleteOrUpdate(rec) {
        o := WithNextTid(o, rec);
        if rec.xid in x.current {
          return Ok(Verdict(false, o));
        }
        if rec.xid in x.inProgress {
          return Ok(Verdict(true, o));
        }
        if rec.xid in x.committed {
          return Ok(Verdict(false, o));
        }
        p := rec.prev;
      } else {
        return Err(Abort(UnexpectedType));
      }
    }
  }

  // ---------------------------------------------------------------------
  // zs_SatisfiesAny

  /**
   * zs_SatisfiesAny (lines 367-413) from counter `p`: every delete, update
   * and lock record is passed over to the insert, which is visible.
   */
  function AnyWalk(env: Env, p: nat, o: ScanOuts): Result<Verdict>
    requires ChainsDescend(env.log)
    decreases p, if p < o.oldest then 0 else 1
  {
    if p < o.oldest then Ok(Verdict(true, Frozen(o)))
    else if p !in env.log then
      if p >= env.refreshedOldest then Err(Abort(MissingRecord))
      else AnyWalk(env, p, o.(oldest := env.refreshedOldest))
    else
      var rec := env.log[p];
      if rec.kind.Insert? then Ok(Verdict(true, Stamped(o, rec)))
      else if DeleteOrUpdate(rec) || rec.kind.TupleLock? then AnyWalk(env, rec.prev, o)
      else Err(Abort(UnexpectedType))
  }

  /** zs_SatisfiesAny: the goto loop along the chain. */
  method SatisfiesAny(env: Env, o0: ScanOuts) returns (r: Result<Verdict>)
    requires ChainsDescend(env.log)
    ensures r == AnyWalk(env, o0.visi.undoptr, o0)
  {
    var p: nat := o0.visi.undoptr;
    var o := o0;
    while true
      invariant AnyWalk(env, p, o) == AnyWalk(env, o0.visi.undoptr, o0)
      decreases p, if p < o.oldest then 0 else 1
    {
      if p < o.oldest {
        return Ok(Verdict(true, Frozen(o)));
      }
      if p !in env.log {
        o := o.(oldest := env.refreshedOldest);
        if p >= o.oldest {
          return Err(Abort(MissingRecord));
        }
        continue;
      }
      var rec := env.log[p];
      if rec.kind.Insert? {
        return Ok(Verdict(true, Stamped(o, rec)));
      } else if DeleteOrUpdate(rec) || rec.kind.TupleLock? {
        p := rec.prev;
      } else {
        return Err(Abort(UnexpectedType));
      }
    }
  }

  // ---------------------------------------------------------------------
  // zs_SatisfiesDirty

  /**
   * zs_SatisfiesDirty (lines 627-742) from counter `p`: like Self, but an
   * insert records its speculative token, and an in-progress insert or
   * delete is visible with its xid put into the snapshot's xmin or xmax.
   */
  function DirtyWalk(env: Env, p: nat, o: ScanOuts): Result<Verdict>
    requires ChainsDescend(env.log)
    decreases p, if p < o.oldest then 0 else 1
  {
    if p < o.oldest then Ok(Verdict(true, Frozen(o)))
    else if p !in env.log then
      if p >= env.refreshedOldest then Err(Abort(MissingRecord))
      else DirtyWalk(env, p, o.(oldest := env.refreshedOldest))
    else
      var rec := env.log[p];
      var x := env.xacts;
      if rec.kind.Insert? then
        var o1 := o.(specToken := rec.kind.speculativeToken);
        if rec.xid in x.current then Ok(Verdict(true, o1))
        else if rec.xid in x.inProgress then Ok(Verdict(true, Stamped(o1.(snapXmin := rec.xid), rec)))
        else Ok(Verdict(rec.xid in x.committed, o1))
      else if rec.kind.TupleLock? then DirtyWalk(env, rec.prev, o)
      else if DeleteOrUpdate(rec) then
        var o1 := WithNextTid(o, rec);
        if rec.xid in x.current then Ok(Verdict(false, o1))
        else if rec.xid in x.inProgress then
          Ok(Verdict(true, o1.(snapXmax := rec.xid, visi := o1.visi.(xmax := rec.xid))))
        else if rec.xid !in x.committed then DirtyWalk(env, rec.prev, o1)
        else Ok(Verdict(false, o1))
      else Err(Abort(UnexpectedType))
  }

  /** The dirty snapshot's fields as zs_SatisfiesDirty resets them before the walk. */
  function DirtyReset(o: ScanOuts): ScanOuts
  {
    o.(snapXmin := InvalidTransactionId, snapXmax := InvalidTransactionId, specToken := InvalidSpeculativeToken)
  }

  /** zs_SatisfiesDirty: the reset of the snapshot's fields, then the goto loop. */
  method SatisfiesDirty(env: Env, o0: ScanOuts) returns (r: Result<Verdict>)
    requires ChainsDescend(env.log)
    ensures r == DirtyWalk(env, o0.visi.undoptr, DirtyReset(o0))
  {
    var p: nat := o0.visi.undoptr;
    var o := DirtyReset(o0);
    var x := env.xacts;
    while true
      invariant DirtyWalk(env, p, o) == DirtyWalk(env, o0.visi.undoptr, DirtyReset(o0))
      decreases p, if p < o.oldest then 0 else 1
    {
      if p < o.oldest {
        return Ok(Verdict(true, Frozen(o)));
      }
      if p !in env.log {
        o := o.(oldest := env.refreshedOldest);
        if p >= o.oldest {
          return Err(Abort(MissingRecord));
        }
        continue;
      }
      var rec := env.log[p];
      if rec.kind.Insert? {
        o := o.(specToken := rec.kind.speculativeToken);
        if rec.xid in x.current {
          return Ok(Verdict(true, o));
        } else if rec.xid in x.inProgress {
          o := o.(snapXmin := rec.xid);
          return Ok(Verdict(true, Stamped(o, rec)));
        } else {
          return Ok(Verdict(rec.xid in x.committed, o));
        }
      } else if rec.kind.TupleLock? {
        p := rec.prev;
      } else if DeleteOrUpdate(rec) {
        o := WithNextTid(o, rec);
        if rec.xid in x.current {
          return Ok(Verdict(false, o));
        }
        if rec.xid in x.inProgress {
          o := o.(snapXmax := rec.xid, visi := o.visi.(xmax := rec.xid));
          return Ok(Verdict(true, o));
        }
        if rec.xid in x.committed {
          return Ok(Verdict(false, o));
        }
        p := rec.prev;
      } else {
        return Err(Abort(UnexpectedType));
      }
    }
  }

  // ---------------------------------------------------------------------
  // zs_SatisfiesNonVacuumable

  /**
   * The do-while loop of zs_SatisfiesNonVacuumable (lines 817-845) after
   * an aborted delete or update at counter `outer`, from its prevundorec
   * `q`: lock records are passed over; an old record or a missing one
   * means live; the insert is live when in progress or committed.  After a
   * refresh the code tests `outer`, the delete's own counter, where the
   * other walks test the counter they failed to fetch; `asWritten` selects
   * the test as written, otherwise the counter `q` is tested.
   */
  function InserterLive(env: Env, outer: nat, q: nat, o: ScanOuts, asWritten: bool): Result<Verdict>
    requires ChainsDescend(env.log)
    decreases q
  {
    if q < o.oldest then Ok(Verdict(true, o))
    else if q !in env.log then
      var o1 := o.(oldest := env.refreshedOldest);
      if (if asWritten then outer else q) >= o1.oldest then Err(Abort(MissingRecord))
      else Ok(Verdict(true, o1))
    else
      var rec := env.log[q];
      if rec.kind.TupleLock? then InserterLive(env, outer, rec.prev, o, asWritten)
      else if !rec.kind.Insert? then Err(Abort(InserterAssertion))
      else Ok(Verdict(rec.xid in env.xacts.inProgress || rec.xid in env.xacts.committed, o))
  }

  /**
   * zs_SatisfiesNonVacuumable (lines 748-856) from counter `p`: whether the
   * tuple may still be visible to someone.  A committed delete that some
   * snapshot may still not see is live and marked recently dead.
   */
  function NonVacuumableWalk(env: Env, p: nat, o: ScanOuts, asWritten: bool): Result<Verdict>
    requires ChainsDescend(env.log)
    decreases p, if p < o.oldest then 0 else 1
  {
    if p < o.oldest then Ok(Verdict(true, Frozen(o)))
    else if p !in env.log then
      if p >= env.refreshedOldest then Err(Abort(MissingRecord))
      else NonVacuumableWalk(env, p, o.(oldest := env.refreshedOldest), asWritten)
    else
      var rec := env.log[p];
      var x := env.xacts;
      if rec.kind.Insert? then
        Ok(Verdict(rec.xid in x.inProgress || rec.xid in x.committed, Stamped(o, rec)))
      else if DeleteOrUpdate(rec) then
        if rec.xid in x.inProgress then Ok(Verdict(true, o))
        else if rec.xid in x.committed then
          if rec.xid !in env.snapshot.removable then Ok(Verdict(true, o.(visi := o.visi.(nvStatus := NvRecentlyDead))))
          else Ok(Verdict(false, o))
        else InserterLive(env, p, rec.prev, o, asWritten)
      else if rec.kind.TupleLock? then NonVacuumableWalk(env, rec.prev, o, asWritten)
      else Err(Abort(UnexpectedType))
  }

  /**
   * zs_SatisfiesNonVacuumable with the refresh in its inner loop testing
   * the counter it failed to fetch: the outer goto loop and the inner
   * do-while loop.
   */
  method SatisfiesNonVacuumable(env: Env, o0: ScanOuts) returns (r: Result<Verdict>)
    requires ChainsDescend(env.log)
    ensures r == NonVacuumableWalk(env, o0.visi.undoptr, o0, false)
  {
    var p: nat := o0.visi.undoptr;
    var o := o0;
    var x := env.xacts;
    while true
      invariant NonVacuumableWalk(env, p, o, false) == NonVacuumableWalk(env, o0.visi.undoptr, o0, false)
      decreases p, if p < o.oldest then 0 else 1
    {
      if p < o.oldest {
        return Ok(Verdict(true, Frozen(o)));
      }
      if p !in env.log {
        o := o.(oldest := env.refreshedOldest);
        if p >= o.oldest {
          return Err(Abort(MissingRecord));
        }
        continue;
      }
      var rec := env.log[p];
      if rec.kind.Insert? {
        return Ok(Verdict(rec.xid in x.inProgress || rec.xid in x.committed, Stamped(o, rec)));
      } else if DeleteOrUpdate(rec) {
        if rec.xid in x.inProgress {
          return Ok(Verdict(true, o));
        } else if rec.xid in x.committed {
          if rec.xid !in env.snapshot.removable {
            return Ok(Verdict(true, o.(visi := o.visi.(nvStatus := NvRecentlyDead))));
          }
          return Ok(Verdict(false, o));
        }
        r := InserterLoop(env, p, rec.prev, o);
        return;
      } else if rec.kind.TupleLock? {
        p := rec.prev;
      } else {
        return Err(Abort(UnexpectedType));
      }
    }
  }

  /** The inner do-while loop of zs_SatisfiesNonVacuumable, testing the counter it failed to fetch. */
  method InserterLoop(env: Env, outer: nat, q0: nat, o: ScanOuts) returns (r: Result<Verdict>)
    requires ChainsDescend(env.log)
    ensures r == InserterLive(env, outer, q0, o, false)
  {
    var q: nat := q0;
    while true
      invariant InserterLive(env, outer, q, o, false) == InserterLive(env, outer, q0, o, false)
      decreases q
    {
      if q < o.oldest {
        return Ok(Verdict(true, o));
      }
      if q !in env.log {
        var o1 := o.(oldest := env.refreshedOldest);
        if q >= o1.oldest {
          return Err(Abort(MissingRecord));
        }
        return Ok(Verdict(true, o1));
      }
      var rec := env.log[q];
      if !rec.kind.TupleLock? {
        if !rec.kind.Insert? {
          return Err(Abort(InserterAssertion));
        }
        return Ok(Verdict(rec.xid in env.xacts.inProgress || rec.xid in env.xacts.committed, o));
      }
      q := rec.prev;
    }
  }

  // ---------------------------------------------------------------------
  // zs_SatisfiesVisibility

  /** *next_tid and *obsoleting_xid as zs_SatisfiesVisibility resets them before any walk. */
  function Reset(o: ScanOuts): ScanOuts
  {
    o.(nextTid := InvalidZSTid, obsoleting := InvalidTransactionId)
  }

  /** The walk the snapshot type selects (lines 892-916); TOAST and historic MVCC snapshots are refused. */
  function ByType(env: Env, o: ScanOuts): Result<Verdict>
    requires ChainsDescend(env.log)
  {
    var p := o.visi.undoptr;
    match env.snapshot.kind
    case SnapshotMvcc => MvccWalk(env, p, o)
    case SnapshotSelf => SelfWalk(env, p, o)
    case SnapshotAny => AnyWalk(env, p, o)
    case SnapshotToast => Err(Abort(ToastRefused))
    case SnapshotDirty => DirtyWalk(env, p, DirtyReset(o))
    case SnapshotHistoricMvcc => Err(Abort(HistoricRefused))
    case SnapshotNonVacuumable => NonVacuumableWalk(env, p, o, false)
  }

  /**
   * zs_SatisfiesVisibility (lines 864-919): next_tid and obsoleting_xid
   * reset to invalid first; an invalid UNDO pointer (counter 0) is visible
   * without a walk; otherwise the walk of the snapshot's type decides.
   */
  method SatisfiesVisibility(env: Env, o0: ScanOuts) returns (r: Result<Verdict>)
    requires ChainsDescend(env.log)
    ensures o0.oldest == 0 ==> r == Err(Abort(OldestAssertion))
    ensures o0.oldest != 0 && o0.visi.undoptr == 0 ==> r == Ok(Verdict(true, Reset(o0)))
    ensures o0.oldest != 0 && o0.visi.undoptr != 0 ==> r == ByType(env, Reset(o0))
    ensures r.Ok? ==> r.value.outs.visi.undoptr == o0.visi.undoptr
  {
    var o := Reset(o0);
    if o.oldest == 0 {
      return Err(Abort(OldestAssertion));
    }
    if o.visi.undoptr == 0 {
      return Ok(Verdict(true, o));
    }
    match env.snapshot.kind {
      case SnapshotMvcc =>
        r := SatisfiesMvcc(env, o);
      case SnapshotSelf =>
        r := SatisfiesSelf(env, o);
      case SnapshotAny =>
        r := SatisfiesAny(env, o);
      case SnapshotToast =>
        r := Err(Abort(ToastRefused));
      case SnapshotDirty =>
        r := SatisfiesDirty(env, o);
      case SnapshotHistoricMvcc =>
        r := Err(Abort(HistoricRefused));
      case SnapshotNonVacuumable =>
        r := SatisfiesNonVacuumable(env, o);
    }
    WalksKeepUndoPtr(env, o);
  }

  // ---------------------------------------------------------------------
  // Properties of the scan walks

  /**
   * In every walk, a record older than the oldest UNDO counter still kept
   * means visible, with xmin frozen and cmin invalid (lines 460-467, and alike in every walk).
   */
  lemma {:induction false} OldRecordIsVisible(env: Env, p: nat, o: ScanOuts)
    requires ChainsDescend(env.log) && p < o.oldest
    ensures MvccWalk(env, p, o) == Ok(Verdict(true, Frozen(o)))
    ensures SelfWalk(env, p, o) == Ok(Verdict(true, Frozen(o)))
    ensures AnyWalk(env, p, o) == Ok(Verdict(true, Frozen(o)))
    ensures DirtyWalk(env, p, o) == Ok(Verdict(true, Frozen(o)))
    ensures NonVacuumableWalk(env, p, o, false) == Ok(Verdict(true, Frozen(o)))
    ensures Frozen(o).visi.xmin == FrozenTransactionId && Frozen(o).visi.cmin == InvalidCommandId
  {
  }

  /**
   * A record missing from the log refreshes the oldest counter; when the
   * record is still not older than it that is an error, otherwise the
   * retry finds it old and the tuple visible (lines 469-478).
   */
  lemma {:induction false} MissingRecordRetries(env: Env, p: nat, o: ScanOuts)
    requires ChainsDescend(env.log) && p >= o.oldest && p !in env.log
    ensures var expected := if p >= env.refreshedOldest then Err(Abort(MissingRecord))
                            else Ok(Verdict(true, Frozen(o.(oldest := env.refreshedOldest))));
      MvccWalk(env, p, o) == expected && SelfWalk(env, p, o) == expected &&
      AnyWalk(env, p, o) == expected && DirtyWalk(env, p, o) == expected &&
      NonVacuumableWalk(env, p, o, false) == expected
  {
    if p < env.refreshedOldest {
      var o1 := o.(oldest := env.refreshedOldest);
      OldRecordIsVisible(env, p, o1);
    }
  }

  /** Under MVCC a tuple lock record changes nothing: the walk goes on from the record before it. */
  lemma {:induction false} MvccSkipsLocks(env: Env, p: nat, o: ScanOuts)
    requires ChainsDescend(env.log) && p >= o.oldest && p in env.log && env.log[p].kind.TupleLock?
    ensures MvccWalk(env, p, o) == MvccWalk(env, env.log[p].prev, o)
  {
  }

  /**
   * Under MVCC a delete or update that the snapshot sees hides the tuple;
   * one it does not see is followed down the chain, its xid noted as
   * obsoleting unless it aborted (lines 499-525).
   */
  lemma {:induction false} MvccDeleteOrUpdate(env: Env, p: nat, o: ScanOuts)
    requires ChainsDescend(env.log) && p >= o.oldest && p in env.log && DeleteOrUpdate(env.log[p])
    ensures var rec := env.log[p];
      var v := XidIsVisible(env, rec.xid, rec.cid);
      var o1 := WithNextTid(o, rec);
      (v.0 ==> MvccWalk(env, p, o) == Ok(Verdict(false, o1))) &&
      (!v.0 && v.1 ==> MvccWalk(env, p, o) == MvccWalk(env, rec.prev, o1)) &&
      (!v.0 && !v.1 ==> MvccWalk(env, p, o) == MvccWalk(env, rec.prev, o1.(obsoleting := rec.xid)))
  {
  }

  /**
   * The obsoleting xid an MVCC walk reports is the one it started with or
   * the xid of a record on the chain it walked.
   */
  lemma {:induction false} MvccObsoletingFromChain(env: Env, p: nat, o: ScanOuts)
    requires ChainsDescend(env.log)
    requires MvccWalk(env, p, o).Ok?
    ensures var x := MvccWalk(env, p, o).value.outs.obsoleting;
      x == o.obsoleting || exists q :: OnChain(env.log, p, q) && q in env.log && env.log[q].xid == x
    decreases p, if p < o.oldest then 0 else 1
  {
    if p < o.oldest {
    } else if p !in env.log {
      MvccObsoletingFromChain(env, p, o.(oldest := env.refreshedOldest));
    } else {
      var rec := env.log[p];
      if rec.kind.Insert? {
        assert OnChain(env.log, p, p);
      } else if rec.kind.TupleLock? {
        ChainStep(env.log, p);
        MvccObsoletingFromChain(env, rec.prev, o);
      } else {
        var o1 := WithNextTid(o, rec);
        var v := XidIsVisible(env, rec.xid, rec.cid);
        if !v.0 {
          var o2 := if v.1 then o1 else o1.(obsoleting := rec.xid);
          MvccObsoletingFromChain(env, rec.prev, o2);
          ChainStep(env.log, p);
          assert OnChain(env.log, p, p);
        }
      }
    }
  }

  /** Whatever is on the chain from a record's predecessor is on the chain from the record. */
  lemma {:induction false} ChainStep(log: UndoLog, p: nat)
    requires ChainsDescend(log) && p in log
    ensures forall q :: OnChain(log, log[p].prev, q) ==> OnChain(log, p, q)
  {
  }

  /** An MVCC walk only ever moves the oldest counter forward. */
  lemma {:induction false} MvccOldestGrows(env: Env, p: nat, o: ScanOuts)
    requires ChainsDescend(env.log) && MvccWalk(env, p, o).Ok?
    ensures MvccWalk(env, p, o).value.outs.oldest >= o.oldest
    decreases p, if p < o.oldest then 0 else 1
  {
    if p >= o.oldest {
      if p !in env.log {
        MvccOldestGrows(env, p, o.(oldest := env.refreshedOldest));
      } else {
        var rec := env.log[p];
        if rec.kind.TupleLock? {
          MvccOldestGrows(env, rec.prev, o);
        } else if DeleteOrUpdate(rec) {
          var o1 := WithNextTid(o, rec);
          var v := XidIsVisible(env, rec.xid, rec.cid);
          if !v.0 {
            MvccOldestGrows(env, rec.prev, if v.1 then o1 else o1.(obsoleting := rec.xid));
          }
        }
      }
    }
  }

  /** zs_SatisfiesAny never reports a tuple invisible: when it returns, it returns true. */
  lemma {:induction false} AnyIsAlwaysVisible(env: Env, p: nat, o: ScanOuts)
    requires ChainsDescend(env.log) && AnyWalk(env, p, o).Ok?
    ensures AnyWalk(env, p, o).value.visible
    decreases p, if p < o.oldest then 0 else 1
  {
    if p >= o.oldest {
      if p !in env.log {
        AnyIsAlwaysVisible(env, p, o.(oldest := env.refreshedOldest));
      } else if !env.log[p].kind.Insert? {
        AnyIsAlwaysVisible(env, env.log[p].prev, o);
      }
    }
  }

  /** No walk changes visi_info's UNDO pointer. */
  lemma {:induction false} WalksKeepUndoPtr(env: Env, o: ScanOuts)
    requires ChainsDescend(env.log)
    ensures ByType(env, o).Ok? ==> ByType(env, o).value.outs.visi.undoptr == o.visi.undoptr
  {
    var p := o.visi.undoptr;
    match env.snapshot.kind {
      case SnapshotMvcc => MvccKeepsUndoPtr(env, p, o);
      case SnapshotSelf => SelfKeepsUndoPtr(env, p, o);
      case SnapshotAny => AnyKeepsUndoPtr(env, p, o);
      case SnapshotToast =>
      case SnapshotDirty => DirtyKeepsUndoPtr(env, p, DirtyReset(o));
      case SnapshotHistoricMvcc =>
      case SnapshotNonVacuumable => NonVacuumableKeepsUndoPtr(env, p, o);
    }
  }

  lemma {:induction false} MvccKeepsUndoPtr(env: Env, p: nat, o: ScanOuts)
    requires ChainsDescend(env.log)
    ensures MvccWalk(env, p, o).Ok? ==> MvccWalk(env, p, o).value.outs.visi.undoptr == o.visi.undoptr
    decreases p, if p < o.oldest then 0 else 1
  {
    if p >= o.oldest {
      if p !in env.log {
        if p < env.refreshedOldest {
          MvccKeepsUndoPtr(env, p, o.(oldest := env.refreshedOldest));
        }
      } else {
        var rec := env.log[p];
        if rec.kind.TupleLock? {
          MvccKeepsUndoPtr(env, rec.prev, o);
        } else if DeleteOrUpdate(rec) {
          var o1 := WithNextTid(o, rec);
          var v := XidIsVisible(env, rec.xid, rec.cid);
          MvccKeepsUndoPtr(env, rec.prev, if v.1 then o1 else o1.(obsoleting := rec.xid));
        }
      }
    }
  }

  lemma {:induction false} SelfKeepsUndoPtr(env: Env, p: nat, o: ScanOuts)
    requires ChainsDescend(env.log)
    ensures SelfWalk(env, p, o).Ok? ==> SelfWalk(env, p, o).value.outs.visi.undoptr == o.visi.undoptr
    decreases p, if p < o.oldest then 0 else 1
  {
    if p >= o.oldest {
      if p !in env.log {
        if p < env.refreshedOldest {
          SelfKeepsUndoPtr(env, p, o.(oldest := env.refreshedOldest));
        }
      } else {
        var rec := env.log[p];
        if rec.kind.TupleLock? {
          SelfKeepsUndoPtr(env, rec.prev, o);
        } else if DeleteOrUpdate(rec) {
          SelfKeepsUndoPtr(env, rec.prev, WithNextTid(o, rec));
        }
      }
    }
  }

  lemma {:induction false} AnyKeepsUndoPtr(env: Env, p: nat, o: ScanOuts)
    requires ChainsDescend(env.log)
    ensures AnyWalk(env, p, o).Ok? ==> AnyWalk(env, p, o).value.outs.visi.undoptr == o.visi.undoptr
    decreases p, if p < o.oldest then 0 else 1
  {
    if p >= o.oldest {
      if p !in env.log {
        if p < env.refreshedOldest {
          AnyKeepsUndoPtr(env, p, o.(oldest := env.refreshedOldest));
        }
      } else if !env.log[p].kind.Insert? {
        AnyKeepsUndoPtr(env, env.log[p].prev, o);
      }
    }
  }

  lemma {:induction false} DirtyKeepsUndoPtr(env: Env, p: nat, o: ScanOuts)
    requires ChainsDescend(env.log)
    ensures DirtyWalk(env, p, o).Ok? ==> DirtyWalk(env, p, o).value.outs.visi.undoptr == o.visi.undoptr
    decreases p, if p < o.oldest then 0 else 1
  {
    if p >= o.oldest {
      if p !in env.log {
        if p < env.refreshedOldest {
          DirtyKeepsUndoPtr(env, p, o.(oldest := env.refreshedOldest));
        }
      } else {
        var rec := env.log[p];
        if rec.kind.TupleLock? {
          DirtyKeepsUndoPtr(env, rec.prev, o);
        } else if DeleteOrUpdate(rec) {
          DirtyKeepsUndoPtr(env, rec.prev, WithNextTid(o, rec));
        }
      }
    }
  }

  lemma {:induction false} InserterKeepsUndoPtr(env: Env, outer: nat, q: nat, o: ScanOuts, asWritten: bool)
    requires ChainsDescend(env.log)
    ensures InserterLive(env, outer, q, o, asWritten).Ok? ==>
      InserterLive(env, outer, q, o, asWritten).value.outs.visi.undoptr == o.visi.undoptr
    decreases q
  {
    if q >= o.oldest && q in env.log && env.log[q].kind.TupleLock? {
      InserterKeepsUndoPtr(env, outer, env.log[q].prev, o, asWritten);
    }
  }

  lemma {:induction false} NonVacuumableKeepsUndoPtr(env: Env, p: nat, o: ScanOuts)
    requires ChainsDescend(env.log)
    ensures NonVacuumableWalk(env, p, o, false).Ok? ==>
      NonVacuumableWalk(env, p, o, false).value.outs.visi.undoptr == o.visi.undoptr
    decreases p, if p < o.oldest then 0 else 1
  {
    if p >= o.oldest {
      if p !in env.log {
        if p < env.refreshedOldest {
          NonVacuumableKeepsUndoPtr(env, p, o.(oldest := env.refreshedOldest));
        }
      } else {
        var rec := env.log[p];
        if rec.kind.TupleLock? {
          NonVacuumableKeepsUndoPtr(env, rec.prev, o);
        } else if DeleteOrUpdate(rec) {
          InserterKeepsUndoPtr(env, p, rec.prev, o, false);
        }
      }
    }
  }

  /** TOAST and historic MVCC snapshots are errors (lines 903-911). */
  lemma {:induction false} UnsupportedSnapshots(env: Env, o: ScanOuts)
    requires ChainsDescend(env.log)
    requires env.snapshot.kind == SnapshotToast || env.snapshot.kind == SnapshotHistoricMvcc
    ensures ByType(env, o).Err?
  {
  }

  // ---------------------------------------------------------------------
  // The NonVacuumable refresh test

  /**
   * As written, a missing insert record below an aborted delete is an
   * error when the delete's own counter is not older than the refreshed
   * oldest counter, although the insert's counter is: the log below holds
   * an aborted delete at 10 pointing to 7, 7 was discarded, the scan's
   * oldest counter was 5 and is refreshed to 8.
   */
  lemma InserterRefreshAsWritten()
    ensures var env := Env(map[10 := UndoRec(Delete(false), 7, 0, 7)], Xacts({}, {}, {}),
                           Snapshot(SnapshotNonVacuumable, 0, {}, {}), 8);
      var o := ScanOuts(VisiInfo(10, 0, 0, 0, NvNone), 0, 0, 5, 0, 0, 0);
      ChainsDescend(env.log) &&
      NonVacuumableWalk(env, 10, o, true) == Err(Abort(MissingRecord)) &&
      NonVacuumableWalk(env, 10, o, false) == Ok(Verdict(true, o.(oldest := 8)))
  {
    var env := Env(map[10 := UndoRec(Delete(false), 7, 0, 7)], Xacts({}, {}, {}),
                   Snapshot(SnapshotNonVacuumable, 0, {}, {}), 8);
    var o := ScanOuts(VisiInfo(10, 0, 0, 0, NvNone), 0, 0, 5, 0, 0, 0);
    assert 7 !in env.log;
    assert NonVacuumableWalk(env, 10, o, true) == InserterLive(env, 10, 7, o, true);
    assert NonVacuumableWalk(env, 10, o, false) == InserterLive(env, 10, 7, o, false);
  }

  /**
   * With the refresh testing the counter it failed to fetch, a missing
   * insert record is an error exactly when that record should still be in
   * the log, that is when it is not older than the refreshed oldest
   * counter; otherwise the tuple is live.
   */
  lemma {:induction false} InserterRefresh(env: Env, outer: nat, q: nat, o: ScanOuts)
    requires ChainsDescend(env.log) && q >= o.oldest && q !in env.log
    ensures InserterLive(env, outer, q, o, false).Err? <==> q >= env.refreshedOldest
    ensures InserterLive(env, outer, q, o, false).Ok? ==>
      InserterLive(env, outer, q, o, false) == Ok(Verdict(true, o.(oldest := env.refreshedOldest)))
  {
  }

  // ---------------------------------------------------------------------
  // am_i_holding_lock

  /**
   * am_i_holding_lock (lines 43-88) from counter `p`: true at the first
   * record of the current transaction, whatever its type; an old record,
   * or a missing one that the refresh shows discarded, means false.
   */
  function HoldingLockWalk(env: Env, p: nat, oldest: nat): Result<bool>
    requires ChainsDescend(env.log)
    decreases p
  {
    if p < oldest then Ok(false)
    else if p !in env.log then
      if p >= env.refreshedOldest then Err(Abort(MissingRecord)) else Ok(false)
    else
      var rec := env.log[p];
      var known := rec.kind.Insert? || rec.kind.TupleLock? || DeleteOrUpdate(rec);
      if known && rec.xid in env.xacts.current then Ok(true)
      else HoldingLockWalk(env, rec.prev, oldest)
  }

  /** am_i_holding_lock: the for loop along the chain. */
  method AmIHoldingLock(env: Env, p0: nat, oldest: nat) returns (r: Result<bool>)
    requires ChainsDescend(env.log)
    ensures r == HoldingLockWalk(env, p0, oldest)
  {
    var p: nat := p0;
    while true
      invariant HoldingLockWalk(env, p, oldest) == HoldingLockWalk(env, p0, oldest)
      decreases p
    {
      if p < oldest {
        return Ok(false);
      }
      if p !in env.log {
        if p >= env.refreshedOldest {
          return Err(Abort(MissingRecord));
        }
        return Ok(false);
      }
      var rec := env.log[p];
      if rec.kind.Insert? || rec.kind.TupleLock? || DeleteOrUpdate(rec) {
        if rec.xid in env.xacts.current {
          return Ok(true);
        }
      }
      p := rec.prev;
    }
  }

  /** am_i_holding_lock answers true only for a record of the current transaction on the chain. */
  lemma {:induction false} HoldingLockMeaning(env: Env, p: nat, oldest: nat)
    requires ChainsDescend(env.log) && HoldingLockWalk(env, p, oldest) == Ok(true)
    ensures exists q :: OnChain(env.log, p, q) && q in env.log && env.log[q].xid in env.xacts.current
    decreases p
  {
    var rec := env.log[p];
    if rec.xid in env.xacts.current {
      assert OnChain(env.log, p, p);
    } else {
      HoldingLockMeaning(env, rec.prev, oldest);
      ChainStep(env.log, p);
    }
  }

  // ---------------------------------------------------------------------
  // zs_SatisfiesUpdate

  datatype TMResult = TMOk | TMInvisible | TMSelfModified | TMUpdated | TMDeleted | TMBeingModified

  /** tmfd->ctid: the item's tid, an update's new tid, or the moved-partitions marker. */
  datatype Ctid = TidOf(tid: nat) | MovedPartitions | CtidUnset

  /** TM_FailureData: ctid, xmax, cmax. */
  datatype FailureData = FailureData(ctid: Ctid, xmax: Xid, cmax: nat)

  /** The out-parameters of zs_SatisfiesUpdate. */
  datatype UpdateOuts = UpdateOuts(undoNeeded: bool, hasLock: bool, tmfd: FailureData, nextTid: nat, visi: VisiInfo)

  datatype UpdateVerdict = UpdateVerdict(result: TMResult, outs: UpdateOuts)

  /** What zs_SatisfiesUpdate is asked: the item's tid and the lock mode wanted. */
  datatype Request = Request(item: nat, mode: int)

  /** One record's effect on the walk: an answer, or the out-parameters to go on with. */
  datatype UpdateStep = Finish(r: Result<UpdateVerdict>) | Follow(outs: UpdateOuts)

  function Answer(tm: TMResult, o: UpdateOuts): UpdateStep { Finish(Ok(UpdateVerdict(tm, o))) }

  /**
   * The conflict exit (lines 212-225, 259-269, 331-339): tmfd names the item, xmax the
   * conflicting xid, and when we hold no lock yet am_i_holding_lock looks
   * for a weaker one of ours further down the chain.
   */
  function BeingModified(env: Env, rq: Request, rec: UndoRec, oldest: nat, o: UpdateOuts): UpdateStep
    requires ChainsDescend(env.log)
  {
    var o1 := o.(tmfd := FailureData(TidOf(rq.item), rec.xid, InvalidCommandId));
    if o1.hasLock then Answer(TMBeingModified, o1)
    else
      var held := HoldingLockWalk(env, rec.prev, oldest);
      if held.Err? then Finish(Err(held.fault)) else Answer(TMBeingModified, o1.(hasLock := held.value))
  }

  /** An insert record (lines 161-191): invisible unless ours from an earlier command, or committed. */
  function InsertStep(env: Env, rec: UndoRec, o: UpdateOuts): UpdateStep
  {
    var x := env.xacts;
    var o1 := o.(visi := Stamp(o.visi, rec));
    if rec.xid in x.current then
      var o2 := o1.(hasLock := true);
      if rec.cid >= env.snapshot.curcid then Answer(TMInvisible, o2) else Follow(o2)
    else if rec.xid in x.inProgress || rec.xid !in x.committed then Answer(TMInvisible, o1)
    else Follow(o1)
  }

  /**
   * A tuple lock record (lines 192-235): our own lock as strong as the
   * request is enough; another's incompatible lock while it runs is a
   * conflict; anything else goes on down the chain.
   */
  function LockStep(env: Env, rq: Request, rec: UndoRec, oldest: nat, o: UpdateOuts): UpdateStep
    requires ChainsDescend(env.log) && rec.kind.TupleLock?
  {
    var m := rec.kind.lockMode;
    if rec.xid in env.xacts.current then
      var o1 := o.(hasLock := true);
      if m >= rq.mode then Answer(TMOk, o1.(undoNeeded := true)) else Follow(o1)
    else
      var c := TupleLockCompatible(m, rq.mode);
      if c.Err? then Finish(Err(c.fault))
      else if !c.value && rec.xid in env.xacts.inProgress then BeingModified(env, rq, rec, oldest, o)
      else Follow(o)
  }

  /**
   * A delete record (lines 236-294): ours is self-modified or invisible by
   * command; a running deleter is a conflict; an aborted one is passed
   * over; a committed one gives Deleted, or Updated when the row moved
   * to another partition.
   */
  function DeleteStep(env: Env, rq: Request, rec: UndoRec, oldest: nat, o: UpdateOuts): UpdateStep
    requires ChainsDescend(env.log) && rec.kind.Delete?
  {
    var x := env.xacts;
    var o1 := o.(visi := Stamp(o.visi, rec));
    if rec.xid in x.current then
      var o2 := o1.(hasLock := true);
      if rec.cid >= env.snapshot.curcid then
        Answer(TMSelfModified, o2.(tmfd := FailureData(TidOf(rq.item), rec.xid, rec.cid)))
      else Answer(TMInvisible, o2)
    else if rec.xid in x.inProgress then BeingModified(env, rq, rec, oldest, o1)
    else if rec.xid !in x.committed then Follow(o1)
    else if rec.kind.changedPart then
      Answer(TMUpdated, o1.(tmfd := FailureData(MovedPartitions, rec.xid, InvalidCommandId), nextTid := InvalidZSTid))
    else Answer(TMDeleted, o1.(tmfd := FailureData(TidOf(rq.item), rec.xid, InvalidCommandId)))
  }

  /**
   * An update record (lines 295-358): the new tid is reported; the update
   * took an Exclusive or NoKeyExclusive lock, and a request compatible
   * with it succeeds unless the updater aborted; otherwise as for a delete,
   * with Updated pointing at the new tid.
   */
  function UpdatedStep(env: Env, rq: Request, rec: UndoRec, oldest: nat, o: UpdateOuts): UpdateStep
    requires ChainsDescend(env.log) && rec.kind.Update?
  {
    var x := env.xacts;
    var o1 := o.(visi := Stamp(o.visi, rec), nextTid := rec.kind.newTid);
    var c := TupleLockCompatible(if rec.kind.keyUpdate then LockTupleExclusive else LockTupleNoKeyExclusive, rq.mode);
    if rec.xid in x.current then
      var o2 := o1.(hasLock := true);
      if c.Err? then Finish(Err(c.fault))
      else if c.value then Answer(TMOk, o2)
      else if rec.cid >= env.snapshot.curcid then
        Answer(TMSelfModified, o2.(tmfd := FailureData(TidOf(rq.item), rec.xid, rec.cid)))
      else Answer(TMInvisible, o2)
    else if rec.xid in x.inProgress then
      if c.Err? then Finish(Err(c.fault))
      else if c.value then Answer(TMOk, o1)
      else BeingModified(env, rq, rec, oldest, o1)
    else if rec.xid !in x.committed then Follow(o1)
    else if c.Err? then Finish(Err(c.fault))
    else if c.value then Answer(TMOk, o1)
    else Answer(TMUpdated, o1.(tmfd := FailureData(TidOf(rec.kind.newTid), rec.xid, InvalidCommandId)))
  }

  function UpdateRecordStep(env: Env, rq: Request, rec: UndoRec, oldest: nat, o: UpdateOuts): UpdateStep
    requires ChainsDescend(env.log)
  {
    if rec.kind.Insert? then InsertStep(env, rec, o)
    else if rec.kind.TupleLock? then LockStep(env, rq, rec, oldest, o)
    else if rec.kind.Delete? then DeleteStep(env, rq, rec, oldest, o)
    else if rec.kind.Update? then UpdatedStep(env, rq, rec, oldest, o)
    else Finish(Err(Abort(UnexpectedType)))
  }

  /**
   * zs_SatisfiesUpdate (lines 109-361) from counter `p` at chain depth
   * `depth`: an old record means TM_Ok with a frozen xmin, and when it is
   * the record the item points to (depth 1) the old UNDO record is no
   * longer needed; a missing record refreshes the local oldest counter and
   * retries at the same depth.
   */
  function UpdateWalk(env: Env, rq: Request, p: nat, depth: nat, oldest: nat, o: UpdateOuts): Result<UpdateVerdict>
    requires ChainsDescend(env.log)
    decreases p, if p < oldest then 0 else 1
  {
    if p < oldest then
      Ok(UpdateVerdict(TMOk, o.(undoNeeded := if depth == 1 then false else o.undoNeeded, visi := FrozenVisi(o.visi))))
    else if p !in env.log then
      if p >= env.refreshedOldest then Err(Abort(MissingRecord))
      else UpdateWalk(env, rq, p, depth, env.refreshedOldest, o)
    else
      var rec := env.log[p];
      var s := UpdateRecordStep(env, rq, rec, oldest, o);
      if s.Finish? then s.r else UpdateWalk(env, rq, rec.prev, depth + 1, oldest, s.outs)
  }

  /** The out-parameters as zs_SatisfiesUpdate initialises them: no lock held, the UNDO record needed. */
  function UpdateStart(o: UpdateOuts): UpdateOuts
  {
    o.(hasLock := false, undoNeeded := true)
  }

  /** zs_SatisfiesUpdate: the goto loop along the chain, counting its depth. */
  method SatisfiesUpdate(env: Env, rq: Request, oldest0: nat, o0: UpdateOuts) returns (r: Result<UpdateVerdict>)
    requires ChainsDescend(env.log)
    ensures r == UpdateWalk(env, rq, o0.visi.undoptr, 1, oldest0, UpdateStart(o0))
  {
    var o := UpdateStart(o0);
    var p: nat := o.visi.undoptr;
    var oldest: nat := oldest0;
    var depth := 1;
    while true
      invariant UpdateWalk(env, rq, p, depth, oldest, o) == UpdateWalk(env, rq, o0.visi.undoptr, 1, oldest0, UpdateStart(o0))
      decreases p, if p < oldest then 0 else 1
    {
      if p < oldest {
        if depth == 1 {
          o := o.(undoNeeded := false);
        }
        return Ok(UpdateVerdict(TMOk, o.(visi := FrozenVisi(o.visi))));
      }
      if p !in env.log {
        oldest := env.refreshedOldest;
        if p >= oldest {
          return Err(Abort(MissingRecord));
        }
        continue;
      }
      var rec := env.log[p];
      var s := UpdateRecordStep(env, rq, rec, oldest, o);
      if s.Finish? {
        return s.r;
      }
      o := s.outs;
      p := rec.prev;
      depth := depth + 1;
    }
  }

  /**
   * An old record ends the walk with TM_Ok and a frozen xmin; the UNDO
   * record is then no longer needed exactly when it is the first one
   * (lines 130-149).
   */
  lemma {:induction false} UpdateOldRecord(env: Env, rq: Request, p: nat, depth: nat, oldest: nat, o: UpdateOuts)
    requires ChainsDescend(env.log) && p < oldest
    ensures var r := UpdateWalk(env, rq, p, depth, oldest, o);
      r.Ok? && r.value.result == TMOk && r.value.outs.visi.xmin == FrozenTransactionId &&
      r.value.outs.undoNeeded == (depth != 1 && o.undoNeeded)
  {
  }

  /** Our own lock at least as strong as the request gives TM_Ok with the record needed (lines 203-211). */
  lemma {:induction false} UpdateOwnStrongLock(env: Env, rq: Request, p: nat, depth: nat, oldest: nat, o: UpdateOuts)
    requires ChainsDescend(env.log) && p >= oldest && p in env.log
    requires env.log[p].kind.TupleLock? && env.log[p].xid in env.xacts.current && env.log[p].kind.lockMode >= rq.mode
    ensures var r := UpdateWalk(env, rq, p, depth, oldest, o);
      r == Ok(UpdateVerdict(TMOk, o.(hasLock := true, undoNeeded := true)))
  {
  }

  /**
   * Another transaction's running lock that conflicts with a known
   * request gives TM_BeingModified with tmfd naming the item and the
   * locker, unless am_i_holding_lock fails (lines 212-225).
   */
  lemma {:induction false} UpdateConflictingLocker(env: Env, rq: Request, p: nat, depth: nat, oldest: nat, o: UpdateOuts)
    requires ChainsDescend(env.log) && p >= oldest && p in env.log && IsLockMode(rq.mode)
    requires var rec := env.log[p];
      rec.kind.TupleLock? && IsLockMode(rec.kind.lockMode) && rec.kind.lockMode + rq.mode > 2 &&
      rec.xid !in env.xacts.current && rec.xid in env.xacts.inProgress
    ensures var r := UpdateWalk(env, rq, p, depth, oldest, o);
      r.Err? <==> !o.hasLock && HoldingLockWalk(env, env.log[p].prev, oldest).Err?
    ensures var r := UpdateWalk(env, rq, p, depth, oldest, o);
      r.Ok? ==> (r.value.result == TMBeingModified &&
                 r.value.outs.tmfd == FailureData(TidOf(rq.item), env.log[p].xid, InvalidCommandId))
  {
    TupleLockTable(env.log[p].kind.lockMode, rq.mode);
  }

  /** Every step keeps `hasLock` once set, and sets it only for a record of ours or after am_i_holding_lock found one. */
  predicate LockJustified(env: Env, p: nat, before: bool, after: bool)
    requires ChainsDescend(env.log)
  {
    after ==> before || exists q :: OnChain(env.log, p, q) && q in env.log && env.log[q].xid in env.xacts.current
  }

  /**
   * zs_SatisfiesUpdate reports that this transaction holds a lock on the
   * tuple only when a record of the current transaction lies on the chain
   * it walked.
   */
  lemma {:induction false} UpdateLockIsOurs(env: Env, rq: Request, p: nat, depth: nat, oldest: nat, o: UpdateOuts)
    requires ChainsDescend(env.log) && UpdateWalk(env, rq, p, depth, oldest, o).Ok?
    ensures LockJustified(env, p, o.hasLock, UpdateWalk(env, rq, p, depth, oldest, o).value.outs.hasLock)
    decreases p, if p < oldest then 0 else 1
  {
    if p >= oldest {
      if p !in env.log {
        UpdateLockIsOurs(env, rq, p, depth, env.refreshedOldest, o);
      } else {
        var rec := env.log[p];
        StepLockIsOurs(env, rq, p, oldest, o);
        var s := UpdateRecordStep(env, rq, rec, oldest, o);
        if s.Follow? {
          UpdateLockIsOurs(env, rq, rec.prev, depth + 1, oldest, s.outs);
          ChainStep(env.log, p);
          if s.outs.hasLock && !o.hasLock {
            assert OnChain(env.log, p, p);
          }
        }
      }
    }
  }

  /** One record step sets `hasLock` only for a record of ours, or when am_i_holding_lock found one. */
  lemma {:induction false} StepLockIsOurs(env: Env, rq: Request, p: nat, oldest: nat, o: UpdateOuts)
    requires ChainsDescend(env.log) && p in env.log
    ensures var s := UpdateRecordStep(env, rq, env.log[p], oldest, o);
      (s.Follow? ==> (s.outs.hasLock ==> o.hasLock || env.log[p].xid in env.xacts.current)) &&
      (s.Finish? && s.r.Ok? ==> LockJustified(env, p, o.hasLock, s.r.value.outs.hasLock))
  {
    var rec := env.log[p];
    var s := UpdateRecordStep(env, rq, rec, oldest, o);
    if s.Finish? && s.r.Ok? && s.r.value.outs.hasLock && !o.hasLock {
      if rec.xid in env.xacts.current {
        assert OnChain(env.log, p, p);
      } else {
        assert HoldingLockWalk(env, rec.prev, oldest) == Ok(true);
        HoldingLockMeaning(env, rec.prev, oldest);
        ChainStep(env.log, p);
      }
    }
  }
}
