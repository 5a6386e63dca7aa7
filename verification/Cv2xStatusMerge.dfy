/**
 * What merging a modem message into a status means, stated pool by pool and without loops, and
 * what follows from it for single messages and for whole message histories.
 */
module Cv2xStatusMerge {
  import opened Cv2xRadioTypes
  import opened Options

  /** The rows that a message reports for a direction: none unless that part is valid. */
  function Reported(msg: NasV2xMsg, d: Direction): seq<PoolReport>
    requires ReadsInBounds(msg, d)
  {
    match d
    case Rx => if msg.rxMultiPoolStatusValid then msg.rxMultiPoolStatus[..msg.rxMultiPoolStatusLen] else []
    case Tx => if msg.txMultiPoolStatusValid then msg.txMultiPoolStatus[..msg.txMultiPoolStatusLen] else []
  }

  predicate ReadsInBounds(msg: NasV2xMsg, d: Direction) {
    match d
    case Rx => msg.rxMultiPoolStatusValid ==> msg.rxMultiPoolStatusLen <= |msg.rxMultiPoolStatus|
    case Tx => msg.txMultiPoolStatusValid ==> msg.txMultiPoolStatusLen <= |msg.txMultiPoolStatus|
  }

  /** What the code needs of a message: rows are read inside their array, and an 8-bit counter passes the length. */
  predicate WellFormed(msg: NasV2xMsg) {
    forall d: Direction :: ReadsInBounds(msg, d) && |Reported(msg, d)| <= 255
  }

  predicate AllWellFormed(msgs: seq<NasV2xMsg>) {
    forall k | 0 <= k < |msgs| :: WellFormed(msgs[k])
  }

  function OverallReport(msg: NasV2xMsg, d: Direction): Option<StatusType> {
    match d
    case Rx => if msg.rxStatusValid then Some(msg.rxStatus) else None
    case Tx => if msg.txStatusValid then Some(msg.txStatus) else None
  }

  function WithReport(s: Cv2xStatus, d: Direction, e: PoolReport, conv: CauseConversion): Cv2xStatus {
    match d
    case Rx => s.(rxStatus := e.status, rxCause := conv(e.cause))
    case Tx => s.(txStatus := e.status, txCause := conv(e.cause))
  }

  /** Pool i as it stands before a report: the stored one, or the fresh one the code would append. */
  function PoolOrFresh(pools: seq<Cv2xPoolStatus>, i: nat): Cv2xPoolStatus
    requires i < |pools| || i < 256
  {
    if i < |pools| then pools[i] else Cv2xPoolStatus(i as uint8, DEFAULT_STATUS)
  }

  /** The pool list after the rows es were merged for direction d. */
  function MergePools(pools: seq<Cv2xPoolStatus>, d: Direction, es: seq<PoolReport>, conv: CauseConversion)
      : (r: seq<Cv2xPoolStatus>)
    requires |es| <= 256
  {
    seq(if |pools| < |es| then |es| else |pools|,
        i requires 0 <= i < |pools| || 0 <= i < |es| =>
          var p := PoolOrFresh(pools, i);
          if i < |es| then p.(status := WithReport(p.status, d, es[i], conv)) else p)
  }

  function MergeOverall(s: Cv2xStatus, msg: NasV2xMsg): Cv2xStatus {
    s.(rxStatus := if msg.rxStatusValid then msg.rxStatus else s.rxStatus,
       txStatus := if msg.txStatusValid then msg.txStatus else s.txStatus)
  }

  function Merge(s: StatusValue, msg: NasV2xMsg, conv: CauseConversion): StatusValue
    requires WellFormed(msg)
  {
    s.(status := MergeOverall(s.status, msg),
       pools := MergePools(MergePools(s.pools, Rx, Reported(msg, Rx), conv), Tx, Reported(msg, Tx), conv))
  }

  function MergeAll(s: StatusValue, msgs: seq<NasV2xMsg>, conv: CauseConversion): StatusValue
    requires AllWellFormed(msgs)
  {
    if msgs == [] then s
    else Merge(MergeAll(s, msgs[..|msgs| - 1], conv), msgs[|msgs| - 1], conv)
  }

  // ---- One message ----

  /** The messages that the code can merge are those whose valid reports fit their array and the 8-bit counter. */
  lemma WellFormedFieldByField(msg: NasV2xMsg)
    ensures WellFormed(msg) <==>
      && (msg.rxMultiPoolStatusValid ==> msg.rxMultiPoolStatusLen <= |msg.rxMultiPoolStatus|)
      && (msg.rxMultiPoolStatusValid ==> msg.rxMultiPoolStatusLen <= 255)
      && (msg.txMultiPoolStatusValid ==> msg.txMultiPoolStatusLen <= |msg.txMultiPoolStatus|)
      && (msg.txMultiPoolStatusValid ==> msg.txMultiPoolStatusLen <= 255)
  {
    assert WellFormed(msg) ==> ReadsInBounds(msg, Rx) && ReadsInBounds(msg, Tx);
    assert WellFormed(msg) ==> |Reported(msg, Rx)| <= 255 && |Reported(msg, Tx)| <= 255;
  }

  /**
   * Everything but the pools, field by field: a valid overall status replaces the stored one and
   * nothing else changes.
   */
  lemma OverallFieldByField(s: StatusValue, msg: NasV2xMsg, conv: CauseConversion)
    requires WellFormed(msg)
    ensures
      var after := Merge(s, msg, conv);
      && after.status.rxStatus == (if msg.rxStatusValid then msg.rxStatus else s.status.rxStatus)
      && after.status.txStatus == (if msg.txStatusValid then msg.txStatus else s.status.txStatus)
      && after.status.rxCause == s.status.rxCause && after.status.txCause == s.status.txCause
      && after.status.cbrValue == s.status.cbrValue && after.status.cbrValueValid == s.status.cbrValueValid
      && after.timeUncertaintyValid == s.timeUncertaintyValid && after.timeUncertainty == s.timeUncertainty
  {
  }

  /**
   * The pools, field by field. There are as many as the longest of the old list and the valid
   * reports has rows. Every announced row gives its pool the status and the converted cause of its
   * direction; a pool without a row keeps them, or has them unknown if the other direction
   * created it. All other fields stay, or have the value of a fresh pool.
   */
  lemma PoolsFieldByField(s: StatusValue, msg: NasV2xMsg, conv: CauseConversion)
    requires WellFormed(msg)
    ensures
      var pools := Merge(s, msg, conv).pools;
      var rxRows := if msg.rxMultiPoolStatusValid then msg.rxMultiPoolStatusLen else 0;
      var txRows := if msg.txMultiPoolStatusValid then msg.txMultiPoolStatusLen else 0;
      && |pools| >= |s.pools| && |pools| >= rxRows && |pools| >= txRows
      && (|pools| == |s.pools| || |pools| == rxRows || |pools| == txRows)
      && (forall i | 0 <= i < rxRows ::
           && pools[i].status.rxStatus == msg.rxMultiPoolStatus[i].status
           && pools[i].status.rxCause == conv(msg.rxMultiPoolStatus[i].cause))
      && (forall i | 0 <= i < txRows ::
           && pools[i].status.txStatus == msg.txMultiPoolStatus[i].status
           && pools[i].status.txCause == conv(msg.txMultiPoolStatus[i].cause))
      && (forall i | rxRows <= i < |s.pools| ::
           && pools[i].status.rxStatus == s.pools[i].status.rxStatus
           && pools[i].status.rxCause == s.pools[i].status.rxCause)
      && (forall i | txRows <= i < |s.pools| ::
           && pools[i].status.txStatus == s.pools[i].status.txStatus
           && pools[i].status.txCause == s.pools[i].status.txCause)
      && (forall i | 0 <= i < |s.pools| ::
           && pools[i].poolId == s.pools[i].poolId
           && pools[i].status.cbrValue == s.pools[i].status.cbrValue
           && pools[i].status.cbrValueValid == s.pools[i].status.cbrValueValid)
      && (forall i | |s.pools| <= i < |pools| ::
           && pools[i].poolId as int == i
           && (i >= rxRows ==> pools[i].status.rxStatus == 3 && pools[i].status.rxCause == UNKNOWN)
           && (i >= txRows ==> pools[i].status.txStatus == 3 && pools[i].status.txCause == UNKNOWN)
           && pools[i].status.cbrValue == 255 && !pools[i].status.cbrValueValid)
  {
    WellFormedFieldByField(msg);
    var one := MergePools(s.pools, Rx, Reported(msg, Rx), conv);
    assert Merge(s, msg, conv).pools == MergePools(one, Tx, Reported(msg, Tx), conv);
  }

  /** A pool that one direction changed can not be restored by the other direction. */
  lemma OtherDirectionNeverUndoes(
    pools: seq<Cv2xPoolStatus>, d: Direction, es: seq<PoolReport>, fs: seq<PoolReport>, conv: CauseConversion)
    requires |es| <= 256 && |fs| <= 256
    requires MergePools(pools, d, es, conv) != pools
    ensures MergePools(MergePools(pools, d, es, conv), Opposite(d), fs, conv) != pools
  {
    var one := MergePools(pools, d, es, conv);
    var two := MergePools(one, Opposite(d), fs, conv);
    if |one| == |pools| {
      var i :| 0 <= i < |pools| && one[i] != pools[i];
      assert StatusOf(one[i].status, d) != StatusOf(pools[i].status, d)
          || CauseOf(one[i].status, d) != CauseOf(pools[i].status, d);
      assert two[i] != pools[i];
    }
  }

  /** Each direction leaves the other direction's fields, and all other fields, of existing pools alone. */
  lemma DirectionsAreIsolated(
    pools: seq<Cv2xPoolStatus>, d: Direction, es: seq<PoolReport>, conv: CauseConversion, i: nat)
    requires |es| <= 256 && i < |pools|
    ensures
      var after := MergePools(pools, d, es, conv)[i];
      && after.poolId == pools[i].poolId
      && StatusOf(after.status, Opposite(d)) == StatusOf(pools[i].status, Opposite(d))
      && CauseOf(after.status, Opposite(d)) == CauseOf(pools[i].status, Opposite(d))
      && after.status.cbrValue == pools[i].status.cbrValue
      && after.status.cbrValueValid == pools[i].status.cbrValueValid
      && (i >= |es| ==> after == pools[i])
      && (i < |es| ==> StatusOf(after.status, d) == es[i].status && CauseOf(after.status, d) == conv(es[i].cause))
  {
  }

  /** The receive and the transmit loop commute, and so does the change flag they accumulate. */
  lemma PoolLoopsCommute(
    pools: seq<Cv2xPoolStatus>, rx: seq<PoolReport>, tx: seq<PoolReport>, conv: CauseConversion)
    requires |rx| <= 256 && |tx| <= 256
    ensures
      var afterRx := MergePools(pools, Rx, rx, conv);
      var afterTx := MergePools(pools, Tx, tx, conv);
      var rxTx := MergePools(afterRx, Tx, tx, conv);
      var txRx := MergePools(afterTx, Rx, rx, conv);
      && rxTx == txRx
      && ((afterRx != pools || rxTx != afterRx) <==> (afterTx != pools || txRx != afterTx))
      && ((afterRx != pools || rxTx != afterRx) <==> rxTx != pools)
  {
    var afterRx := MergePools(pools, Rx, rx, conv);
    var afterTx := MergePools(pools, Tx, tx, conv);
    assert MergePools(afterRx, Tx, tx, conv) == MergePools(afterTx, Rx, rx, conv);
    if afterRx != pools { OtherDirectionNeverUndoes(pools, Rx, rx, tx, conv); }
    if afterTx != pools { OtherDirectionNeverUndoes(pools, Tx, tx, rx, conv); }
  }

  /** Merging the same message again changes nothing, even for pools that the first pass created. */
  lemma MergeIsIdempotent(s: StatusValue, msg: NasV2xMsg, conv: CauseConversion)
    requires WellFormed(msg)
    ensures Merge(Merge(s, msg, conv), msg, conv) == Merge(s, msg, conv)
  {
    var rx, tx := Reported(msg, Rx), Reported(msg, Tx);
    var once := Merge(s, msg, conv).pools;
    assert MergePools(once, Rx, rx, conv) == once;
    assert MergePools(once, Tx, tx, conv) == once;
  }

  // ---- Histories of messages ----

  predicate Reaches(msg: NasV2xMsg, d: Direction, p: nat)
    requires WellFormed(msg)
  {
    p < |Reported(msg, d)|
  }

  /** The row of the last message that was valid for d and long enough to reach pool p. */
  function LastReport(msgs: seq<NasV2xMsg>, d: Direction, p: nat): Option<PoolReport>
    requires AllWellFormed(msgs)
  {
    if msgs == [] then None
    else
      var n := |msgs| - 1;
      if Reaches(msgs[n], d, p) then Some(Reported(msgs[n], d)[p]) else LastReport(msgs[..n], d, p)
  }

  /** The last report is the one that no later message supersedes; there is none when no message reaches the pool. */
  lemma {:induction false} LastReportIsLast(msgs: seq<NasV2xMsg>, d: Direction, p: nat)
    requires AllWellFormed(msgs)
    ensures LastReport(msgs, d, p).None? <==> forall k | 0 <= k < |msgs| :: !Reaches(msgs[k], d, p)
    ensures forall k | 0 <= k < |msgs| ::
      Reaches(msgs[k], d, p) && (forall j | k < j < |msgs| :: !Reaches(msgs[j], d, p))
      ==> LastReport(msgs, d, p) == Some(Reported(msgs[k], d)[p])
  {
    if msgs != [] {
      var n := |msgs| - 1;
      LastReportIsLast(msgs[..n], d, p);
      forall k | 0 <= k < n ensures msgs[..n][k] == msgs[k] {}
    }
  }

  /** The overall status in the last message that was valid for d. */
  function LastOverall(msgs: seq<NasV2xMsg>, d: Direction): Option<StatusType> {
    if msgs == [] then None
    else
      var n := |msgs| - 1;
      if OverallReport(msgs[n], d).Some? then OverallReport(msgs[n], d) else LastOverall(msgs[..n], d)
  }

  lemma {:induction false} LastOverallIsLast(msgs: seq<NasV2xMsg>, d: Direction)
    ensures LastOverall(msgs, d).None? <==> forall k | 0 <= k < |msgs| :: OverallReport(msgs[k], d).None?
    ensures forall k | 0 <= k < |msgs| ::
      OverallReport(msgs[k], d).Some? && (forall j | k < j < |msgs| :: OverallReport(msgs[j], d).None?)
      ==> LastOverall(msgs, d) == OverallReport(msgs[k], d)
  {
    if msgs != [] {
      var n := |msgs| - 1;
      LastOverallIsLast(msgs[..n], d);
      forall k | 0 <= k < n ensures msgs[..n][k] == msgs[k] {}
    }
  }

  ghost predicate EverReached(msgs: seq<NasV2xMsg>, p: nat)
    requires AllWellFormed(msgs)
  {
    LastReport(msgs, Rx, p).Some? || LastReport(msgs, Tx, p).Some?
  }

  /** A pool exists after a history exactly when it existed before or some message reached it. */
  lemma {:induction false} PoolExistsIffReached(s: StatusValue, msgs: seq<NasV2xMsg>, conv: CauseConversion, p: nat)
    requires AllWellFormed(msgs)
    ensures p < |MergeAll(s, msgs, conv).pools| <==> p < |s.pools| || EverReached(msgs, p)
  {
    if msgs != [] {
      var n := |msgs| - 1;
      PoolExistsIffReached(s, msgs[..n], conv, p);
      assert p < |MergeAll(s, msgs, conv).pools|
        <==> p < |MergeAll(s, msgs[..n], conv).pools| || Reaches(msgs[n], Rx, p) || Reaches(msgs[n], Tx, p);
    }
  }

  /** What direction d of pool p is after one message. */
  lemma MergedPool(s: StatusValue, msg: NasV2xMsg, conv: CauseConversion, d: Direction, p: nat)
    requires WellFormed(msg) && p < |Merge(s, msg, conv).pools|
    ensures
      var pool := Merge(s, msg, conv).pools[p].status;
      if Reaches(msg, d, p) then
        StatusOf(pool, d) == Reported(msg, d)[p].status && CauseOf(pool, d) == conv(Reported(msg, d)[p].cause)
      else if p < |s.pools| then
        StatusOf(pool, d) == StatusOf(s.pools[p].status, d) && CauseOf(pool, d) == CauseOf(s.pools[p].status, d)
      else
        StatusOf(pool, d) == STATUS_UNKNOWN && CauseOf(pool, d) == UNKNOWN
  {
  }

  /**
   * Last writer wins, for every pool, direction and history: the value of the last message that
   * reached the pool, else the value it started with, else the default of a fresh pool.
   */
  lemma {:induction false} LastWriterWins(
    s: StatusValue, msgs: seq<NasV2xMsg>, conv: CauseConversion, d: Direction, p: nat)
    requires AllWellFormed(msgs)
    requires p < |MergeAll(s, msgs, conv).pools|
    ensures
      var pool := MergeAll(s, msgs, conv).pools[p].status;
      match LastReport(msgs, d, p)
      case Some(e) => StatusOf(pool, d) == e.status && CauseOf(pool, d) == conv(e.cause)
      case None =>
        if p < |s.pools| then
          StatusOf(pool, d) == StatusOf(s.pools[p].status, d) && CauseOf(pool, d) == CauseOf(s.pools[p].status, d)
        else
          StatusOf(pool, d) == STATUS_UNKNOWN && CauseOf(pool, d) == UNKNOWN
  {
    if msgs == [] {
    } else {
      var n := |msgs| - 1;
      MergedPool(MergeAll(s, msgs[..n], conv), msgs[n], conv, d, p);
      PoolExistsIffReached(s, msgs[..n], conv, p);
      if p < |MergeAll(s, msgs[..n], conv).pools| {
        LastWriterWins(s, msgs[..n], conv, d, p);
      }
    }
  }

  /** The overall status follows the last valid message of each direction; its causes never change. */
  lemma {:induction false} OverallLastWriterWins(
    s: StatusValue, msgs: seq<NasV2xMsg>, conv: CauseConversion, d: Direction)
    requires AllWellFormed(msgs)
    ensures
      var after := MergeAll(s, msgs, conv);
      && StatusOf(after.status, d) ==
         (match LastOverall(msgs, d) case Some(v) => v case None => StatusOf(s.status, d))
      && CauseOf(after.status, d) == CauseOf(s.status, d)
      && after.status.cbrValue == s.status.cbrValue
      && after.status.cbrValueValid == s.status.cbrValueValid
      && after.timeUncertaintyValid == s.timeUncertaintyValid
      && after.timeUncertainty == s.timeUncertainty
  {
    if msgs != [] {
      OverallLastWriterWins(s, msgs[..|msgs| - 1], conv, d);
    }
  }

  ghost predicate IndexedById(pools: seq<Cv2xPoolStatus>) {
    forall i | 0 <= i < |pools| :: pools[i].poolId as int == i
  }

  /** From an indexed list (the empty one in particular) every history keeps poolId[i] = i and at most 255 pools. */
  lemma {:induction false} HistoryKeepsIndexing(s: StatusValue, msgs: seq<NasV2xMsg>, conv: CauseConversion)
    requires AllWellFormed(msgs)
    requires IndexedById(s.pools)
    ensures IndexedById(MergeAll(s, msgs, conv).pools)
    ensures |s.pools| <= 255 ==> |MergeAll(s, msgs, conv).pools| <= 255
  {
    if msgs != [] {
      HistoryKeepsIndexing(s, msgs[..|msgs| - 1], conv);
    }
  }
}
