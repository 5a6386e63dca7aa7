/**
 * The merge as the code performs it: in place on the cached status, with two loops under an
 * 8-bit counter and an accumulated change flag.
 */
module Cv2xRadioHelper {
  import opened Cv2xRadioTypes
  import opened Cv2xStatusMerge

  /**
   * Folds a message into the cached status. The status becomes its merge with the message, and
   * the returned flag is exact: true if and only if the status is not what it was.
   */
  method ConvertNasV2xStatusMsg(status: Cv2xStatusEx, msg: NasV2xMsg, conv: CauseConversion)
    returns (statusChanged: bool)
    requires WellFormed(msg)
    modifies status
    ensures status.Value() == Merge(old(status.Value()), msg, conv)
    ensures statusChanged <==> status.Value() != old(status.Value())
  {
    statusChanged := false;
    if msg.rxStatusValid {
      var rxStatus := msg.rxStatus;
      if rxStatus != status.status.rxStatus {
        statusChanged := true;
        status.status := status.status.(rxStatus := rxStatus);
      }
    }
    if msg.txStatusValid {
      var txStatus := msg.txStatus;
      if txStatus != status.status.txStatus {
        statusChanged := true;
        status.status := status.status.(txStatus := txStatus);
      }
    }
    ghost var pools0 := status.poolStatus;
    assert MergePools(pools0, Rx, [], conv) == pools0;
    if msg.rxMultiPoolStatusValid {
      var changed := MergeRxPools(status, msg, conv);
      statusChanged := statusChanged || changed;
    }
    ghost var pools1 := status.poolStatus;
    assert MergePools(pools1, Tx, [], conv) == pools1;
    if pools1 != pools0 {
      OtherDirectionNeverUndoes(pools0, Rx, Reported(msg, Rx), Reported(msg, Tx), conv);
    }
    if msg.txMultiPoolStatusValid {
      var changed := MergeTxPools(status, msg, conv);
      statusChanged := statusChanged || changed;
    }
  }

  /**
   * A caller that takes a copy of the status only when the returned flag is true. Its copy after
   * each message is what the whole history up to that message makes of the status.
   */
  method ForwardChanges(status: Cv2xStatusEx, msgs: seq<NasV2xMsg>, conv: CauseConversion)
    returns (copies: seq<StatusValue>)
    requires AllWellFormed(msgs)
    modifies status
    ensures |copies| == |msgs|
    ensures forall i | 0 <= i < |msgs| :: copies[i] == MergeAll(old(status.Value()), msgs[..i + 1], conv)
    ensures status.Value() == MergeAll(old(status.Value()), msgs, conv)
  {
    ghost var start := status.Value();
    var copy := status.Value();
    copies := [];
    for i := 0 to |msgs|
      invariant |copies| == i
      invariant status.Value() == copy == MergeAll(start, msgs[..i], conv)
      invariant forall j | 0 <= j < i :: copies[j] == MergeAll(start, msgs[..j + 1], conv)
    {
      assert msgs[..i + 1][..i] == msgs[..i];
      var statusChanged := ConvertNasV2xStatusMsg(status, msgs[i], conv);
      if statusChanged {
        copy := status.Value();
      }
      copies := copies + [copy];
    }
    assert msgs[..|msgs|] == msgs;
  }

  /** The loop over the receive rows. */
  method MergeRxPools(s: Cv2xStatusEx, msg: NasV2xMsg, conv: CauseConversion) returns (statusChanged: bool)
    requires msg.rxMultiPoolStatusValid && WellFormed(msg)
    modifies s`poolStatus
    ensures s.poolStatus == MergePools(old(s.poolStatus), Rx, Reported(msg, Rx), conv)
    ensures statusChanged <==> s.poolStatus != old(s.poolStatus)
  {
    statusChanged := false;
    ghost var rows := Reported(msg, Rx);
    assert |rows| <= 255;
    var i: uint8 := 0;
    while i as int < msg.rxMultiPoolStatusLen
      invariant i as int <= |rows|
      invariant s.poolStatus == MergePools(old(s.poolStatus), Rx, rows[..i], conv)
      invariant statusChanged <==> s.poolStatus != old(s.poolStatus)
    {
      MergedRowByRow(old(s.poolStatus), Rx, rows, i as nat, conv);
      if i as int >= |s.poolStatus| {
        statusChanged := true;
        var addStatus := Cv2xPoolStatus(i, DEFAULT_STATUS.(
          rxStatus := msg.rxMultiPoolStatus[i].status,
          rxCause := conv(msg.rxMultiPoolStatus[i].cause)));
        s.poolStatus := s.poolStatus + [addStatus];
      } else {
        var multiStatus := msg.rxMultiPoolStatus[i].status;
        if s.poolStatus[i].status.rxStatus != multiStatus {
          statusChanged := true;
          var pool := s.poolStatus[i];
          s.poolStatus := s.poolStatus[i := pool.(status := pool.status.(rxStatus := multiStatus))];
        }
        var multiCause := conv(msg.rxMultiPoolStatus[i].cause);
        if s.poolStatus[i].status.rxCause != multiCause {
          statusChanged := true;
          var pool := s.poolStatus[i];
          s.poolStatus := s.poolStatus[i := pool.(status := pool.status.(rxCause := multiCause))];
        }
      }
      i := i + 1;
    }
    assert rows[..i] == rows;
  }

  /** The loop over the transmit rows. */
  method MergeTxPools(s: Cv2xStatusEx, msg: NasV2xMsg, conv: CauseConversion) returns (statusChanged: bool)
    requires msg.txMultiPoolStatusValid && WellFormed(msg)
    modifies s`poolStatus
    ensures s.poolStatus == MergePools(old(s.poolStatus), Tx, Reported(msg, Tx), conv)
    ensures statusChanged <==> s.poolStatus != old(s.poolStatus)
  {
    statusChanged := false;
    ghost var rows := Reported(msg, Tx);
    assert |rows| <= 255;
    var i: uint8 := 0;
    while i as int < msg.txMultiPoolStatusLen
      invariant i as int <= |rows|
      invariant s.poolStatus == MergePools(old(s.poolStatus), Tx, rows[..i], conv)
      invariant statusChanged <==> s.poolStatus != old(s.poolStatus)
    {
      MergedRowByRow(old(s.poolStatus), Tx, rows, i as nat, conv);
      if i as int >= |s.poolStatus| {
        statusChanged := true;
        var addStatus := Cv2xPoolStatus(i, DEFAULT_STATUS.(
          txStatus := msg.txMultiPoolStatus[i].status,
          txCause := conv(msg.txMultiPoolStatus[i].cause)));
        s.poolStatus := s.poolStatus + [addStatus];
      } else {
        var multiStatus := msg.txMultiPoolStatus[i].status;
        if s.poolStatus[i].status.txStatus != multiStatus {
          statusChanged := true;
          var pool := s.poolStatus[i];
          s.poolStatus := s.poolStatus[i := pool.(status := pool.status.(txStatus := multiStatus))];
        }
        var multiCause := conv(msg.txMultiPoolStatus[i].cause);
        if s.poolStatus[i].status.txCause != multiCause {
          statusChanged := true;
          var pool := s.poolStatus[i];
          s.poolStatus := s.poolStatus[i := pool.(status := pool.status.(txCause := multiCause))];
        }
      }
      i := i + 1;
    }
    assert rows[..i] == rows;
  }

  /** What one pass of a pool loop does to the pool list. */
  function MergeRow(pools: seq<Cv2xPoolStatus>, d: Direction, i: uint8, e: PoolReport, conv: CauseConversion)
      : seq<Cv2xPoolStatus>
  {
    var p := PoolOrFresh(pools, i as nat);
    var updated := p.(status := WithReport(p.status, d, e, conv));
    if i as int < |pools| then pools[i := updated] else pools + [updated]
  }

  /** Merging one more row of a report is one pass of the loop, and it undoes no earlier change. */
  lemma MergedRowByRow(pools: seq<Cv2xPoolStatus>, d: Direction, rows: seq<PoolReport>, i: nat, conv: CauseConversion)
    requires i < |rows| && i < 256
    ensures MergePools(pools, d, rows[..i + 1], conv)
         == MergeRow(MergePools(pools, d, rows[..i], conv), d, i as uint8, rows[i], conv)
    ensures MergePools(pools, d, rows[..i], conv) != pools ==> MergePools(pools, d, rows[..i + 1], conv) != pools
  {
    var sofar := MergePools(pools, d, rows[..i], conv);
    var next := MergePools(pools, d, rows[..i + 1], conv);
    assert next == MergeRow(sofar, d, i as uint8, rows[i], conv);
    if sofar != pools && |sofar| == |pools| {
      var k :| 0 <= k < |pools| && sofar[k] != pools[k];
      assert k < i && next[k] == sofar[k];
    }
  }

  // ---- The 8-bit counter and lengths above 255 ----

  datatype LoopState = LoopState(i: uint8, pools: seq<Cv2xPoolStatus>)

  predicate Running(st: LoopState, len: nat) {
    st.i as int < len
  }

  /** The state after n passes of a pool loop whose counter wraps from 255 to 0. */
  function AfterPasses(pools: seq<Cv2xPoolStatus>, d: Direction, rows: seq<PoolReport>, len: nat,
                       conv: CauseConversion, n: nat): LoopState
    requires len <= |rows| || 256 <= |rows|
  {
    if n == 0 then LoopState(0, pools)
    else
      var st := AfterPasses(pools, d, rows, len, conv, n - 1);
      if !Running(st, len) then st
      else LoopState(if st.i == 255 then 0 else st.i + 1, MergeRow(st.pools, d, st.i, rows[st.i], conv))
  }

  lemma OnePass(
    pools: seq<Cv2xPoolStatus>, d: Direction, rows: seq<PoolReport>, len: nat, conv: CauseConversion, n: nat)
    requires (len <= |rows| || 256 <= |rows|) && n > 0
    ensures
      var st := AfterPasses(pools, d, rows, len, conv, n - 1);
      var passed := AfterPasses(pools, d, rows, len, conv, n);
      Running(st, len) ==>
        && passed.i == (if st.i == 255 then 0 else st.i + 1)
        && passed.pools == MergeRow(st.pools, d, st.i, rows[st.i], conv)
  {
  }

  /** While the counter has not wrapped, n passes have merged the first n rows. */
  lemma {:induction false} BeforeWrapping(
    pools: seq<Cv2xPoolStatus>, d: Direction, rows: seq<PoolReport>, len: nat, conv: CauseConversion, n: nat)
    requires len <= |rows| || 256 <= |rows|
    requires n <= len && n <= 256
    ensures AfterPasses(pools, d, rows, len, conv, n).pools == MergePools(pools, d, rows[..n], conv)
    ensures AfterPasses(pools, d, rows, len, conv, n).i as int == n % 256
  {
    if n == 0 {
      assert MergePools(pools, d, rows[..0], conv) == pools;
    } else {
      BeforeWrapping(pools, d, rows, len, conv, n - 1);
      var st := AfterPasses(pools, d, rows, len, conv, n - 1);
      assert st == LoopState((n - 1) as uint8, MergePools(pools, d, rows[..n - 1], conv));
      OnePass(pools, d, rows, len, conv, n);
      assert AfterPasses(pools, d, rows, len, conv, n).pools == MergePools(pools, d, rows[..n], conv) by {
        MergedRowByRow(pools, d, rows, n - 1, conv);
      }
    }
  }

  /** Once it has wrapped, every pass repeats a row that is already merged, so nothing changes any more. */
  lemma {:induction false} AfterWrapping(
    pools: seq<Cv2xPoolStatus>, d: Direction, rows: seq<PoolReport>, len: nat, conv: CauseConversion, n: nat)
    requires 256 <= |rows| && 256 <= len && 256 <= n
    ensures AfterPasses(pools, d, rows, len, conv, n).pools == MergePools(pools, d, rows[..256], conv)
    ensures Running(AfterPasses(pools, d, rows, len, conv, n), len)
  {
    if n == 256 {
      BeforeWrapping(pools, d, rows, len, conv, n);
    } else {
      AfterWrapping(pools, d, rows, len, conv, n - 1);
      var st := AfterPasses(pools, d, rows, len, conv, n - 1);
      assert MergeRow(st.pools, d, st.i, rows[st.i], conv) == st.pools;
    }
  }

  /**
   * A pool loop leaves exactly when the announced length is at most 255. Then it leaves after
   * that many passes with the merge of the announced rows; a longer length is never left.
   */
  lemma PoolLoopExitsIffLengthFits(
    pools: seq<Cv2xPoolStatus>, d: Direction, rows: seq<PoolReport>, len: nat, conv: CauseConversion)
    requires len <= |rows| || 256 <= |rows|
    ensures (exists n: nat :: !Running(AfterPasses(pools, d, rows, len, conv, n), len)) <==> len <= 255
    ensures len <= 255 ==>
      && AfterPasses(pools, d, rows, len, conv, len).pools == MergePools(pools, d, rows[..len], conv)
      && !Running(AfterPasses(pools, d, rows, len, conv, len), len)
      && forall n: nat | n < len :: Running(AfterPasses(pools, d, rows, len, conv, n), len)
  {
    if len <= 255 {
      forall n: nat | n <= len ensures AfterPasses(pools, d, rows, len, conv, n).i as int == n {
        BeforeWrapping(pools, d, rows, len, conv, n);
      }
      BeforeWrapping(pools, d, rows, len, conv, len);
      assert !Running(AfterPasses(pools, d, rows, len, conv, len), len);
    } else {
      forall n: nat ensures Running(AfterPasses(pools, d, rows, len, conv, n), len) {
        if n <= 256 {
          BeforeWrapping(pools, d, rows, len, conv, n);
        } else {
          AfterWrapping(pools, d, rows, len, conv, n);
        }
      }
    }
  }
}
