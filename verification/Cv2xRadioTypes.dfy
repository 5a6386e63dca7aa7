/** The values that the CV2X radio status is made of, and the modem message that updates it. */
module Cv2xRadioTypes {

  newtype uint8 = x: int | 0 <= x < 256

  // A scoped enumeration holds any value of its integer type, and the casts from the modem's
  // codes keep the number, so a status is a number of which four have names.
  type StatusType = int
  const STATUS_INACTIVE: StatusType := 0
  const STATUS_ACTIVE: StatusType := 1
  const STATUS_SUSPENDED: StatusType := 2
  const STATUS_UNKNOWN: StatusType := 3

  datatype CauseType =
    | TIMING | CONFIG | UE_MODE | GEOPOLYGON | THERMAL | THERMAL_ECALL | GEOPOLYGON_SWITCH | SENSING | LPM | UNKNOWN

  // The conversion of the modem's cause codes: its body is not part of the model, so every
  // statement holds for each such function.
  type CauseConversion = int -> CauseType

  datatype Cv2xStatus = Cv2xStatus(
    rxStatus: StatusType,
    txStatus: StatusType,
    rxCause: CauseType,
    txCause: CauseType,
    cbrValue: uint8,
    cbrValueValid: bool)

  const DEFAULT_STATUS := Cv2xStatus(STATUS_UNKNOWN, STATUS_UNKNOWN, UNKNOWN, UNKNOWN, 255, false)

  datatype Cv2xPoolStatus = Cv2xPoolStatus(poolId: uint8, status: Cv2xStatus)

  /** The value of a Cv2xStatusEx object at one moment. */
  datatype StatusValue = StatusValue(
    status: Cv2xStatus,
    pools: seq<Cv2xPoolStatus>,
    timeUncertaintyValid: bool,
    timeUncertainty: real)

  /** The cached status, which messages update in place. */
  class Cv2xStatusEx {
    var status: Cv2xStatus
    var poolStatus: seq<Cv2xPoolStatus>
    var timeUncertaintyValid: bool
    var timeUncertainty: real

    constructor ()
      ensures Value() == StatusValue(Cv2xStatus(3, 3, UNKNOWN, UNKNOWN, 255, false), [], false, timeUncertainty)
    {
      status := DEFAULT_STATUS;
      poolStatus := [];
      timeUncertaintyValid := false;
    }

    function Value(): StatusValue
      reads this
    {
      StatusValue(status, poolStatus, timeUncertaintyValid, timeUncertainty)
    }
  }

  /** One row of a multi-pool report, with the modem's own codes. */
  datatype PoolReport = PoolReport(status: int, cause: int)

  /**
   * A status indication or response. Each part is meaningful only when its valid flag is set,
   * and a pool array holds rows beyond the announced length.
   */
  datatype NasV2xMsg = NasV2xMsg(
    rxStatusValid: bool, rxStatus: int,
    txStatusValid: bool, txStatus: int,
    rxMultiPoolStatusValid: bool, rxMultiPoolStatusLen: nat, rxMultiPoolStatus: seq<PoolReport>,
    txMultiPoolStatusValid: bool, txMultiPoolStatusLen: nat, txMultiPoolStatus: seq<PoolReport>)

  datatype Direction = Rx | Tx

  function StatusOf(s: Cv2xStatus, d: Direction): StatusType {
    if d.Rx? then s.rxStatus else s.txStatus
  }

  function CauseOf(s: Cv2xStatus, d: Direction): CauseType {
    if d.Rx? then s.rxCause else s.txCause
  }

  function Opposite(d: Direction): Direction {
    if d.Rx? then Tx else Rx
  }
}
