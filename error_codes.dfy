/**
 * The vocabulary the error converter works with: the raw 16-bit MMU error
 * word, the named `ErrorCode` cases it switches on, the TMC subsystem and
 * driver-fault bits, and the `ERR_*` error-table identifiers.
 *
 * The numeric values of all of these, and the contents of the `errorCodes[]`
 * table, are defined in `mmu2/error_codes.h` and `mmu2/errors_list.h`, which
 * are not part of this model. They are therefore a parameter, `Codes`, and
 * every property below holds for every choice of values that satisfies
 * `Valid`.
 */
module ErrorCodes {

  /** The raw MMU error word (`uint16_t ec`). */
  type Word = bv16

  newtype uint16 = x: int | 0 <= x < 0x1_0000
  newtype uint32 = x: int | 0 <= x < 0x1_0000_0000

  /** The named, one-hot-by-value `ErrorCode` cases that appear as `switch` labels. */
  datatype ErrorCode =
    | FindaDidntSwitchOn
    | FindaDidntSwitchOff
    | FsensorDidntSwitchOn
    | FsensorDidntSwitchOff
    | StalledPulley
    | MovePulleyFailed
    | HomingSelectorFailed
    | MoveSelectorFailed
    | HomingIdlerFailed
    | MmuNotResponding
    | ProtocolError
    | FilamentAlreadyLoaded
    | InvalidTool
    | QueueFull
    | VersionMismatch
    | Internal
    | FindaVsEepromDisrepancy

  /** The TMC subsystem bits `TMC_PULLEY_BIT`, `TMC_SELECTOR_BIT`, `TMC_IDLER_BIT`. */
  datatype Subsystem = Pulley | Selector | Idler

  /** The TMC driver-fault sub-bits. */
  datatype DriverFault =
    | IoinMismatch
    | Reset
    | UndervoltageOnChargePump
    | ShortToGround
    | OverTemperatureWarn
    | OverTemperatureError

  /** The `ERR_*` error-table identifiers the converter can select. */
  datatype ErrId =
    | MechanicalFindaDidntTrigger
    | MechanicalFindaDidntGoOff
    | MechanicalFsensorDidntTrigger
    | MechanicalFsensorDidntGoOff
    | MechanicalPulleyCannotMove
    | MechanicalSelectorCannotHome
    | MechanicalSelectorCannotMove
    | MechanicalIdlerCannotHome
    | MechanicalIdlerCannotMove
    | ConnectCommunicationError
    | SystemFilamentAlreadyLoaded
    | SystemInvalidTool
    | SystemQueueFull
    | SystemFwUpdateNeeded
    | SystemFwRuntimeError
    | SystemUnloadManually
    | ElectricalPulleyTmcDriverError
    | ElectricalPulleyTmcDriverReset
    | ElectricalPulleyTmcUndervoltageError
    | ElectricalPulleyTmcDriverShorted
    | TemperaturePulleyWarningTmcTooHot
    | TemperaturePulleyTmcOverheatError
    | ElectricalSelectorTmcDriverError
    | ElectricalSelectorTmcDriverReset
    | ElectricalSelectorTmcUndervoltageError
    | ElectricalSelectorTmcDriverShorted
    | TemperatureSelectorWarningTmcTooHot
    | TemperatureSelectorTmcOverheatError
    | ElectricalIdlerTmcDriverError
    | ElectricalIdlerTmcDriverReset
    | ElectricalIdlerTmcUndervoltageError
    | ElectricalIdlerTmcDriverShorted
    | TemperatureIdlerWarningTmcTooHot
    | TemperatureIdlerTmcOverheatError
      /** `ERR_OTHER`, named only by the disabled generic fallback. */
    | Other

  /** The numeric constants defined outside this model. */
  datatype Codes = Codes(
    caseValue: ErrorCode -> Word,         // value of each named `ErrorCode` case
    subsystemBit: Subsystem -> Word,  // `TMC_PULLEY_BIT`, `TMC_SELECTOR_BIT`, `TMC_IDLER_BIT`
    faultBit: DriverFault -> Word,    // `TMC_IOIN_MISMATCH` ... `TMC_OVER_TEMPERATURE_ERROR`
    errValue: ErrId -> uint32,        // value of each `ERR_*` constant, as passed to `FindErrorIndex`
    errorCodes: seq<uint16>)          // the `errorCodes[]` table

  /**
   * What the C++ compiler demands of those constants: the array has at least
   * one element, and the `switch` case labels are pairwise distinct.
   */
  ghost predicate Valid(c: Codes) {
    |c.errorCodes| > 0 &&
    forall a: ErrorCode, b: ErrorCode :: c.caseValue(a) == c.caseValue(b) ==> a == b
  }

  /** `ec & (uint16_t)ErrorCode::TMC_<subsystem>_BIT` is non-zero. */
  predicate SubsystemSet(c: Codes, ec: Word, s: Subsystem) {
    ec & c.subsystemBit(s) != 0
  }

  /** `ec & (uint16_t)ErrorCode::TMC_<fault>` is non-zero. */
  predicate FaultSet(c: Codes, ec: Word, f: DriverFault) {
    ec & c.faultBit(f) != 0
  }

  /** Position of a subsystem in the order the converter tests them: Pulley, Selector, Idler. */
  function SubsystemRank(s: Subsystem): nat {
    match s
    case Pulley => 0
    case Selector => 1
    case Idler => 2
  }

  /** Position of a driver fault in the order the converter tests them. */
  function FaultRank(f: DriverFault): nat {
    match f
    case IoinMismatch => 0
    case Reset => 1
    case UndervoltageOnChargePump => 2
    case ShortToGround => 3
    case OverTemperatureWarn => 4
    case OverTemperatureError => 5
  }
}
