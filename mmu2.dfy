/**
 * The `MMU2` state record: the connectivity state, the slot fields, the
 * saved-print flags and the last reported codes, with the `const` queries
 * the header defines inline.
 *
 * The operations that update these fields (`Start`, `Stop`, `tool_change`,
 * `manage_response`, ...) are implemented in `mmu2.cpp`, which is not part
 * of this model, and so is the protocol logic layer; `ProtocolLogic` below
 * only carries the values the queries read from it.
 */
module Mmu2 {
  import opened Wrappers
  import opened ErrorCodes

  newtype uint8 = x: int | 0 <= x < 0x100
  newtype int16 = x: int | -0x8000 <= x < 0x8000

  /** Sentinel slot value for "no filament / no tool". */
  const FilamentUnknown: uint8 := 0xff

  /** Number of filament slots: the queries promise a slot index 0-4. */
  const SlotCount := 5

  /** A value a slot query may return: a slot index or `FILAMENT_UNKNOWN`. */
  predicate IsSlotOrUnknown(v: int) {
    0 <= v < SlotCount || v == FilamentUnknown as int
  }

  /** Connectivity state of the MMU. */
  datatype XState =
    | Active      // detected, communicating, ready to work
    | Connecting  // wanted by the user but not communicating yet
    | Stopped     // not wanted, not powered

  /** Levels of resetting the MMU, with their `uint8_t` values. */
  datatype ResetForm = Software | ResetPin | CutThePower

  /** The `uint8_t` value of a reset form: 0, 1 or 2. */
  function ResetFormValue(r: ResetForm): (b: uint8)
    ensures b <= 2
  {
    match r
    case Software => 0
    case ResetPin => 1
    case CutThePower => 2
  }

  /** The reset form a byte encodes; `None` for bytes that are not one of the three values. */
  function ResetFormOf(b: uint8): (r: Option<ResetForm>)
    ensures r.Some? ==> ResetFormValue(r.value) == b
    ensures r.None? <==> b > 2
  {
    if b == 0 then Some(Software)
    else if b == 1 then Some(ResetPin)
    else if b == 2 then Some(CutThePower)
    else None
  }

  /** Decoding the value of a reset form gives that form back. */
  lemma ResetFormRoundTrip(r: ResetForm)
    ensures ResetFormOf(ResetFormValue(r)) == Some(r)
  {
  }

  /** Source of an operation error; `ReportError` receives it as a byte. */
  datatype ReportErrorSource = ErrorSourcePrinter | ErrorSourceMMU

  /** The byte value of an error source: 0 or 1. */
  function ReportErrorSourceValue(s: ReportErrorSource): (b: uint8)
    ensures b <= 1
  {
    match s
    case ErrorSourcePrinter => 0
    case ErrorSourceMMU => 1
  }

  /** The error source a byte encodes; `None` for bytes other than 0 and 1. */
  function ReportErrorSourceOf(b: uint8): (r: Option<ReportErrorSource>)
    ensures r.Some? ==> ReportErrorSourceValue(r.value) == b
    ensures r.None? <==> b > 1
  {
    if b == 0 then Some(ErrorSourcePrinter)
    else if b == 1 then Some(ErrorSourceMMU)
    else None
  }

  /** Decoding the value of an error source gives that source back. */
  lemma ReportErrorSourceRoundTrip(s: ReportErrorSource)
    ensures ReportErrorSourceOf(ReportErrorSourceValue(s)) == Some(s)
  {
  }

  // The `SavedState` bit flags, as stored in the `uint8_t` field `mmu_print_saved`.
  const SavedNone: bv8 := 0
  const ParkExtruder: bv8 := 1
  const Cooldown: bv8 := 2
  const CooldownPending: bv8 := 4

  /** The bits of `mmu_print_saved` that carry no flag. */
  const UnusedSavedBits: bv8 := 0xf8

  /** The saved-print flags, one boolean per flag. */
  datatype SavedFlags = SavedFlags(parkExtruder: bool, cooldown: bool, cooldownPending: bool) {
    predicate Any() { parkExtruder || cooldown || cooldownPending }
  }

  /**
   * The byte holding a combination of flags. Each flag is its own bit, so the
   * combination can be read back, and the byte is `None` exactly when no
   * flag is set.
   */
  function EncodeSaved(f: SavedFlags): (v: bv8)
    ensures DecodeSaved(v) == f
    ensures v & UnusedSavedBits == 0
    ensures v == SavedNone <==> !f.Any()
  {
    (if f.parkExtruder then ParkExtruder else SavedNone)
    | (if f.cooldown then Cooldown else SavedNone)
    | (if f.cooldownPending then CooldownPending else SavedNone)
  }

  /** The flags set in a byte: some flag is set exactly when one of the three flag bits is. */
  function DecodeSaved(v: bv8): (f: SavedFlags)
    ensures f.Any() <==> v & (ParkExtruder | Cooldown | CooldownPending) != 0
  {
    SavedFlags(v & ParkExtruder != 0, v & Cooldown != 0, v & CooldownPending != 0)
  }

  /** A byte that uses only the three flag bits is the encoding of its flags. */
  lemma EncodeDecodeSaved(v: bv8)
    requires v & UnusedSavedBits == 0
    ensures EncodeSaved(DecodeSaved(v)) == v
  {
  }

  /** Firmware version of the MMU. */
  datatype Version = Version(major: uint8, minor: uint8, build: uint8)

  /** Coarse progress of an MMU operation; codes other than `OK` are defined outside this model. */
  datatype ProgressCode = OK | Progress(code: uint8)

  /** Button selection on an MMU error screen; the button indices are defined outside this model. */
  datatype Buttons = NoButton | Button(index: uint8)

  /** A print-head position (three floats in the source). */
  datatype XyzPos = XyzPos(x: real, y: real, z: real)

  /** The values of the protocol logic layer that the `MMU2` queries forward. */
  datatype ProtocolLogic = ProtocolLogic(
    findaPressed: bool,
    error: Word,
    mmuFwVersionMajor: uint8,
    mmuFwVersionMinor: uint8,
    mmuFwVersionBuild: uint8)

  /** Top-level interface between the protocol logic and the printer firmware. */
  class MMU2 {
    var isMmuErrorMonitorActive: bool
    var logic: ProtocolLogic
    var extruder: int16              // currently active slot (a 16-bit `int` on the AVR)
    var previousExtruder: uint8      // last active slot
    var toolChangeExtruder: uint8    // slot of an in-flight tool change
    var resumePosition: XyzPos
    var resumeHotendTemp: int16
    var lastProgressCode: ProgressCode
    var lastErrorCode: Word
    var lastButton: Buttons
    var state: XState
    var mmuPrintSaved: bv8           // `SavedState` flags
    var loadFilamentStarted: bool
    var loadingToNozzle: bool        // a LoadToNozzle operation is running

    /**
     * The invariant the header's comments promise of the state: the previous
     * slot is a slot or `FILAMENT_UNKNOWN`, and `mmu_print_saved` holds only
     * `SavedState` flags.
     */
    ghost predicate Valid()
      reads this
    {
      IsSlotOrUnknown(previousExtruder as int) &&
      mmuPrintSaved & UnusedSavedBits == 0
    }

    /**
     * The default member initialisers of the header: progress `OK`, error
     * `MMU_NOT_RESPONDING` (whose value `codes` supplies), no button. The
     * rest of the constructor is in `mmu2.cpp`.
     */
    constructor (codes: Codes)
      ensures lastProgressCode == OK
      ensures lastErrorCode == codes.caseValue(MmuNotResponding)
      ensures lastButton == NoButton
    {
      lastProgressCode := OK;
      lastErrorCode := codes.caseValue(MmuNotResponding);
      lastButton := NoButton;
    }

    /** The connectivity state. */
    function State(): (s: XState)
      reads this
      ensures s == state
    {
      state
    }

    /** The MMU can be worked with exactly when it is `Active`. */
    function Enabled(): (b: bool)
      reads this
      ensures b <==> state == Active
    {
      State() == Active
    }

    /** The firmware version the logic reports while `Active`, `0.0.0` otherwise. */
    function GetMMUFWVersion(): (v: Version)
      reads this
      ensures Enabled() ==>
                v == Version(logic.mmuFwVersionMajor, logic.mmuFwVersionMinor, logic.mmuFwVersionBuild)
      ensures !Enabled() ==> v == Version(0, 0, 0)
    {
      if State() == Active then
        Version(logic.mmuFwVersionMajor, logic.mmuFwVersionMinor, logic.mmuFwVersionBuild)
      else
        Version(0, 0, 0)
    }

    /** A non-zero version is reported only by an `Active` MMU. */
    lemma NonZeroVersionOnlyWhenActive()
      ensures GetMMUFWVersion() != Version(0, 0, 0) ==> State() == Active
    {
    }

    /** The print is saved when some `SavedState` flag is set. */
    function PrintSaved(): (b: bool)
      reads this
      ensures b <==> mmuPrintSaved != SavedNone
    {
      mmuPrintSaved != SavedNone
    }

    /** In a valid state, the print is saved exactly when a decoded flag is set. */
    lemma PrintSavedIffSomeFlag()
      requires Valid()
      ensures PrintSaved() <==> DecodeSaved(mmuPrintSaved).Any()
    {
      EncodeDecodeSaved(mmuPrintSaved);
    }

    /** The previous slot, unchanged; a slot or `FILAMENT_UNKNOWN` in a valid state. */
    function GetPreviousTool(): (t: uint8)
      reads this
      ensures t == previousExtruder
      ensures Valid() ==> IsSlotOrUnknown(t as int)
    {
      previousExtruder
    }

    /** Whether FINDA detects filament, as the protocol logic reports it. */
    function FindaDetectsFilament(): (b: bool)
      reads this
      ensures b == logic.findaPressed
    {
      logic.findaPressed
    }

    /** The current error code, as the protocol logic reports it. */
    function MMUCurrentErrorCode(): (e: Word)
      reads this
      ensures e == logic.error
    {
      logic.error
    }
  }
}
