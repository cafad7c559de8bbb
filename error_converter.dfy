/**
 * The MMU error converter: maps a raw 16-bit MMU error word to an entry of
 * the printer's error table.
 *
 * `Classify` says which `ERR_*` identifier a word selects (or that it selects
 * none); `MMUErrorCodeIndex` resolves that identifier through
 * `FindErrorIndex`, a linear search of the `errorCodes[]` table by `FindIf`.
 */
module ErrorConverter {
  import opened Wrappers
  import opened ErrorCodes

  // ---------------------------------------------------------------------
  // find_if_cx
  // ---------------------------------------------------------------------

  /**
   * The position of the first element of `s[first..last]` that satisfies
   * `p`, or `last` when there is none. Positions stand for the iterators.
   */
  function FindIf<T>(s: seq<T>, first: nat, last: nat, p: T -> bool): (r: nat)
    requires first <= last <= |s|
    ensures first <= r <= last
    ensures r < last ==> p(s[r])
    ensures forall j :: first <= j < r ==> !p(s[j])
    decreases last - first
  {
    if first == last then last
    else if p(s[first]) then first
    else FindIf(s, first + 1, last, p)
  }

  /** The three properties of `FindIf` determine its result. */
  lemma FindIfUnique<T>(s: seq<T>, first: nat, last: nat, p: T -> bool, r: nat)
    requires first <= r <= last <= |s|
    requires r < last ==> p(s[r])
    requires forall j :: first <= j < r ==> !p(s[j])
    ensures r == FindIf(s, first, last, p)
  {
  }

  /** The loop of `find_if_cx`: advance `first` until `p` holds or `last` is reached. */
  method FindIfCx<T>(s: seq<T>, first: nat, last: nat, p: T -> bool) returns (r: nat)
    requires first <= last <= |s|
    ensures first <= r <= last
    ensures r < last ==> p(s[r])
    ensures forall j :: first <= j < r ==> !p(s[j])
    ensures r == FindIf(s, first, last, p)
  {
    r := first;
    while r != last
      invariant first <= r <= last
      invariant forall j :: first <= j < r ==> !p(s[j])
      invariant FindIf(s, r, last, p) == FindIf(s, first, last, p)
      decreases last - r
    {
      if p(s[r]) {
        return;
      }
      r := r + 1;
    }
  }

  // ---------------------------------------------------------------------
  // FindErrorIndex
  // ---------------------------------------------------------------------

  /** `pec` equals some entry of the table (the `uint16_t` entry widened to `uint32_t`). */
  ghost predicate InTable(errorCodes: seq<uint16>, pec: uint32) {
    exists k :: 0 <= k < |errorCodes| && errorCodes[k] as int == pec as int
  }

  /**
   * The table entry equal to `pec`, or the table's last entry when `pec` is
   * not in the table. The result is an element value, not a position.
   */
  function FindErrorIndex(errorCodes: seq<uint16>, pec: uint32): (r: uint16)
    requires |errorCodes| > 0
    ensures r in errorCodes
    ensures InTable(errorCodes, pec) ==> r as int == pec as int
    ensures !InTable(errorCodes, pec) ==> r == errorCodes[|errorCodes| - 1]
  {
    var i := FindIf(errorCodes, 0, |errorCodes|, (ed: uint16) => ed as int == pec as int);
    if i != |errorCodes| then errorCodes[i] else errorCodes[|errorCodes| - 1]
  }

  /** Looking up a result of `FindErrorIndex` again gives that result back. */
  lemma FindErrorIndexIdempotent(errorCodes: seq<uint16>, pec: uint32)
    requires |errorCodes| > 0
    ensures FindErrorIndex(errorCodes, FindErrorIndex(errorCodes, pec) as int as uint32)
         == FindErrorIndex(errorCodes, pec)
  {
    var r := FindErrorIndex(errorCodes, pec);
    var k :| 0 <= k < |errorCodes| && errorCodes[k] == r;
    assert InTable(errorCodes, r as int as uint32);
  }

  // ---------------------------------------------------------------------
  // The exact-match switch
  // ---------------------------------------------------------------------

  /** A word different from each of the seventeen case values differs from all of them. */
  lemma NoCaseValue(c: Codes, ec: Word)
    requires ec != c.caseValue(FindaDidntSwitchOn) && ec != c.caseValue(FindaDidntSwitchOff)
    requires ec != c.caseValue(FsensorDidntSwitchOn) && ec != c.caseValue(FsensorDidntSwitchOff)
    requires ec != c.caseValue(StalledPulley) && ec != c.caseValue(MovePulleyFailed)
    requires ec != c.caseValue(HomingSelectorFailed) && ec != c.caseValue(MoveSelectorFailed)
    requires ec != c.caseValue(HomingIdlerFailed) && ec != c.caseValue(MmuNotResponding)
    requires ec != c.caseValue(ProtocolError) && ec != c.caseValue(FilamentAlreadyLoaded)
    requires ec != c.caseValue(InvalidTool) && ec != c.caseValue(QueueFull)
    requires ec != c.caseValue(VersionMismatch) && ec != c.caseValue(Internal)
    requires ec != c.caseValue(FindaVsEepromDisrepancy)
    ensures forall n :: c.caseValue(n) != ec
  {
    forall n ensures c.caseValue(n) != ec {
      match n
      case FindaDidntSwitchOn =>
      case FindaDidntSwitchOff =>
      case FsensorDidntSwitchOn =>
      case FsensorDidntSwitchOff =>
      case StalledPulley =>
      case MovePulleyFailed =>
      case HomingSelectorFailed =>
      case MoveSelectorFailed =>
      case HomingIdlerFailed =>
      case MmuNotResponding =>
      case ProtocolError =>
      case FilamentAlreadyLoaded =>
      case InvalidTool =>
      case QueueFull =>
      case VersionMismatch =>
      case Internal =>
      case FindaVsEepromDisrepancy =>
    }
  }

  /** The `switch (ec)` case label that `ec` equals, if any. */
  function SwitchLabel(c: Codes, ec: Word): (r: Option<ErrorCode>)
    ensures r.Some? ==> c.caseValue(r.value) == ec
    ensures r.None? ==> forall n :: c.caseValue(n) != ec
  {
    if ec == c.caseValue(FindaDidntSwitchOn) then Some(FindaDidntSwitchOn)
    else if ec == c.caseValue(FindaDidntSwitchOff) then Some(FindaDidntSwitchOff)
    else if ec == c.caseValue(FsensorDidntSwitchOn) then Some(FsensorDidntSwitchOn)
    else if ec == c.caseValue(FsensorDidntSwitchOff) then Some(FsensorDidntSwitchOff)
    else if ec == c.caseValue(StalledPulley) then Some(StalledPulley)
    else if ec == c.caseValue(MovePulleyFailed) then Some(MovePulleyFailed)
    else if ec == c.caseValue(HomingSelectorFailed) then Some(HomingSelectorFailed)
    else if ec == c.caseValue(MoveSelectorFailed) then Some(MoveSelectorFailed)
    else if ec == c.caseValue(HomingIdlerFailed) then Some(HomingIdlerFailed)
    else if ec == c.caseValue(MmuNotResponding) then Some(MmuNotResponding)
    else if ec == c.caseValue(ProtocolError) then Some(ProtocolError)
    else if ec == c.caseValue(FilamentAlreadyLoaded) then Some(FilamentAlreadyLoaded)
    else if ec == c.caseValue(InvalidTool) then Some(InvalidTool)
    else if ec == c.caseValue(QueueFull) then Some(QueueFull)
    else if ec == c.caseValue(VersionMismatch) then Some(VersionMismatch)
    else if ec == c.caseValue(Internal) then Some(Internal)
    else if ec == c.caseValue(FindaVsEepromDisrepancy) then Some(FindaVsEepromDisrepancy)
    else NoCaseValue(c, ec); None
  }

  /**
   * The `ERR_*` identifier each `switch` case hands to `FindErrorIndex`:
   * always a mechanical, connection or system identifier, never a TMC one
   * and never `ERR_OTHER`.
   */
  function NamedCategory(n: ErrorCode): (e: ErrId)
    ensures SubsystemOf(e) == None && FaultOf(e) == None
    ensures e != Other
  {
    match n
    case FindaDidntSwitchOn => MechanicalFindaDidntTrigger
    case FindaDidntSwitchOff => MechanicalFindaDidntGoOff
    case FsensorDidntSwitchOn => MechanicalFsensorDidntTrigger
    case FsensorDidntSwitchOff => MechanicalFsensorDidntGoOff
    case StalledPulley => MechanicalPulleyCannotMove
    case MovePulleyFailed => MechanicalPulleyCannotMove
    case HomingSelectorFailed => MechanicalSelectorCannotHome
    case MoveSelectorFailed => MechanicalSelectorCannotMove
    case HomingIdlerFailed => MechanicalIdlerCannotHome
    case MmuNotResponding => MechanicalIdlerCannotMove
    case ProtocolError => ConnectCommunicationError
    case FilamentAlreadyLoaded => SystemFilamentAlreadyLoaded
    case InvalidTool => SystemInvalidTool
    case QueueFull => SystemQueueFull
    case VersionMismatch => SystemFwUpdateNeeded
    case Internal => SystemFwRuntimeError
    case FindaVsEepromDisrepancy => SystemUnloadManually
  }

  /**
   * Two named codes share an `ERR_*` identifier only when they are the same
   * code, or are `STALLED_PULLEY` and `MOVE_PULLEY_FAILED`.
   */
  lemma NamedCategoryShared(a: ErrorCode, b: ErrorCode)
    ensures NamedCategory(a) == NamedCategory(b) <==>
            a == b || {a, b} == {StalledPulley, MovePulleyFailed}
  {
    if {a, b} == {StalledPulley, MovePulleyFailed} {
      assert a in {StalledPulley, MovePulleyFailed} && b in {StalledPulley, MovePulleyFailed};
    } else if a != b {
      assert a == StalledPulley ==> b != MovePulleyFailed;
      assert a == MovePulleyFailed ==> b != StalledPulley;
    }
  }

  // ---------------------------------------------------------------------
  // The TMC bit-test cascade
  // ---------------------------------------------------------------------

  /**
   * The `ERR_*` identifier for a driver fault in a subsystem. The subsystem
   * and the fault can be read back from it, so the table is one-to-one: the
   * same fault gives a different identifier in each subsystem.
   */
  function TmcCategory(s: Subsystem, f: DriverFault): (e: ErrId)
    ensures SubsystemOf(e) == Some(s)
    ensures FaultOf(e) == Some(f)
  {
    match (s, f)
    case (Pulley, IoinMismatch) => ElectricalPulleyTmcDriverError
    case (Pulley, Reset) => ElectricalPulleyTmcDriverReset
    case (Pulley, UndervoltageOnChargePump) => ElectricalPulleyTmcUndervoltageError
    case (Pulley, ShortToGround) => ElectricalPulleyTmcDriverShorted
    case (Pulley, OverTemperatureWarn) => TemperaturePulleyWarningTmcTooHot
    case (Pulley, OverTemperatureError) => TemperaturePulleyTmcOverheatError
    case (Selector, IoinMismatch) => ElectricalSelectorTmcDriverError
    case (Selector, Reset) => ElectricalSelectorTmcDriverReset
    case (Selector, UndervoltageOnChargePump) => ElectricalSelectorTmcUndervoltageError
    case (Selector, ShortToGround) => ElectricalSelectorTmcDriverShorted
    case (Selector, OverTemperatureWarn) => TemperatureSelectorWarningTmcTooHot
    case (Selector, OverTemperatureError) => TemperatureSelectorTmcOverheatError
    case (Idler, IoinMismatch) => ElectricalIdlerTmcDriverError
    case (Idler, Reset) => ElectricalIdlerTmcDriverReset
    case (Idler, UndervoltageOnChargePump) => ElectricalIdlerTmcUndervoltageError
    case (Idler, ShortToGround) => ElectricalIdlerTmcDriverShorted
    case (Idler, OverTemperatureWarn) => TemperatureIdlerWarningTmcTooHot
    case (Idler, OverTemperatureError) => TemperatureIdlerTmcOverheatError
  }

  /** The subsystem a TMC identifier belongs to; `None` for every other identifier. */
  function SubsystemOf(e: ErrId): Option<Subsystem> {
    match e
    case ElectricalPulleyTmcDriverError | ElectricalPulleyTmcDriverReset
       | ElectricalPulleyTmcUndervoltageError | ElectricalPulleyTmcDriverShorted
       | TemperaturePulleyWarningTmcTooHot | TemperaturePulleyTmcOverheatError => Some(Pulley)
    case ElectricalSelectorTmcDriverError | ElectricalSelectorTmcDriverReset
       | ElectricalSelectorTmcUndervoltageError | ElectricalSelectorTmcDriverShorted
       | TemperatureSelectorWarningTmcTooHot | TemperatureSelectorTmcOverheatError => Some(Selector)
    case ElectricalIdlerTmcDriverError | ElectricalIdlerTmcDriverReset
       | ElectricalIdlerTmcUndervoltageError | ElectricalIdlerTmcDriverShorted
       | TemperatureIdlerWarningTmcTooHot | TemperatureIdlerTmcOverheatError => Some(Idler)
    case _ => None
  }

  /** The driver fault a TMC identifier reports; `None` for every other identifier. */
  function FaultOf(e: ErrId): Option<DriverFault> {
    match e
    case ElectricalPulleyTmcDriverError | ElectricalSelectorTmcDriverError
       | ElectricalIdlerTmcDriverError => Some(IoinMismatch)
    case ElectricalPulleyTmcDriverReset | ElectricalSelectorTmcDriverReset
       | ElectricalIdlerTmcDriverReset => Some(Reset)
    case ElectricalPulleyTmcUndervoltageError | ElectricalSelectorTmcUndervoltageError
       | ElectricalIdlerTmcUndervoltageError => Some(UndervoltageOnChargePump)
    case ElectricalPulleyTmcDriverShorted | ElectricalSelectorTmcDriverShorted
       | ElectricalIdlerTmcDriverShorted => Some(ShortToGround)
    case TemperaturePulleyWarningTmcTooHot | TemperatureSelectorWarningTmcTooHot
       | TemperatureIdlerWarningTmcTooHot => Some(OverTemperatureWarn)
    case TemperaturePulleyTmcOverheatError | TemperatureSelectorTmcOverheatError
       | TemperatureIdlerTmcOverheatError => Some(OverTemperatureError)
    case _ => None
  }

  /** Every identifier with a subsystem and a fault is the `TmcCategory` of those two. */
  lemma TmcCategoryOnto(e: ErrId)
    requires SubsystemOf(e).Some? || FaultOf(e).Some?
    ensures SubsystemOf(e).Some? && FaultOf(e).Some?
    ensures TmcCategory(SubsystemOf(e).value, FaultOf(e).value) == e
  {
  }

  /** With none of the three subsystem bits set, no subsystem bit is set. */
  lemma NoSubsystemSet(c: Codes, ec: Word)
    requires !SubsystemSet(c, ec, Pulley) && !SubsystemSet(c, ec, Selector) && !SubsystemSet(c, ec, Idler)
    ensures forall t :: !SubsystemSet(c, ec, t)
  {
    forall t ensures !SubsystemSet(c, ec, t) {
      match t
      case Pulley =>
      case Selector =>
      case Idler =>
    }
  }

  /** With none of the six fault bits set, no fault bit is set. */
  lemma NoFaultSet(c: Codes, ec: Word)
    requires !FaultSet(c, ec, IoinMismatch) && !FaultSet(c, ec, Reset)
    requires !FaultSet(c, ec, UndervoltageOnChargePump) && !FaultSet(c, ec, ShortToGround)
    requires !FaultSet(c, ec, OverTemperatureWarn) && !FaultSet(c, ec, OverTemperatureError)
    ensures forall g :: !FaultSet(c, ec, g)
  {
    forall g ensures !FaultSet(c, ec, g) {
      match g
      case IoinMismatch =>
      case Reset =>
      case UndervoltageOnChargePump =>
      case ShortToGround =>
      case OverTemperatureWarn =>
      case OverTemperatureError =>
    }
  }

  /** The subsystem branch taken: Pulley, else Selector, else Idler. */
  function FirstSubsystem(c: Codes, ec: Word): (r: Option<Subsystem>)
    ensures r.Some? ==> SubsystemSet(c, ec, r.value)
    ensures r.Some? ==> forall t :: SubsystemRank(t) < SubsystemRank(r.value) ==> !SubsystemSet(c, ec, t)
    ensures r.None? ==> forall t :: !SubsystemSet(c, ec, t)
  {
    if SubsystemSet(c, ec, Pulley) then Some(Pulley)
    else if SubsystemSet(c, ec, Selector) then Some(Selector)
    else if SubsystemSet(c, ec, Idler) then Some(Idler)
    else NoSubsystemSet(c, ec); None
  }

  /** The first driver-fault test that succeeds, in the order of the source. */
  function FirstFault(c: Codes, ec: Word): (r: Option<DriverFault>)
    ensures r.Some? ==> FaultSet(c, ec, r.value)
    ensures r.Some? ==> forall g :: FaultRank(g) < FaultRank(r.value) ==> !FaultSet(c, ec, g)
    ensures r.None? ==> forall g :: !FaultSet(c, ec, g)
  {
    if FaultSet(c, ec, IoinMismatch) then Some(IoinMismatch)
    else if FaultSet(c, ec, Reset) then Some(Reset)
    else if FaultSet(c, ec, UndervoltageOnChargePump) then Some(UndervoltageOnChargePump)
    else if FaultSet(c, ec, ShortToGround) then Some(ShortToGround)
    else if FaultSet(c, ec, OverTemperatureWarn) then Some(OverTemperatureWarn)
    else if FaultSet(c, ec, OverTemperatureError) then Some(OverTemperatureError)
    else NoFaultSet(c, ec); None
  }

  // ---------------------------------------------------------------------
  // MMUErrorCodeIndex
  // ---------------------------------------------------------------------

  /**
   * The `ERR_*` identifier `MMUErrorCodeIndex` passes to `FindErrorIndex`
   * for `ec`, or `None` when control reaches the end of the function
   * without a `return` (the generic fallback is disabled).
   */
  function Classify(c: Codes, ec: Word): (r: Option<ErrId>)
    ensures r != Some(Other)
    ensures r.Some? && SubsystemOf(r.value).Some? ==>
              SubsystemSet(c, ec, SubsystemOf(r.value).value) && FaultSet(c, ec, FaultOf(r.value).value)
    ensures r.Some? && SubsystemOf(r.value).None? ==> SwitchLabel(c, ec).Some?
  {
    match SwitchLabel(c, ec)
    case Some(n) => Some(NamedCategory(n))
    case None =>
      match FirstSubsystem(c, ec)
      case None => None
      case Some(s) =>
        match FirstFault(c, ec)
        case None => None
        case Some(f) => Some(TmcCategory(s, f))
  }

  /** The error-table entry for `ec`, or `None` where the source returns no value. */
  function MMUErrorCodeIndex(c: Codes, ec: Word): (r: Option<uint16>)
    requires |c.errorCodes| > 0
    ensures r.Some? <==> Classify(c, ec).Some?
    ensures r.Some? ==> r.value in c.errorCodes
    ensures r.Some? && InTable(c.errorCodes, c.errValue(Classify(c, ec).value)) ==>
              r.value as int == c.errValue(Classify(c, ec).value) as int
  {
    match Classify(c, ec)
    case None => None
    case Some(e) => Some(FindErrorIndex(c.errorCodes, c.errValue(e)))
  }

  // ---------------------------------------------------------------------
  // Properties of the classification
  // ---------------------------------------------------------------------

  /**
   * Exact-match precedence: a word equal to a `switch` label is classified
   * by that label alone, whatever TMC bits it also carries.
   */
  lemma ClassifyNamed(c: Codes, n: ErrorCode)
    requires Valid(c)
    ensures Classify(c, c.caseValue(n)) == Some(NamedCategory(n))
  {
    var r := SwitchLabel(c, c.caseValue(n));
    assert r.Some?;
    assert c.caseValue(r.value) == c.caseValue(n);
  }

  /**
   * A TMC identifier is selected exactly when the word matches no label,
   * its subsystem is the first subsystem whose bit is set, and its fault is
   * the first fault whose bit is set.
   */
  lemma ClassifyTmc(c: Codes, ec: Word, s: Subsystem, f: DriverFault)
    ensures Classify(c, ec) == Some(TmcCategory(s, f)) <==>
              (forall n :: c.caseValue(n) != ec) &&
              SubsystemSet(c, ec, s) &&
              (forall t :: SubsystemRank(t) < SubsystemRank(s) ==> !SubsystemSet(c, ec, t)) &&
              FaultSet(c, ec, f) &&
              (forall g :: FaultRank(g) < FaultRank(f) ==> !FaultSet(c, ec, g))
  {
    var sw := SwitchLabel(c, ec);
    if sw.Some? {
      assert c.caseValue(sw.value) == ec;
    } else {
      var fs, ff := FirstSubsystem(c, ec), FirstFault(c, ec);
      if fs.Some? && ff.Some? {
        if fs.value != s {
          assert SubsystemRank(fs.value) < SubsystemRank(s) || SubsystemRank(s) < SubsystemRank(fs.value);
        }
        if ff.value != f {
          assert FaultRank(ff.value) < FaultRank(f) || FaultRank(f) < FaultRank(ff.value);
        }
      }
    }
  }

  /**
   * No value is returned exactly when the word matches no label and either
   * carries no subsystem bit or carries no driver-fault bit.
   */
  lemma ClassifyNone(c: Codes, ec: Word)
    ensures Classify(c, ec).None? <==>
              (forall n :: c.caseValue(n) != ec) &&
              ((forall t :: !SubsystemSet(c, ec, t)) || (forall g :: !FaultSet(c, ec, g)))
  {
    var sw := SwitchLabel(c, ec);
    if sw.Some? {
      assert c.caseValue(sw.value) == ec;
    } else {
      var fs, ff := FirstSubsystem(c, ec), FirstFault(c, ec);
      if fs.Some? {
        assert SubsystemSet(c, ec, fs.value);
      }
      if ff.Some? {
        assert FaultSet(c, ec, ff.value);
      }
    }
  }

  /**
   * Subsystem priority: with the Pulley bit set, a word that matches no
   * label yields a Pulley identifier or nothing, never a Selector or Idler one.
   */
  lemma PulleyBitWins(c: Codes, ec: Word)
    requires forall n :: c.caseValue(n) != ec
    requires SubsystemSet(c, ec, Pulley)
    ensures Classify(c, ec).None? || SubsystemOf(Classify(c, ec).value) == Some(Pulley)
  {
  }

  /**
   * Selector is consulted only with the Pulley bit clear, Idler only with
   * both the Pulley and the Selector bit clear.
   */
  lemma SubsystemOrder(c: Codes, ec: Word)
    requires Classify(c, ec).Some?
    ensures SubsystemOf(Classify(c, ec).value) == Some(Selector) ==>
              !SubsystemSet(c, ec, Pulley) && SubsystemSet(c, ec, Selector)
    ensures SubsystemOf(Classify(c, ec).value) == Some(Idler) ==>
              !SubsystemSet(c, ec, Pulley) && !SubsystemSet(c, ec, Selector) && SubsystemSet(c, ec, Idler)
  {
  }

  /**
   * Sub-bit priority, the example of a Selector word carrying both the
   * RESET and the SHORT_TO_GROUND bit: RESET is tested first and decides.
   */
  lemma SelectorResetBeatsShortToGround(c: Codes, ec: Word)
    requires forall n :: c.caseValue(n) != ec
    requires !SubsystemSet(c, ec, Pulley) && SubsystemSet(c, ec, Selector)
    requires !FaultSet(c, ec, IoinMismatch)
    requires FaultSet(c, ec, Reset) && FaultSet(c, ec, ShortToGround)
    ensures Classify(c, ec) == Some(ElectricalSelectorTmcDriverReset)
  {
    ClassifyTmc(c, ec, Selector, Reset);
  }

  /** The same driver fault yields a different identifier in each subsystem. */
  lemma SameFaultDistinctSubsystems(c: Codes, ec1: Word, ec2: Word, s1: Subsystem, s2: Subsystem, f: DriverFault)
    requires Classify(c, ec1) == Some(TmcCategory(s1, f))
    requires Classify(c, ec2) == Some(TmcCategory(s2, f))
    requires s1 != s2
    ensures Classify(c, ec1) != Classify(c, ec2)
  {
  }

  /**
   * The same driver fault in two subsystems yields two different table
   * entries, provided both `ERR_*` values are in the table and differ. (If a
   * value is missing from the table, both words may fall back to the last
   * entry.)
   */
  lemma SameFaultDistinctEntries(c: Codes, ec1: Word, ec2: Word, s1: Subsystem, s2: Subsystem, f: DriverFault)
    requires |c.errorCodes| > 0
    requires Classify(c, ec1) == Some(TmcCategory(s1, f))
    requires Classify(c, ec2) == Some(TmcCategory(s2, f))
    requires InTable(c.errorCodes, c.errValue(TmcCategory(s1, f)))
    requires InTable(c.errorCodes, c.errValue(TmcCategory(s2, f)))
    requires c.errValue(TmcCategory(s1, f)) != c.errValue(TmcCategory(s2, f))
    ensures MMUErrorCodeIndex(c, ec1) != MMUErrorCodeIndex(c, ec2)
  {
    IndexOfClassified(c, ec1, TmcCategory(s1, f));
    IndexOfClassified(c, ec2, TmcCategory(s2, f));
  }

  /**
   * The error-table entry of a classified word is the table entry of its
   * `ERR_*` value when that value is in the table, else the last entry.
   */
  lemma IndexOfClassified(c: Codes, ec: Word, e: ErrId)
    requires |c.errorCodes| > 0
    requires Classify(c, ec) == Some(e)
    ensures InTable(c.errorCodes, c.errValue(e)) ==>
              MMUErrorCodeIndex(c, ec) == Some(c.errValue(e) as int as uint16)
    ensures !InTable(c.errorCodes, c.errValue(e)) ==>
              MMUErrorCodeIndex(c, ec) == Some(c.errorCodes[|c.errorCodes| - 1])
  {
    if InTable(c.errorCodes, c.errValue(e)) {
      var k :| 0 <= k < |c.errorCodes| && c.errorCodes[k] as int == c.errValue(e) as int;
    }
  }

  // ---------------------------------------------------------------------
  // The disabled generic fallback
  // ---------------------------------------------------------------------

  /**
   * As written, a word that matches no label and carries no subsystem bit
   * (for instance 0, when 0 is not a label) reaches the end of
   * `MMUErrorCodeIndex` without a `return`.
   */
  lemma ZeroFallsOffTheEnd(c: Codes)
    requires |c.errorCodes| > 0
    requires forall n :: c.caseValue(n) != 0
    ensures MMUErrorCodeIndex(c, 0) == None
  {
    ClassifyNone(c, 0);
  }

  /**
   * The converter with the generic fallback restored: a word that selects no
   * identifier maps to the table entry of `ERR_OTHER`.
   */
  function MMUErrorCodeIndexOrOther(c: Codes, ec: Word): (r: uint16)
    requires |c.errorCodes| > 0
    ensures r in c.errorCodes
    ensures MMUErrorCodeIndex(c, ec).Some? ==> r == MMUErrorCodeIndex(c, ec).value
    ensures Classify(c, ec).None? && InTable(c.errorCodes, c.errValue(Other)) ==>
              r as int == c.errValue(Other) as int
  {
    match MMUErrorCodeIndex(c, ec)
    case Some(i) => i
    case None => FindErrorIndex(c.errorCodes, c.errValue(Other))
  }
}
