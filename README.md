# MMU2 error converter and state record

A Dafny model of two parts of the Prusa MMU2 printer-side firmware:

- **The error converter** (`Firmware/mmu2_error_converter.cpp`). It maps a
  16-bit MMU error word to an entry of the printer's error table. First it
  looks for an exact match among the named `ErrorCode` cases of a `switch`.
  Failing that, it tests the TMC subsystem bits in the order Pulley, Selector,
  Idler. Within the first subsystem whose bit is set, it tests the driver-fault
  bits in the order IOIN mismatch, reset, undervoltage, short to ground,
  over-temperature warning, over-temperature error. The `ERR_*` identifier
  chosen is then resolved by `FindErrorIndex`, a linear search (`find_if_cx`)
  of the `errorCodes[]` table that falls back to the table's last entry.
- **The `MMU2` state record** (`Firmware/mmu2.h`). This covers the
  connectivity state (`Active`, `Connecting`, `Stopped`), the slot fields with
  their `FILAMENT_UNKNOWN = 0xff` sentinel, the `SavedState` bit flags, and
  the reset-form and error-source enumerations. It also covers the inline
  `const` queries, which are modelled as Dafny functions that read the object
  and cannot change it.

The numeric values of the `ErrorCode` cases, the TMC bit masks, the `ERR_*`
constants and the `errorCodes[]` table are defined in `mmu2/error_codes.h` and
`mmu2/errors_list.h`, which are not part of this model. They are the parameter
`ErrorCodes.Codes`, and `ErrorCodes.Valid` states what the C++ compiler
demands of them: the table is non-empty and the case labels are pairwise
distinct. Every property below holds for every such choice of values.

The converter is split into two layers. `ErrorConverter.Classify` says which
`ERR_*` identifier a word selects, or `None` when control reaches the end of
`MMUErrorCodeIndex` without a `return`. `ErrorConverter.MMUErrorCodeIndex`
resolves that identifier through `FindErrorIndex`. The three identical TMC
blocks of the source become `FirstSubsystem`, `FirstFault` and a 3 x 6 table
`TmcCategory`. Each keeps the source's test order.

Files: `wrappers.dfy` (Option), `error_codes.dfy` (the vocabulary and the
parameters), `error_converter.dfy` (the converter), `mmu2.dfy` (the state
record).

The commented-out lines at `Firmware/mmu2_error_converter.cpp:113-114`
would return a generic error when no rule matches. As written, the code has
no such fallback, and the model follows the code: such a word yields `None`.
The fallback is modelled separately, as the corrected member of the finding
below.

## Model

| member | source | states |
|---|---|---|
| ErrorConverter.FindIf | Firmware/mmu2_error_converter.cpp:10-18 | the result lies in `[first, last]`; an element before it never satisfies the predicate; if it is below `last`, the element there does |
| ErrorConverter.FindIfUnique | Firmware/mmu2_error_converter.cpp:10-18 | those three properties determine the search result uniquely |
| ErrorConverter.FindIfCx | Firmware/mmu2_error_converter.cpp:10-18 | the loop that advances `first` returns the first position satisfying the predicate, or `last` |
| ErrorConverter.FindErrorIndex | Firmware/mmu2_error_converter.cpp:23-30 | total on a non-empty table; the result is always a table element; it equals `pec` when `pec` is in the table, else the last entry |
| ErrorConverter.FindErrorIndexIdempotent | Firmware/mmu2_error_converter.cpp:23-30 | looking up a result of `FindErrorIndex` again returns the same entry |
| ErrorConverter.SwitchLabel | Firmware/mmu2_error_converter.cpp:33-67 | a label is found exactly when the word equals that case value; `None` means the word equals no case value |
| ErrorConverter.NamedCategoryShared | Firmware/mmu2_error_converter.cpp:42-44 | two named codes share an `ERR_*` identifier only if they are equal or are `STALLED_PULLEY` and `MOVE_PULLEY_FAILED` |
| ErrorConverter.ClassifyNamed | Firmware/mmu2_error_converter.cpp:33-67 | a word equal to a case label is classified by that label's fixed entry and never reaches the TMC tests; e.g. `MMU_NOT_RESPONDING` gives `ERR_MECHANICAL_IDLER_CANNOT_MOVE` |
| ErrorConverter.NamedCategory | Firmware/mmu2_error_converter.cpp:33-67 | the fixed entry of each of the 17 `switch` cases; every such entry is a mechanical, connection or system identifier, never a TMC one and never `ERR_OTHER` |
| ErrorConverter.TmcCategory | Firmware/mmu2_error_converter.cpp:72-111 | the 3 x 6 table of TMC entries; the subsystem and the fault can be read back from each entry, so one fault gives a distinct identifier in each subsystem |
| ErrorConverter.TmcCategoryOnto | Firmware/mmu2_error_converter.cpp:72-111 | every TMC identifier is the entry of exactly the subsystem and fault it names |
| ErrorConverter.FirstSubsystem | Firmware/mmu2_error_converter.cpp:72-98 | the subsystem chosen has its bit set, and every subsystem earlier in the order Pulley, Selector, Idler has its bit clear; `None` means no subsystem bit is set |
| ErrorConverter.FirstFault | Firmware/mmu2_error_converter.cpp:73-84 | the fault chosen has its bit set, and every fault earlier in the priority order has its bit clear; `None` means no fault bit is set |
| ErrorConverter.Classify | Firmware/mmu2_error_converter.cpp:33-111 | the identifier the converter selects: never `ERR_OTHER`; a TMC identifier only when the word has that subsystem's bit and that fault's bit set; any other identifier only when the word equals a case label |
| ErrorConverter.MMUErrorCodeIndex | Firmware/mmu2_error_converter.cpp:32-115 | a value is returned exactly when the word is classified; it is always a table element; it is the `ERR_*` value itself when that value is in the table |
| ErrorConverter.ClassifyTmc | Firmware/mmu2_error_converter.cpp:72-111 | a TMC identifier is selected if and only if the word matches no label, its subsystem is the first set subsystem bit, and its fault is the first set fault bit |
| ErrorConverter.ClassifyNone | Firmware/mmu2_error_converter.cpp:111-115 | no value is returned if and only if the word matches no label and has no subsystem bit or no fault bit set |
| ErrorConverter.PulleyBitWins | Firmware/mmu2_error_converter.cpp:72-85 | with the Pulley bit set and no label matched, the result is a Pulley identifier or nothing, never a Selector or Idler one |
| ErrorConverter.SubsystemOrder | Firmware/mmu2_error_converter.cpp:85-98 | a Selector identifier implies the Pulley bit is clear; an Idler identifier implies both the Pulley and Selector bits are clear |
| ErrorConverter.SelectorResetBeatsShortToGround | Firmware/mmu2_error_converter.cpp:85-93 | Selector with RESET and SHORT_TO_GROUND (no IOIN mismatch) gives `ERR_ELECTRICAL_SELECTOR_TMC_DRIVER_RESET` |
| ErrorConverter.SameFaultDistinctSubsystems | Firmware/mmu2_error_converter.cpp:83-110 | the same fault classified under two different subsystems gives two different identifiers |
| ErrorConverter.SameFaultDistinctEntries | Firmware/mmu2_error_converter.cpp:72-111 | the same fault under two subsystems gives two different table entries when both `ERR_*` values are in the table and differ |
| ErrorConverter.IndexOfClassified | Firmware/mmu2_error_converter.cpp:26-29 | a classified word maps to its `ERR_*` value when that value is in the table, else to the table's last entry |
| ErrorConverter.ZeroFallsOffTheEnd | Firmware/mmu2_error_converter.cpp:111-115 | as written, the word 0 (when it is no case value) reaches the end of the function with no value |
| ErrorConverter.MMUErrorCodeIndexOrOther | Firmware/mmu2_error_converter.cpp:113-114 | with the fallback restored, the converter is total, always returns a table element, and agrees with the as-written converter wherever that returns a value |
| Mmu2.ResetFormValue | Firmware/mmu2.h:56-60 | the value of a reset form is one of 0, 1 and 2 |
| Mmu2.ResetFormOf | Firmware/mmu2.h:56-60 | a byte decodes to the reset form whose value it is; bytes above 2 decode to none |
| Mmu2.ResetFormRoundTrip | Firmware/mmu2.h:56-60 | decoding a reset form's value gives the form back |
| Mmu2.ReportErrorSourceValue | Firmware/mmu2.h:71-74 | the value of an error source is 0 or 1 |
| Mmu2.ReportErrorSourceOf | Firmware/mmu2.h:71-74 | a byte decodes to the error source whose value it is; bytes above 1 decode to none |
| Mmu2.ReportErrorSourceRoundTrip | Firmware/mmu2.h:71-74 | decoding an error source's value gives the source back |
| Mmu2.EncodeSaved | Firmware/mmu2.h:63-68 | the flags are distinct single bits: any combination decodes back to itself, uses only the three flag bits, and is `None` exactly when no flag is set |
| Mmu2.DecodeSaved | Firmware/mmu2.h:63-68 | a byte decodes to some flag exactly when one of the three `SavedState` bits is set in it |
| Mmu2.EncodeDecodeSaved | Firmware/mmu2.h:63-68 | a byte using only the three flag bits is the encoding of the flags it holds |
| Mmu2.MMU2.constructor | Firmware/mmu2.h:240-242 | initially the last progress code is `OK`, the last error code is `MMU_NOT_RESPONDING`, and the last button is `NoButton` |
| Mmu2.MMU2.State | Firmware/mmu2.h:50 | returns the connectivity state and changes nothing |
| Mmu2.MMU2.Enabled | Firmware/mmu2.h:53 | true exactly when the state is `Active` |
| Mmu2.MMU2.GetMMUFWVersion | Firmware/mmu2.h:154-160 | the logic's major, minor and build when enabled; `0.0.0` in every other state |
| Mmu2.MMU2.NonZeroVersionOnlyWhenActive | Firmware/mmu2.h:154-160 | a non-zero version is reported only in the `Active` state |
| Mmu2.MMU2.PrintSaved | Firmware/mmu2.h:166 | true exactly when `mmu_print_saved` differs from `SavedState::None` |
| Mmu2.MMU2.PrintSavedIffSomeFlag | Firmware/mmu2.h:63-68 | in a valid state, "saved" means some `SavedState` flag is set |
| Mmu2.MMU2.GetPreviousTool | Firmware/mmu2.h:131-132 | returns `previous_extruder` unchanged, which is a slot 0-4 or `FILAMENT_UNKNOWN` in a valid state |
| Mmu2.MMU2.FindaDetectsFilament | Firmware/mmu2.h:146-147 | forwards the protocol logic's FINDA reading |
| Mmu2.MMU2.MMUCurrentErrorCode | Firmware/mmu2.h:149-150 | forwards the protocol logic's current error code |

## Left out

- `TranslateErr` (`Firmware/mmu2_error_converter.cpp:117-126`) is text rendering with `snprintf` and AVR program-memory tables, so it is not modelled.
- The numeric values of `ErrorCode`, the TMC masks, the `ERR_*` constants and `errorCodes[]` are in `mmu2/error_codes.h` and `mmu2/errors_list.h`. Those headers are not part of this model, so the values are a parameter. The TMC masks are not constrained at all.
- The bodies of `MMU2` (constructor, `Start`, `Stop`, `Reset`, `PowerOn`, `PowerOff`, `mmu_loop`, `tool_change`, `unload`, `load_filament`, `load_filament_to_nozzle`, `eject_filament`, `cut_filament`, `load_to_bondtech`, `get_current_tool`, `get_tool_change_tool`, `set_filament_type`, `Button`, `Home`, `manage_response`, `LogicStep`, `SaveAndPark`, `ResumeHotendTemp`, `ResumeUnpark`, `WaitForMMUReady` and the other private members) are in `mmu2.cpp`, which is not part of this model. The same applies to the protocol logic (`mmu2_protocol_logic.h`). The class keeps their fields, and `ProtocolLogic` keeps only the values the inline queries read.
- Mmu2.MMU2.constructor: states only the three default member initialisers of the header. The other initial values are set in `mmu2.cpp`, so the constructor does not establish `Valid()`.
- Mmu2.MMU2.GetPreviousTool: the "slot 0-4 or `0xff`" promise is stated under `Valid()`, because the code that assigns `previous_extruder` is in `mmu2.cpp`.
- `Valid()` does not constrain `extruder` or `tool_change_extruder`. The queries that turn them into slot numbers are in `mmu2.cpp`.
- Whether `Cooldown` and `CooldownPending` can both be set depends on `SaveAndPark` and `ResumeHotendTemp`, whose bodies are not shown. `Valid()` does not exclude it.
- `logicStepLastStatus` (type `StepStatus`, defined in the protocol logic) is not a field of the model. No shown member reads it.
- `ProgressCode` and `Buttons` keep only the values the header names (`OK`, `NoButton`). Their other values are defined outside this model.
- `resume_position` is three floats, modelled as three reals that nothing reads.
- The `const` accessors are Dafny functions, which cannot change a field. Their being side-effect free holds by construction and is not a separate lemma.
- `Firmware/sim_nozzle.cpp`, `Firmware/sim_nozzle.h` (a floating-point thermal simulation) and `Firmware/mmu2_log.h` (serial logging macros) are not modelled.

## Findings

| source | as written | input that shows it | evidently intended | confidence | as-written member | corrected member |
|---|---|---|---|---|---|---|
| Firmware/mmu2_error_converter.cpp:111-115 | the generic `return FindError(ERR_OTHER)` is commented out. A word that matches no case label and no subsystem-plus-fault pair flows off the end of a function returning `uint16_t`, which is undefined behaviour in C++ | `ec = 0`, when 0 is not one of the case values: it matches no label and has no subsystem bit | return the table entry of `ERR_OTHER` for such words | not executed; the missing return follows from the control flow as written | ErrorConverter.ZeroFallsOffTheEnd | ErrorConverter.MMUErrorCodeIndexOrOther |
