/** The record types of a Saltwater (.swd) crash dump: the dump kind, the game
    region, the plugin version, the short record with its fixed call stack and
    the extended record with the register file and a stack blob. */
module Saltwater {
  import opened Common
  import opened ExcKind

  /** `SWDType`: whether the dump carries the extended register block. */
  datatype SWDType = Extended | Short

  /** `Region`, a `#[repr(u8)]` enum: four game regions and the unknown sentinel. */
  datatype Region = JP | US | EU | KR | UNK

  /** The implicit discriminant of each region: its position in the declaration. */
  function Discriminant(r: Region): (d: u8)
    ensures d < 5
  {
    match r
    case JP => 0
    case US => 1
    case EU => 2
    case KR => 3
    case UNK => 4
  }

  /** The region whose discriminant is `d`, if any. */
  function RegionOfDiscriminant(d: u8): (r: Option<Region>)
    ensures r.Some? <==> d < 5
    ensures r.Some? ==> Discriminant(r.value) == d
  {
    match d
    case 0 => Some(JP)
    case 1 => Some(US)
    case 2 => Some(EU)
    case 3 => Some(KR)
    case 4 => Some(UNK)
    case _ => None
  }

  /** Discriminants identify regions: the two conversions are inverse. */
  lemma DiscriminantRoundTrip(r: Region)
    ensures RegionOfDiscriminant(Discriminant(r)) == Some(r)
  {
  }

  /** The `{:?}` spelling of a region, its variant name. */
  function DebugName(r: Region): string {
    match r
    case JP => "JP"
    case US => "US"
    case EU => "EU"
    case KR => "KR"
    case UNK => "UNK"
  }

  /** `SWDVersion`: a debug build named by its commit hash, or a release triple. */
  datatype SWDVersion =
    | Debug(commitHash: string)
    | Release(major: u8, minor: u8, micro: u8)

  /** `CrashSWD::CALL_STACK_SIZE`. */
  const CallStackSize: nat := 5

  /** `[u32; CALL_STACK_SIZE]`. */
  type CallStack = s: seq<u32> | |s| == CallStackSize witness [0, 0, 0, 0, 0]

  /** `[u32; 14]`: r0..r12 and sp. */
  type ExtendedRegisters = s: seq<u32> | |s| == 14
    witness [0, 0, 0, 0, 0, 0, 0, 0, 0, 0, 0, 0, 0, 0]

  /** `CrashSWD`, the short record every Saltwater dump carries. */
  datatype CrashSWD = CrashSWD(
    crashType: SWDType,
    region: Region,
    exceptionType: ExcType,
    version: SWDVersion,
    pc: u32,
    lr: u32,
    cpsr: u32,
    statusA: u32,
    statusB: u32,
    callStack: CallStack)

  /** `ExtendedSWD`: a short record plus the register file and the stack bytes. */
  datatype ExtendedSWD = ExtendedSWD(short: CrashSWD, registers: ExtendedRegisters, stack: seq<u8>)
}
