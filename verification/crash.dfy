/** The crash record both dump formats are normalised into (`CrashInfo`),
    and the identity of the modding engine that produced the crash. */
module Crash {
  import opened Common
  import Saltwater

  /** `ModdingEngine`: RHMPatch carries nothing; SpiceRack carries the
      Saltwater plugin's version and the game region. */
  datatype ModdingEngine =
    | RHMPatch
    | SpiceRack(version: Saltwater.SWDVersion, region: Saltwater.Region)

  /** `[u32; 13]`: r0..r12. */
  type GeneralRegisters = s: seq<u32> | |s| == 13 witness [0, 0, 0, 0, 0, 0, 0, 0, 0, 0, 0, 0, 0]

  /** `CrashInfo`: thirteen general registers and sp/lr/pc/cpsr are always
      present; each fault field, the raw stack and the call stack may each be
      absent on its own. */
  datatype CrashInfo = CrashInfo(
    engine: ModdingEngine,
    r: GeneralRegisters,
    sp: u32,
    lr: u32,
    pc: u32,
    cpsr: u32,
    dfsr: Option<u32>,
    ifsr: Option<u32>,
    far: Option<u32>,
    fpexc: Option<u32>,
    fpinst: Option<u32>,
    fpinst2: Option<u32>,
    stack: Option<seq<u8>>,
    callStack: Option<seq<u32>>)
}
