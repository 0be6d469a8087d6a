/** The crash solver: a per-region table of known crash signatures matched
    against the normalised crash record. Only the United States signature
    addresses are known; only the invalid-tickflow rule is implemented. */
module Solve {
  import opened Common
  import opened Saltwater
  import opened Crash

  type i32 = x: int | -0x8000_0000 <= x < 0x8000_0000

  datatype SceneLoadDiagnosis = Generic(scene: u32) | LowSlotLayout(slot: i32)

  /** `SolveDiagnosis`: what a matched signature says about the crash. */
  datatype SolveDiagnosis =
    | InvalidTickflowAddress(far: Option<u32>)
    | NoEffectMemory
    | SceneLoadingError(scene: SceneLoadDiagnosis)
    | NonExecRegion(pc: u32)

  /** The regions the solver can run for: UNK is unreachable and JP/EU/KR
      reach a `todo!()`, both of which abort. */
  predicate SignaturesKnown(region: Region) {
    region == US
  }

  /** The pc at which the game's tickflow interpreter faults on a bad address. */
  function InvalidTickflowAddressPc(region: Region): (pc: u32)
    requires SignaturesKnown(region)
    ensures 0x0010_0000 <= pc < 0x0400_0000
  {
    0x0011e764
  }

  /** `SolveDiagnosis::find_matches`, with `region` the region the crash
      record resolves to. A crash at the invalid-tickflow pc is diagnosed as
      such, carrying the fault address exactly as recorded; nothing else is. */
  function FindMatches(crash: CrashInfo, region: Region): (r: seq<SolveDiagnosis>)
    requires SignaturesKnown(region)
    ensures |r| <= 1
    ensures |r| == 1 <==> crash.pc == InvalidTickflowAddressPc(region)
    ensures forall d :: d in r ==> d == InvalidTickflowAddress(crash.far)
  {
    if crash.pc == InvalidTickflowAddressPc(region) then [InvalidTickflowAddress(crash.far)] else []
  }

  /** The solver never reports the memory, scene-loading or non-executable
      diagnoses: their rules are not written yet. */
  lemma OnlyTickflowDiagnosed(crash: CrashInfo, region: Region, d: SolveDiagnosis)
    requires SignaturesKnown(region)
    requires d in FindMatches(crash, region)
    ensures !d.NoEffectMemory? && !d.SceneLoadingError? && !d.NonExecRegion?
  {
  }

  /** The diagnosis depends on the pc and the fault address alone: two crash
      records that agree on those are diagnosed identically. */
  lemma DependsOnPcAndFar(a: CrashInfo, b: CrashInfo, region: Region)
    requires SignaturesKnown(region)
    requires a.pc == b.pc && a.far == b.far
    ensures FindMatches(a, region) == FindMatches(b, region)
  {
  }

  /** A US crash at pc 0x0011e764 gets exactly the tickflow diagnosis,
      carrying the crash's own fault address, present or absent; at any
      other pc it gets none. */
  lemma TickflowScenario(crash: CrashInfo)
    ensures crash.pc == 0x0011e764 ==> FindMatches(crash, US) == [InvalidTickflowAddress(crash.far)]
    ensures crash.pc != 0x0011e764 ==> FindMatches(crash, US) == []
  {
  }
}
