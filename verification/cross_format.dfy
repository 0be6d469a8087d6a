/** How the two report commands agree: a Luma3DS register table and a
    Saltwater one print the same lines for the same register values, and
    their fault lines coincide when the status registers correspond. */
module CrossFormat {
  import opened Common
  import opened ExcKind
  import opened Saltwater
  import opened Luma
  import opened FaultStatus
  import opened RegisterText
  import opened LumaReport
  import opened SaltwaterReport

  /** The last line of Luma's table is Saltwater's lr/pc line. */
  lemma TailLineAgrees(regs: seq<u32>, d: CrashSWD)
    requires |regs| == 16
    requires d.lr == regs[14] && d.pc == regs[15]
    ensures PairLines(GeneralNames[14..], regs[14..]) == LrPcLine(d)
  {
    var tailNames := GeneralNames[14..];
    var tailValues := regs[14..];
    assert GeneralNames[14] == "lr" && GeneralNames[15] == "pc";
    assert tailNames[0] == GeneralNames[14] && tailNames[1] == GeneralNames[15];
    PairLinesSingle(tailNames, tailValues);
  }

  /** Luma's r0..pc table is Saltwater's extended r0..sp block followed by its
      lr/pc line, when the sixteen values agree. */
  lemma GeneralTableAgrees(regs: seq<u32>, d: CrashSWD, registers: Option<ExtendedRegisters>)
    requires |regs| == 16
    requires d.crashType == Extended && registers == Some(regs[..14])
    requires d.lr == regs[14] && d.pc == regs[15]
    ensures PairLines(GeneralNames, regs) == ExtendedBlock(d, registers) + LrPcLine(d)
  {
    PairLinesPrefix(GeneralNames, regs, 14);
    TailLineAgrees(regs, d);
    assert PairLines(GeneralNames[..14], regs[..14]) == ExtendedBlock(d, registers);
  }

  /** For the same exception kind, a Luma3DS dump whose registers 17 and 18
      hold Saltwater's status A and status B reports the same fault line. */
  lemma FaultLinesAgree(table: FaultTable, l: CrashLuma, s: CrashSWD)
    requires l.exceptionType == s.exceptionType
    requires |l.registers| > 18
    requires l.registers[17] == s.statusA && l.registers[18] == s.statusB
    ensures LumaFaultLine(table, l) == SaltwaterFaultLine(table, s)
  {
  }
}
