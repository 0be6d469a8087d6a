/** The pure parts of the `saltwater` report command: the fault status line,
    the register block (extended dumps only), the status-register cells and
    the five-entry call-stack listing. */
module SaltwaterReport {
  import opened Common
  import opened Text
  import opened ExcKind
  import opened Saltwater
  import opened FaultStatus
  import opened RegisterText

  // ---------------------------------------------------------------------------
  // Fault status

  /** The fault line of a Saltwater dump: status A is the data fault status and
      status B the instruction fault status. */
  function SaltwaterFaultLine(table: FaultTable, d: CrashSWD): (line: string)
    ensures line == "" <==> !IsAbort(d.exceptionType)
    ensures d.exceptionType.DataAbort? ==>
              line == "Fault status: " + Describe(table, DataAbortCode(d.statusA)) + "\n"
    ensures d.exceptionType.PrefetchAbort? ==>
              line == "Fault status: " + Describe(table, PrefetchAbortCode(d.statusB)) + "\n"
  {
    FaultLine(table, d.exceptionType, d.statusA, d.statusB)
  }

  // ---------------------------------------------------------------------------
  // Registers

  /** The names of the fourteen extended registers, r0..r12 and sp. */
  function ExtendedNames(): (names: seq<Label>)
    ensures |names| == 14
    ensures names == GeneralNames[..14]
  {
    GeneralNames[..14]
  }

  /** The r0..sp block: seven lines for an extended dump, nothing for a short
      one. An extended dump must come with its registers (they are unwrapped). */
  function ExtendedBlock(d: CrashSWD, registers: Option<ExtendedRegisters>): (text: string)
    requires d.crashType == Extended ==> registers.Some?
    ensures text == "" <==> d.crashType == Short
    ensures d.crashType == Extended ==> |text| == 7 * LineWidth
  {
    if d.crashType == Extended then PairLines(ExtendedNames(), registers.value) else ""
  }

  /** Each extended register reads back from its column of the block. */
  lemma ExtendedBlockReadBack(d: CrashSWD, registers: Option<ExtendedRegisters>, i: nat)
    requires d.crashType == Extended && registers.Some?
    requires i < 14
    ensures ValuePos(i) + 8 <= |ExtendedBlock(d, registers)|
    ensures ParseHexU32(ExtendedBlock(d, registers)[ValuePos(i)..ValuePos(i) + 8]) == Some(registers.value[i])
  {
    PairLinesParseBack(ExtendedNames(), registers.value, i);
  }

  /** The line that follows the block in every dump: lr and pc. */
  function LrPcLine(d: CrashSWD): (line: string)
    ensures |line| == LineWidth
    ensures ParseHexU32(line[8..16]) == Some(d.lr)
    ensures ParseHexU32(line[28..36]) == Some(d.pc)
  {
    PairLineValues("lr", d.lr, "pc", d.pc);
    ParseHex8(d.lr);
    ParseHex8(d.pc);
    PairLine("lr", d.lr, "pc", d.pc)
  }

  // ---------------------------------------------------------------------------
  // Status registers

  /** The status-register cells, chosen by the names the exception kind gives
      its two status registers (that naming is not part of this model, so the
      names are a parameter): no first name shows nothing, a first name alone
      shows status A, two names show status A then status B. */
  function StatusDisplay(names: (Option<string>, Option<string>), a: u32, b: u32): (text: string)
    ensures text == "" <==> names.0.None?
    ensures names.0.Some? && names.1.None? ==>
              text == PadRight(names.0.value, 8) + Hex8(a)
    ensures names.0.Some? && names.1.Some? ==>
              text == PadRight(names.0.value, 8) + Hex8(a) + "    " + PadRight(names.1.value, 8) + Hex8(b)
  {
    match names
    case (None, _) => ""
    case (Some(c), None) => PadRight(c, 8) + Hex8(a)
    case (Some(c), Some(e)) => PadRight(c, 8) + Hex8(a) + "    " + PadRight(e, 8) + Hex8(b)
  }

  /** With a single name only status A is shown: status B has no influence on
      the text, even though a prefetch abort's fault code is taken from it. */
  lemma StatusDisplayIgnoresB(names: (Option<string>, Option<string>), a: u32, b1: u32, b2: u32)
    requires names.1.None?
    ensures StatusDisplay(names, a, b1) == StatusDisplay(names, a, b2)
  {
  }

  /** Status A reads back from the column after the first label. */
  lemma StatusAReadBack(names: (Option<string>, Option<string>), a: u32, b: u32)
    requires names.0.Some?
    ensures var p := |PadRight(names.0.value, 8)|;
            var text := StatusDisplay(names, a, b);
            p + 8 <= |text| && ParseHexU32(text[p..p + 8]) == Some(a)
  {
    var c := PadRight(names.0.value, 8);
    var y := c + Hex8(a);
    ParseHex8(a);
    SuffixPart(c, Hex8(a));
    if names.1.Some? {
      var e := PadRight(names.1.value, 8);
      var x := y + "    " + e;
      assert StatusDisplay(names, a, b) == x + Hex8(b);
      SliceOfPrefix(x, Hex8(b), |c|, 8);
      SliceOfPrefix(y + "    ", e, |c|, 8);
      SliceOfPrefix(y, "    ", |c|, 8);
    }
  }

  /** Status B reads back from the column after the second label. */
  lemma StatusBReadBack(names: (Option<string>, Option<string>), a: u32, b: u32)
    requires names.0.Some? && names.1.Some?
    ensures var p := |PadRight(names.0.value, 8)| + 12 + |PadRight(names.1.value, 8)|;
            var text := StatusDisplay(names, a, b);
            p + 8 <= |text| && ParseHexU32(text[p..p + 8]) == Some(b)
  {
    var x := PadRight(names.0.value, 8) + Hex8(a) + "    " + PadRight(names.1.value, 8);
    assert StatusDisplay(names, a, b) == x + Hex8(b);
    ParseHex8(b);
    SuffixPart(x, Hex8(b));
  }

  /** Each named status value reads back from the column after its label. */
  lemma StatusDisplayReadBack(names: (Option<string>, Option<string>), a: u32, b: u32)
    requires names.0.Some?
    ensures var p := |PadRight(names.0.value, 8)|;
            var text := StatusDisplay(names, a, b);
            p + 8 <= |text| && ParseHexU32(text[p..p + 8]) == Some(a)
    ensures names.1.Some? ==>
              var p := |PadRight(names.0.value, 8)| + 12 + |PadRight(names.1.value, 8)|;
              var text := StatusDisplay(names, a, b);
              p + 8 <= |text| && ParseHexU32(text[p..p + 8]) == Some(b)
  {
    StatusAReadBack(names, a, b);
    if names.1.Some? {
      StatusBReadBack(names, a, b);
    }
  }

  // ---------------------------------------------------------------------------
  // Call stack

  /** `" - {:08x}\n"` for each entry, in index order. */
  function CallStackListing(cs: seq<u32>): (text: string)
    ensures |text| == 12 * |cs|
  {
    if |cs| == 0 then "" else " - " + Hex8(cs[0]) + "\n" + CallStackListing(cs[1..])
  }

  /** Entry i occupies columns 12·i..12·i+12: the bullet, its word, a newline. */
  lemma {:induction false} CallStackListingReadBack(cs: seq<u32>, i: nat)
    requires i < |cs|
    ensures CallStackListing(cs)[12 * i..12 * i + 3] == " - "
    ensures CallStackListing(cs)[12 * i + 3..12 * i + 11] == Hex8(cs[i])
    ensures CallStackListing(cs)[12 * i + 11] == '\n'
    decreases |cs|
  {
    var head := " - " + Hex8(cs[0]) + "\n";
    var rest := CallStackListing(cs[1..]);
    assert CallStackListing(cs) == head + rest;
    if i > 0 {
      CallStackListingReadBack(cs[1..], i - 1);
      var q := 12 * (i - 1);
      assert 12 * i == |head| + q;
      SliceOfSuffix(head, rest, q, 3);
      SliceOfSuffix(head, rest, q + 3, 8);
      assert (head + rest)[|head| + q + 11] == rest[q + 11];
    } else {
      SliceOfPrefix(head, rest, 0, 3);
      SliceOfPrefix(head, rest, 3, 8);
      assert head[..3] == " - " && head[3..11] == Hex8(cs[0]);
    }
  }

  /** The listing determines the call stack: each entry parses back from its
      line, so two stacks with the same listing are equal. */
  lemma CallStackListingInjective(a: seq<u32>, b: seq<u32>)
    requires CallStackListing(a) == CallStackListing(b)
    ensures a == b
  {
    assert |a| == |b|;
    forall i | 0 <= i < |a|
      ensures a[i] == b[i]
    {
      CallStackListingReadBack(a, i);
      CallStackListingReadBack(b, i);
      Hex8Injective(a[i], b[i]);
    }
  }

  /** A dump's call stack always lists exactly five lines. */
  lemma CallStackFiveLines(d: CrashSWD)
    ensures |CallStackListing(d.callStack)| == 60
    ensures forall i :: 0 <= i < CallStackSize ==>
              ParseHexU32(CallStackListing(d.callStack)[12 * i + 3..12 * i + 11]) == Some(d.callStack[i])
  {
    forall i | 0 <= i < CallStackSize
      ensures ParseHexU32(CallStackListing(d.callStack)[12 * i + 3..12 * i + 11]) == Some(d.callStack[i])
    {
      CallStackListingReadBack(d.callStack, i);
      ParseHex8(d.callStack[i]);
    }
  }

  // ---------------------------------------------------------------------------
  // The report body

  /** The report's tail after the lr/pc line: the status cells, the
      call-stack heading and the listing. */
  function StatusAndStack(d: CrashSWD, names: (Option<string>, Option<string>)): (text: string)
    ensures |text| == |StatusDisplay(names, d.statusA, d.statusB)| + 19 + 12 * CallStackSize
  {
    StatusDisplay(names, d.statusA, d.statusB) + "\nCall stack (wip):\n" + CallStackListing(d.callStack)
  }

  /** Where the four parts of the section lie. */
  lemma SectionPieces(head: string, block: string, line: string, rest: string)
    ensures var t := head + block + line + rest;
            var p := |head| + |block|;
            && t[..|head|] == head
            && t[|head|..p] == block
            && t[p..p + |line|] == line
            && t[p + |line|..] == rest
  {
    var t := head + block + line + rest;
    var p := |head| + |block|;
    PiecesOfFour(head, block, line, rest);
    LastOfFour(head, block, line, rest);
  }

  /** The register and call-stack part of the report: the heading, the r0..sp
      block, the lr/pc line and the status cells with the call stack, in that
      order. */
  function RegisterSection(d: CrashSWD, registers: Option<ExtendedRegisters>,
                           names: (Option<string>, Option<string>)): (text: string)
    requires d.crashType == Extended ==> registers.Some?
    ensures var n := |ExtendedBlock(d, registers)|;
            && |text| == 16 + n + LineWidth + |StatusAndStack(d, names)|
            && text[..16] == "\nRegister dump:\n"
            && text[16..16 + n] == ExtendedBlock(d, registers)
            && text[16 + n..16 + n + LineWidth] == LrPcLine(d)
            && text[16 + n + LineWidth..] == StatusAndStack(d, names)
  {
    var text := "\nRegister dump:\n" + ExtendedBlock(d, registers) + LrPcLine(d) + StatusAndStack(d, names);
    SectionPieces("\nRegister dump:\n", ExtendedBlock(d, registers), LrPcLine(d), StatusAndStack(d, names));
    text
  }

  /** Wherever the lr/pc line sits in a text, lr and pc parse back from
      columns 8 and 28 after its start. */
  lemma LrPcPlaced(text: string, p: nat, d: CrashSWD)
    requires p + LineWidth <= |text| && text[p..p + LineWidth] == LrPcLine(d)
    ensures p + 36 <= |text|
    ensures ParseHexU32(text[p + 8..p + 16]) == Some(d.lr)
    ensures ParseHexU32(text[p + 28..p + 36]) == Some(d.pc)
  {
    ParseInSlice(text, p, LrPcLine(d), 8, d.lr);
    ParseInSlice(text, p, LrPcLine(d), 28, d.pc);
  }

  /** lr and pc parse back from columns 8 and 28 of their line in the
      section, which follows the heading and the r0..sp block. */
  lemma RegisterSectionLrPc(d: CrashSWD, registers: Option<ExtendedRegisters>,
                            names: (Option<string>, Option<string>))
    requires d.crashType == Extended ==> registers.Some?
    ensures var text := RegisterSection(d, registers, names);
            var n := |ExtendedBlock(d, registers)|;
            && 16 + n + 36 <= |text|
            && ParseHexU32(text[16 + n + 8..16 + n + 16]) == Some(d.lr)
            && ParseHexU32(text[16 + n + 28..16 + n + 36]) == Some(d.pc)
  {
    LrPcPlaced(RegisterSection(d, registers, names), 16 + |ExtendedBlock(d, registers)|, d);
  }

  /** In an extended dump's section, each of r0..sp parses back from its
      column of the block, sixteen characters in. */
  lemma RegisterSectionReadBack(d: CrashSWD, registers: Option<ExtendedRegisters>,
                                names: (Option<string>, Option<string>), i: nat)
    requires d.crashType == Extended && registers.Some?
    requires i < 14
    ensures var text := RegisterSection(d, registers, names);
            16 + ValuePos(i) + 8 <= |text|
            && ParseHexU32(text[16 + ValuePos(i)..16 + ValuePos(i) + 8]) == Some(registers.value[i])
  {
    ExtendedBlockReadBack(d, registers, i);
    ParseInSlice(RegisterSection(d, registers, names), 16, ExtendedBlock(d, registers), ValuePos(i), registers.value[i]);
  }
}
