/** A Luma3DS crash dump (.dmp): its version packing, processor word, the
    record (`CrashLuma`) and the parser laid out in the header comment of the
    Rust module — magic check, header words, minimum version, registers
    padded to 23 named slots, then the code, stack and extra blobs. */
module Luma {
  import opened Common
  import opened Bytes
  import opened ExcKind

  // ---------------------------------------------------------------------------
  // Version

  /** `LumaVersion`: a u16 major and u8 minor and micro. */
  datatype LumaVersion = LumaVersion(major: u16, minor: u8, micro: u8)

  /** `luma_ver(maj, min, mic) = (maj << 16) + (min << 8) + mic`. */
  function Pack(v: LumaVersion): u32 {
    v.major * 0x1_0000 + v.minor * 0x100 + v.micro
  }

  /** The version a packed word stands for. */
  function Unpack(w: u32): LumaVersion {
    LumaVersion(w / 0x1_0000, (w / 0x100) % 0x100, w % 0x100)
  }

  /** Packing loses nothing: unpacking recovers every field. */
  lemma UnpackPack(v: LumaVersion)
    ensures Unpack(Pack(v)) == v
  {
    var w := Pack(v);
    assert w == (v.major * 0x100 + v.minor) * 0x100 + v.micro;
    assert w / 0x100 == v.major * 0x100 + v.minor;
    assert w / 0x1_0000 == (w / 0x100) / 0x100;
  }

  /** Every 32-bit word is the packing of exactly one version. */
  lemma PackUnpack(w: u32)
    ensures Pack(Unpack(w)) == w
  {
    var q := w / 0x100;
    assert w == q * 0x100 + w % 0x100;
    assert q == (q / 0x100) * 0x100 + q % 0x100;
    assert w / 0x1_0000 == q / 0x100;
  }

  lemma PackInjective(a: LumaVersion, b: LumaVersion)
    requires Pack(a) == Pack(b)
    ensures a == b
  {
    UnpackPack(a);
    UnpackPack(b);
  }

  /** Release order: major first, then minor, then micro. */
  predicate OlderThan(a: LumaVersion, b: LumaVersion) {
    || a.major < b.major
    || (a.major == b.major && a.minor < b.minor)
    || (a.major == b.major && a.minor == b.minor && a.micro < b.micro)
  }

  /** Comparing packed words is comparing versions in release order, so the
      parser's `version < luma_ver(1,0,2)` rejects exactly the older releases. */
  lemma PackOrder(a: LumaVersion, b: LumaVersion)
    ensures Pack(a) < Pack(b) <==> OlderThan(a, b)
  {
    var la := a.minor * 0x100 + a.micro;
    var lb := b.minor * 0x100 + b.micro;
    assert Pack(a) == a.major * 0x1_0000 + la && la < 0x1_0000;
    assert Pack(b) == b.major * 0x1_0000 + lb && lb < 0x1_0000;
    if a.major < b.major {
      assert a.major * 0x1_0000 + 0x1_0000 <= b.major * 0x1_0000;
    } else if a.major > b.major {
      assert b.major * 0x1_0000 + 0x1_0000 <= a.major * 0x1_0000;
    }
  }

  /** `LumaVersion::MINIMUM_VERSION`, 1.0.2. */
  const MinimumVersion: LumaVersion := LumaVersion(1, 0, 2)

  // ---------------------------------------------------------------------------
  // Processor

  /** `LumaProcessor`: the Arm9, or an Arm11 core with its index. */
  datatype LumaProcessor = Arm9 | Arm11(core: u16)

  /** The processor word: kind in the low 16 bits (9 or 11), core in the high
      16 bits; any other kind is not a processor the record can hold. */
  function DecodeProcessor(word: u32): (r: Option<LumaProcessor>)
    ensures r.Some? <==> word % 0x1_0000 == 9 || word % 0x1_0000 == 11
    ensures r == Some(Arm9) <==> word % 0x1_0000 == 9
    ensures r.Some? && r.value.Arm11? ==> r.value.core == word / 0x1_0000
  {
    var kind := word % 0x1_0000;
    var core := word / 0x1_0000;
    if kind == 9 then Some(Arm9)
    else if kind == 11 then Some(Arm11(core))
    else None
  }

  /** The word a processor is stored as (the Arm9 with core 0). */
  function ProcessorWord(p: LumaProcessor): u32 {
    match p
    case Arm9 => 9
    case Arm11(core) => core * 0x1_0000 + 11
  }

  lemma DecodeProcessorWord(p: LumaProcessor)
    ensures DecodeProcessor(ProcessorWord(p)) == Some(p)
  {
  }

  // ---------------------------------------------------------------------------
  // Record and layout

  /** `CrashLuma`: the header fields, the raw register words and three blobs. */
  datatype CrashLuma = CrashLuma(
    version: LumaVersion,
    processor: LumaProcessor,
    exceptionType: ExcType,
    registers: seq<u32>,
    code: seq<u8>,
    stack: seq<u8>,
    extra: seq<u8>)

  datatype LumaError =
    | Truncated
    | NotLumaDump
    | UnsupportedVersion(found: LumaVersion)
    | InvalidProcessor(word: u32)
    | InvalidExceptionType(code: u32)

  const MagicA: u32 := 0xdeadc0de
  const MagicB: u32 := 0xdeadcafe

  /** Byte offsets of the header words. */
  const VersionOffset: nat := 8
  const ProcessorOffset: nat := 12
  const ExceptionOffset: nat := 16
  const ReservedOffset: nat := 20
  const RegisterBytesOffset: nat := 24
  const CodeSizeOffset: nat := 28
  const StackSizeOffset: nat := 32
  const ExtraSizeOffset: nat := 36
  /** The registers start right after the ten header words. */
  const RegistersOffset: nat := 40

  predicate HasMagic(f: seq<u8>)
    requires |f| >= 8
  {
    ReadU32(f, 0) == MagicA && ReadU32(f, 4) == MagicB
  }

  /** Where the code blob starts: right after `n` register words. */
  function CodePos(n: nat): nat {
    RegistersOffset + 4 * n
  }

  /** Parses a dump: magic, header, minimum version, processor, exception kind,
      `register byte count / 4` registers from offset 40, then the code, stack
      and extra blobs back to back, each a clamped slice of its declared size. */
  function ParseDump(f: seq<u8>): (r: Result<CrashLuma, LumaError>)
    ensures |f| < 8 ==> r == Failure(Truncated)
    ensures |f| >= 8 && !HasMagic(f) ==> r == Failure(NotLumaDump)
    ensures (|f| >= RegistersOffset && HasMagic(f) && OlderThan(Unpack(ReadU32(f, VersionOffset)), MinimumVersion))
              ==> r == Failure(UnsupportedVersion(Unpack(ReadU32(f, VersionOffset))))
    ensures |f| >= 8 && HasMagic(f) && |f| < RegistersOffset ==> r == Failure(Truncated)
    ensures (|f| >= RegistersOffset && HasMagic(f) && !OlderThan(Unpack(ReadU32(f, VersionOffset)), MinimumVersion)
             && DecodeProcessor(ReadU32(f, ProcessorOffset)).None?)
              ==> r == Failure(InvalidProcessor(ReadU32(f, ProcessorOffset)))
    ensures (|f| >= RegistersOffset && HasMagic(f) && !OlderThan(Unpack(ReadU32(f, VersionOffset)), MinimumVersion)
             && DecodeProcessor(ReadU32(f, ProcessorOffset)).Some? && FromU32(ReadU32(f, ExceptionOffset)).None?)
              ==> r == Failure(InvalidExceptionType(ReadU32(f, ExceptionOffset)))
    ensures (|f| >= RegistersOffset && HasMagic(f) && !OlderThan(Unpack(ReadU32(f, VersionOffset)), MinimumVersion)
             && DecodeProcessor(ReadU32(f, ProcessorOffset)).Some? && FromU32(ReadU32(f, ExceptionOffset)).Some?
             && |f| < CodePos(ReadU32(f, RegisterBytesOffset) / 4))
              ==> r == Failure(Truncated)
    ensures r.Success? ==>
              var d := r.value;
              var n := |d.registers|;
              && |f| >= CodePos(n)
              && HasMagic(f)
              && Pack(d.version) == ReadU32(f, VersionOffset)
              && !OlderThan(d.version, MinimumVersion)
              && DecodeProcessor(ReadU32(f, ProcessorOffset)) == Some(d.processor)
              && Code(d.exceptionType) == ReadU32(f, ExceptionOffset)
              && n == ReadU32(f, RegisterBytesOffset) / 4
              && d.registers == ReadWords(f, RegistersOffset, n)
              && d.code == PySlice(f, CodePos(n), ReadU32(f, CodeSizeOffset))
              && d.stack == PySlice(f, CodePos(n) + ReadU32(f, CodeSizeOffset), ReadU32(f, StackSizeOffset))
              && d.extra == PySlice(f, CodePos(n) + ReadU32(f, CodeSizeOffset) + ReadU32(f, StackSizeOffset),
                                    ReadU32(f, ExtraSizeOffset))
  {
    if |f| < 8 then Failure(Truncated)
    else if !HasMagic(f) then Failure(NotLumaDump)
    else if |f| < RegistersOffset then Failure(Truncated)
    else
      var versionWord := ReadU32(f, VersionOffset);
      var processorWord := ReadU32(f, ProcessorOffset);
      var excWord := ReadU32(f, ExceptionOffset);
      var n := ReadU32(f, RegisterBytesOffset) / 4;
      var codeSize := ReadU32(f, CodeSizeOffset);
      var stackSize := ReadU32(f, StackSizeOffset);
      var extraSize := ReadU32(f, ExtraSizeOffset);
      PackOrder(Unpack(versionWord), MinimumVersion);
      PackUnpack(versionWord);
      if versionWord < Pack(MinimumVersion) then Failure(UnsupportedVersion(Unpack(versionWord)))
      else if DecodeProcessor(processorWord).None? then Failure(InvalidProcessor(processorWord))
      else if FromU32(excWord).None? then Failure(InvalidExceptionType(excWord))
      else if |f| < CodePos(n) then Failure(Truncated)
      else
        var codePos := CodePos(n);
        var stackPos := codePos + codeSize;
        var extraPos := stackPos + stackSize;
        Success(CrashLuma(
          Unpack(versionWord),
          DecodeProcessor(processorWord).value,
          FromU32(excWord).value,
          ReadWords(f, RegistersOffset, n),
          PySlice(f, codePos, codeSize),
          PySlice(f, stackPos, stackSize),
          PySlice(f, extraPos, extraSize)))
  }

  // ---------------------------------------------------------------------------
  // Register slots

  /** `Vec::get(i)` on the register words. */
  function Get(regs: seq<u32>, i: nat): Option<u32> {
    if i < |regs| then Some(regs[i]) else None
  }

  /** The register list padded with absent entries up to 23 slots. */
  function PaddedRegisters(regs: seq<u32>): (p: seq<Option<u32>>)
    ensures |p| == if |regs| < 23 then 23 else |regs|
    ensures forall i :: 0 <= i < |regs| ==> p[i] == Some(regs[i])
    ensures forall i :: |regs| <= i < |p| ==> p[i] == None
  {
    var present := seq(|regs|, i requires 0 <= i < |regs| => Some(regs[i]));
    var padding := seq(if |regs| < 23 then 23 - |regs| else 0, _ => None);
    present + padding
  }

  /** The named registers the padded list is unpacked into. */
  datatype RegisterView = RegisterView(
    sp: Option<u32>, lr: Option<u32>, pc: Option<u32>, cpsr: Option<u32>,
    dfsr: Option<u32>, ifsr: Option<u32>, far: Option<u32>,
    fpexc: Option<u32>, fpinst: Option<u32>, fpinst2: Option<u32>)

  /** Slots 13..16 are sp/lr/pc/cpsr, 17..19 dfsr/ifsr/far, 20..22 fpexc/fpinst/fpinst2. */
  function View(regs: seq<u32>): RegisterView {
    var p := PaddedRegisters(regs);
    RegisterView(p[13], p[14], p[15], p[16], p[17], p[18], p[19], p[20], p[21], p[22])
  }

  /** The named slots are exactly what `registers.get(i)` yields for i = 13..22,
      so the padded layout and the report's lookups agree. */
  lemma ViewMatchesGet(regs: seq<u32>)
    ensures View(regs) == RegisterView(
              Get(regs, 13), Get(regs, 14), Get(regs, 15), Get(regs, 16),
              Get(regs, 17), Get(regs, 18), Get(regs, 19),
              Get(regs, 20), Get(regs, 21), Get(regs, 22))
  {
  }

  /** Each named slot is filled exactly when the dump holds a register at its
      index, so all of them are filled exactly when it holds 23 or more. */
  lemma ViewComplete(regs: seq<u32>)
    ensures View(regs).sp.Some? <==> |regs| > 13
    ensures View(regs).lr.Some? <==> |regs| > 14
    ensures View(regs).pc.Some? <==> |regs| > 15
    ensures View(regs).cpsr.Some? <==> |regs| > 16
    ensures View(regs).dfsr.Some? <==> |regs| > 17
    ensures View(regs).ifsr.Some? <==> |regs| > 18
    ensures View(regs).far.Some? <==> |regs| > 19
    ensures View(regs).fpexc.Some? <==> |regs| > 20
    ensures View(regs).fpinst.Some? <==> |regs| > 21
    ensures View(regs).fpinst2.Some? <==> |regs| > 22
    ensures (|regs| >= 23) <==> (View(regs).fpinst2.Some? && View(regs).sp.Some?)
  {
  }

  // ---------------------------------------------------------------------------
  // Encoding, the parser's partner

  /** A record that a dump can carry: every count fits its u32 header word,
      and the version is one the parser accepts. */
  predicate Encodable(d: CrashLuma) {
    && 4 * |d.registers| < 0x1_0000_0000
    && |d.code| < 0x1_0000_0000
    && |d.stack| < 0x1_0000_0000
    && |d.extra| < 0x1_0000_0000
    && !OlderThan(d.version, MinimumVersion)
  }

  function HeaderWords(d: CrashLuma): (h: seq<u32>)
    requires Encodable(d)
    ensures |h| == 10
  {
    [MagicA, MagicB, Pack(d.version), ProcessorWord(d.processor), Code(d.exceptionType), 0,
     4 * |d.registers|, |d.code|, |d.stack|, |d.extra|]
  }

  /** Writes a record in the layout the parser reads (reserved word 0). */
  function EncodeDump(d: CrashLuma): (f: seq<u8>)
    requires Encodable(d)
    ensures |f| == CodePos(|d.registers|) + |d.code| + |d.stack| + |d.extra|
  {
    EncodeWords(HeaderWords(d)) + EncodeWords(d.registers) + d.code + d.stack + d.extra
  }

  /** The ten header words of an encoded record read back unchanged. */
  lemma EncodedHeader(d: CrashLuma)
    requires Encodable(d)
    ensures var f := EncodeDump(d);
            && |f| >= RegistersOffset
            && ReadU32(f, 0) == MagicA && ReadU32(f, 4) == MagicB
            && ReadU32(f, VersionOffset) == Pack(d.version)
            && ReadU32(f, ProcessorOffset) == ProcessorWord(d.processor)
            && ReadU32(f, ExceptionOffset) == Code(d.exceptionType)
            && ReadU32(f, RegisterBytesOffset) == 4 * |d.registers|
            && ReadU32(f, CodeSizeOffset) == |d.code|
            && ReadU32(f, StackSizeOffset) == |d.stack|
            && ReadU32(f, ExtraSizeOffset) == |d.extra|
  {
    var f := EncodeDump(d);
    var h := HeaderWords(d);
    assert f == EncodeWords(h) + (EncodeWords(d.registers) + d.code + d.stack + d.extra);
    assert f[0..4 * |h|] == EncodeWords(h);
    ReadEncodeWords(f, 0, h);
    var r := ReadWords(f, 0, 10);
    assert r[0] == ReadU32(f, 0) && r[1] == ReadU32(f, 4) && r[2] == ReadU32(f, 8);
    assert r[3] == ReadU32(f, 12) && r[4] == ReadU32(f, 16) && r[6] == ReadU32(f, 24);
    assert r[7] == ReadU32(f, 28) && r[8] == ReadU32(f, 32) && r[9] == ReadU32(f, 36);
  }

  /** The register words of an encoded record read back unchanged. */
  lemma EncodedRegisters(d: CrashLuma)
    requires Encodable(d)
    ensures ReadWords(EncodeDump(d), RegistersOffset, |d.registers|) == d.registers
  {
    var f := EncodeDump(d);
    var h := HeaderWords(d);
    var rest := d.code + d.stack + d.extra;
    assert f == EncodeWords(h) + EncodeWords(d.registers) + rest;
    assert f[RegistersOffset..RegistersOffset + 4 * |d.registers|] == EncodeWords(d.registers);
    ReadEncodeWords(f, RegistersOffset, d.registers);
  }

  /** The three blobs of an encoded record are the slices the parser takes. */
  lemma EncodedBlobs(d: CrashLuma)
    requires Encodable(d)
    ensures var f := EncodeDump(d);
            var codePos := CodePos(|d.registers|);
            && PySlice(f, codePos, |d.code|) == d.code
            && PySlice(f, codePos + |d.code|, |d.stack|) == d.stack
            && PySlice(f, codePos + |d.code| + |d.stack|, |d.extra|) == d.extra
  {
    var f := EncodeDump(d);
    var pre := EncodeWords(HeaderWords(d)) + EncodeWords(d.registers);
    var codePos := CodePos(|d.registers|);
    assert |pre| == codePos;
    assert f == pre + d.code + d.stack + d.extra;
    assert f[codePos..codePos + |d.code|] == d.code;
    assert f[codePos + |d.code|..codePos + |d.code| + |d.stack|] == d.stack;
    assert f[codePos + |d.code| + |d.stack|..codePos + |d.code| + |d.stack| + |d.extra|] == d.extra;
  }

  /** The converse of the parser's success case: a buffer whose header,
      registers and blobs spell out the record `d` parses to `d`. */
  lemma ParseAccepts(f: seq<u8>, d: CrashLuma)
    requires |f| >= CodePos(|d.registers|) && HasMagic(f)
    requires ReadU32(f, VersionOffset) == Pack(d.version) && !OlderThan(d.version, MinimumVersion)
    requires DecodeProcessor(ReadU32(f, ProcessorOffset)) == Some(d.processor)
    requires ReadU32(f, ExceptionOffset) == Code(d.exceptionType)
    requires ReadU32(f, RegisterBytesOffset) / 4 == |d.registers|
    requires ReadWords(f, RegistersOffset, |d.registers|) == d.registers
    requires PySlice(f, CodePos(|d.registers|), ReadU32(f, CodeSizeOffset)) == d.code
    requires PySlice(f, CodePos(|d.registers|) + ReadU32(f, CodeSizeOffset), ReadU32(f, StackSizeOffset)) == d.stack
    requires PySlice(f, CodePos(|d.registers|) + ReadU32(f, CodeSizeOffset) + ReadU32(f, StackSizeOffset),
                     ReadU32(f, ExtraSizeOffset)) == d.extra
    ensures ParseDump(f) == Success(d)
  {
    PackOrder(d.version, MinimumVersion);
    UnpackPack(d.version);
    DecodeCode(d.exceptionType);
  }

  /** Parsing an encoded record gives the record back. */
  lemma ParseEncode(d: CrashLuma)
    requires Encodable(d)
    ensures ParseDump(EncodeDump(d)) == Success(d)
  {
    EncodedHeader(d);
    EncodedRegisters(d);
    EncodedBlobs(d);
    DecodeProcessorWord(d.processor);
    assert (4 * |d.registers|) / 4 == |d.registers|;
    ParseAccepts(EncodeDump(d), d);
  }

  /** Whatever a parse yields can be written back and re-read unchanged. */
  lemma ParsedIsEncodable(f: seq<u8>)
    requires ParseDump(f).Success?
    ensures Encodable(ParseDump(f).value)
    ensures ParseDump(EncodeDump(ParseDump(f).value)) == ParseDump(f)
  {
    var d := ParseDump(f).value;
    assert 4 * |d.registers| <= ReadU32(f, RegisterBytesOffset);
    ParseEncode(d);
  }
}
