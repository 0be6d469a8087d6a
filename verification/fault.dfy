/** Fault-status reporting shared by the Luma3DS and Saltwater report
    commands: the fault code derived from the data or instruction fault status
    register, its description from the fault table, and the report line. */
module FaultStatus {
  import opened Common
  import opened ExcKind

  /** `FAULT_STATUS_SOURCES`: an ordered list of (fault code, description).
      Its entries are not part of this model, so it is a parameter throughout. */
  type FaultTable = seq<(u32, string)>

  /** Data-abort fault code: `(dfsr & 0xf) + ((dfsr >> 10) & 1)`. */
  function DataAbortCode(dfsr: u32): (c: u32)
    ensures c <= 16
  {
    dfsr % 0x10 + (dfsr / 0x400) % 2
  }

  /** Prefetch-abort fault code: `ifsr & 0xf`. */
  function PrefetchAbortCode(ifsr: u32): (c: u32)
    ensures c <= 15
  {
    ifsr % 0x10
  }

  /** `.iter().find(|(k, _)| *k == fault).unwrap_or(&(0, "Invalid")).1`. */
  function Describe(table: FaultTable, code: u32): (d: string)
    ensures (forall j :: 0 <= j < |table| ==> table[j].0 != code) ==> d == "Invalid"
    ensures forall i :: 0 <= i < |table| && table[i].0 == code && (forall j :: 0 <= j < i ==> table[j].0 != code)
              ==> d == table[i].1
  {
    var k := FindKey(table, code);
    if k < |table| then table[k].1 else "Invalid"
  }

  /** Whether the kind has a fault status to report. */
  predicate IsAbort(e: ExcType) {
    e.DataAbort? || e.PrefetchAbort?
  }

  /** The fault code of an abort: from the data status for a data abort, from
      the instruction status for a prefetch abort. */
  function FaultCode(e: ExcType, dataStatus: u32, instrStatus: u32): u32
    requires IsAbort(e)
  {
    if e.DataAbort? then DataAbortCode(dataStatus) else PrefetchAbortCode(instrStatus)
  }

  /** The "Fault status: ...\n" line, empty for kinds other than the two aborts. */
  function FaultLine(table: FaultTable, e: ExcType, dataStatus: u32, instrStatus: u32): (line: string)
    ensures line == "" <==> !IsAbort(e)
    ensures IsAbort(e) ==>
              line == "Fault status: " + Describe(table, FaultCode(e, dataStatus, instrStatus)) + "\n"
  {
    if IsAbort(e) then "Fault status: " + Describe(table, FaultCode(e, dataStatus, instrStatus)) + "\n"
    else ""
  }

  /** Only the status register the kind names matters: a data abort ignores the
      instruction status and a prefetch abort ignores the data status. */
  lemma FaultLineReadsOneRegister(table: FaultTable, e: ExcType, d1: u32, i1: u32, d2: u32, i2: u32)
    requires e.DataAbort? ==> d1 == d2
    requires e.PrefetchAbort? ==> i1 == i2
    ensures FaultLine(table, e, d1, i1) == FaultLine(table, e, d2, i2)
  {
  }

  /** Two data-status words with equal low nibble and bit 10 describe the
      same fault, whatever their other bits. */
  lemma DataAbortCodeIgnoresOtherBits(x: u32, y: u32)
    requires x % 0x10 == y % 0x10 && (x / 0x400) % 2 == (y / 0x400) % 2
    ensures DataAbortCode(x) == DataAbortCode(y)
  {
  }
}
