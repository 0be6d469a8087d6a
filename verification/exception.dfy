/** The ARM exception kinds a crash dump records, and their numeric decoding
    (`ExcType` with its `TryFrom<u32>` and `TryFrom<u8>` conversions). */
module ExcKind {
  import opened Common

  datatype ExcType = FloatingPoint | UndefinedInst | PrefetchAbort | DataAbort

  /** The numeric code each kind is stored as in a dump. */
  function Code(e: ExcType): (c: u32)
    ensures c < 4
  {
    match e
    case FloatingPoint => 0
    case UndefinedInst => 1
    case PrefetchAbort => 2
    case DataAbort => 3
  }

  /** `ExcType::try_from(value: u32)`: codes 0..3 decode, every other word is rejected. */
  function FromU32(value: u32): (r: Option<ExcType>)
    ensures r.Some? <==> value < 4
    ensures r.Some? ==> Code(r.value) == value
  {
    match value
    case 0 => Some(FloatingPoint)
    case 1 => Some(UndefinedInst)
    case 2 => Some(PrefetchAbort)
    case 3 => Some(DataAbort)
    case _ => None
  }

  /** `ExcType::try_from(value: u8)`: the byte widened to u32 and decoded as such. */
  function FromU8(value: u8): (r: Option<ExcType>)
    ensures r.Some? <==> value < 4
  {
    FromU32(value as u32)
  }

  /** Each kind's code decodes back to that kind. */
  lemma DecodeCode(e: ExcType)
    ensures FromU32(Code(e)) == Some(e)
    ensures FromU8(Code(e)) == Some(e)
  {
  }

  /** Decoding agrees with the code table on 0..3 and is injective there. */
  lemma DecodeInjective(a: u32, b: u32)
    requires FromU32(a).Some? && FromU32(a) == FromU32(b)
    ensures a == b
  {
  }

  /** A byte and the same value as a word decode identically. */
  lemma ByteAgreesWithWord(value: u8)
    ensures FromU8(value) == FromU32(value)
  {
  }
}
