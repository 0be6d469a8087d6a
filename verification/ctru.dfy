/** The `ctru` command: the result code given as decimal or as `0x`-prefixed
    hex, split into its description, module, summary and level fields, each
    named through the lookup tables. */
module Ctru {
  import opened Common
  import opened Text
  import opened CtruTables

  // ---------------------------------------------------------------------------
  // Parsing the argument

  /** A leading sign, if any: the sign factor and where the digits start. */
  function SignOf(s: string): (r: (int, nat))
    ensures r.0 == 1 || r.0 == -1
    ensures r.1 <= 1 && r.1 <= |s|
    ensures r.1 == 1 <==> |s| > 0 && (s[0] == '+' || s[0] == '-')
    ensures r.0 == -1 <==> |s| > 0 && s[0] == '-'
  {
    if |s| > 0 && s[0] == '-' then (-1, 1)
    else if |s| > 0 && s[0] == '+' then (1, 1)
    else (1, 0)
  }

  predicate AllDecimal(s: string) {
    forall i :: 0 <= i < |s| ==> IsDecimalDigit(s[i])
  }

  predicate AllHex(s: string) {
    forall i :: 0 <= i < |s| ==> IsHexDigit(s[i])
  }

  /** Python's `int(s)`: an optional sign, then one or more decimal digits. */
  function ParseDecimal(s: string): (r: Option<int>)
    ensures r.Some? <==> |s| > SignOf(s).1 && AllDecimal(s[SignOf(s).1..])
    ensures r.Some? ==> r.value == SignOf(s).0 * DecimalValue(s[SignOf(s).1..])
  {
    var (sign, start) := SignOf(s);
    var digits := s[start..];
    if |digits| > 0 && AllDecimal(digits) then Some(sign * DecimalValue(digits)) else None
  }

  /** Where the hex digits start after an optional `0x`/`0X` prefix, which
      `int(s, 16)` also accepts. */
  function HexStart(s: string): (k: nat)
    ensures k == 0 || k == 2
    ensures k <= |s|
  {
    if |s| >= 2 && s[0] == '0' && (s[1] == 'x' || s[1] == 'X') then 2 else 0
  }

  /** Python's `int(s, 16)`: an optional sign, an optional `0x` prefix, then one
      or more hex digits of either case. */
  function ParseHexInt(s: string): (r: Option<int>)
    ensures var (sign, start) := SignOf(s);
            var body := s[start..];
            var digits := body[HexStart(body)..];
            && (r.Some? <==> |digits| > 0 && AllHex(digits))
            && (r.Some? ==> r.value == sign * DigitsValue(digits))
  {
    var (sign, start) := SignOf(s);
    var body := s[start..];
    var digits := body[HexStart(body)..];
    if |digits| > 0 && AllHex(digits) then Some(sign * DigitsValue(digits)) else None
  }

  /** The argument as the command reads it: hex after a literal `0x`, decimal
      otherwise. `None` stands for the `ValueError` that ends the command. */
  function ParseCode(arg: string): (r: Option<int>)
    ensures |arg| >= 2 && arg[..2] == "0x" ==> r == ParseHexInt(arg[2..])
    ensures !(|arg| >= 2 && arg[..2] == "0x") ==> r == ParseDecimal(arg)
  {
    if |arg| >= 2 && arg[..2] == "0x" then ParseHexInt(arg[2..]) else ParseDecimal(arg)
  }

  /** A code written as `0x` and eight hex digits reads back as that code. */
  lemma ParseHexCode(e: u32)
    ensures ParseCode("0x" + Hex8(e)) == Some(e)
  {
    var arg := "0x" + Hex8(e);
    var h := Hex8(e);
    assert arg[..2] == "0x";
    assert arg[2..] == h;
    assert h[0] != '-' && h[0] != '+';
    assert SignOf(h) == (1, 0);
    assert h[0..] == h;
    assert h[1] != 'x' && h[1] != 'X';
    assert HexStart(h) == 0;
    assert Pow16(8) == 0x1_0000_0000;
    DigitsValueOfHexN(e, 8);
  }

  /** A code written in decimal, as Python's `str` writes it, reads back as
      that code, negative codes included. */
  lemma ParseDecimalCode(e: int)
    ensures ParseCode(IntToString(e)) == Some(e)
  {
    var s := IntToString(e);
    var n := if e < 0 then -e else e;
    var digits := NatToString(n);
    DecimalValueOfNatToString(n);
    if e < 0 {
      assert s == "-" + digits;
      assert s[1..] == digits;
      assert s[0] == '-';
    } else {
      assert s == digits;
      assert s[0] != '-' && s[0] != '+' by {
        assert IsDecimalDigit(digits[0]);
      }
      assert s[0..] == s;
    }
    assert !(|s| >= 2 && s[..2] == "0x") by {
      if |s| >= 2 {
        if e < 0 {
          assert s[0] == '-';
          assert s[..2][0] == '-';
        } else {
          assert IsDecimalDigit(s[1]);
          assert s[..2][1] == s[1];
        }
      }
    }
  }

  // ---------------------------------------------------------------------------
  // Fields

  /** The four named fields of a result code. */
  datatype CtruFields = CtruFields(description: int, moduleCode: int, summary: int, level: int)

  /** `err & 0x3FF`, `(err >> 10) & 0xFF`, `(err >> 21) & 0x3F`, `err >> 27` on
      Python's unbounded two's-complement integers: floor shifts and
      non-negative masks, which Dafny's `/` and `%` give for positive divisors. */
  function Fields(e: int): (f: CtruFields)
    ensures 0 <= f.description < 0x400
    ensures 0 <= f.moduleCode < 0x100
    ensures 0 <= f.summary < 0x40
    ensures 0 <= e < 0x1_0000_0000 ==> 0 <= f.level < 0x20
    ensures e < 0 ==> f.level < 0
  {
    CtruFields(e % 0x400, (e / 0x400) % 0x100, (e / 0x20_0000) % 0x40, e / 0x800_0000)
  }

  /** Bits 18..20, which the command does not decode. */
  function Reserved(e: int): (u: int)
    ensures 0 <= u < 8
  {
    (e / 0x4_0000) % 8
  }

  /** Reassembles a code from its fields with the reserved bits clear. */
  function Encode(f: CtruFields): int {
    f.level * 0x800_0000 + f.summary * 0x20_0000 + f.moduleCode * 0x400 + f.description
  }

  /** Shifting by 10 then 8 bits is shifting by 18. */
  lemma Shift10Then8(e: int)
    ensures (e / 0x400) / 0x100 == e / 0x4_0000
  {
  }

  /** Shifting by 18 then 3 bits is shifting by 21. */
  lemma Shift18Then3(e: int)
    ensures (e / 0x4_0000) / 8 == e / 0x20_0000
  {
  }

  /** Shifting by 21 then 6 bits is shifting by 27. */
  lemma Shift21Then6(e: int)
    ensures (e / 0x20_0000) / 0x40 == e / 0x800_0000
  {
  }

  /** The fields and the reserved bits are all of the code. */
  lemma Decompose(e: int)
    ensures e == Encode(Fields(e)) + Reserved(e) * 0x4_0000
  {
    var q1 := e / 0x400;
    var q2 := e / 0x4_0000;
    var q3 := e / 0x20_0000;
    var q4 := e / 0x800_0000;
    Shift10Then8(e);
    Shift18Then3(e);
    Shift21Then6(e);
    assert e == q1 * 0x400 + e % 0x400;
    assert q1 == q2 * 0x100 + q1 % 0x100;
    assert q2 == q3 * 8 + q2 % 8;
    assert q3 == q4 * 0x40 + q3 % 0x40;
  }

  /** Encoding in-range fields and decoding gives the fields back. */
  lemma FieldsOfEncode(f: CtruFields)
    requires 0 <= f.description < 0x400 && 0 <= f.moduleCode < 0x100 && 0 <= f.summary < 0x40
    ensures Fields(Encode(f)) == f
    ensures Reserved(Encode(f)) == 0
  {
    FieldsWithReserved(f, 0);
    var e := Encode(f);
    var q2 := f.level * 0x200 + f.summary * 8;
    assert e == q2 * 0x4_0000 + (f.moduleCode * 0x400 + f.description);
    assert e / 0x4_0000 == q2;
    assert q2 == (f.level * 0x40 + f.summary) * 8;
  }

  /** A code whose reserved bits are clear is recovered from its fields. */
  lemma EncodeFields(e: int)
    requires Reserved(e) == 0
    ensures Encode(Fields(e)) == e
  {
    Decompose(e);
  }

  /** Decoding in-range fields with any reserved bits set gives the fields. */
  lemma FieldsWithReserved(f: CtruFields, u: int)
    requires 0 <= f.description < 0x400 && 0 <= f.moduleCode < 0x100 && 0 <= f.summary < 0x40
    requires 0 <= u < 8
    ensures Fields(Encode(f) + u * 0x4_0000) == f
  {
    var e := Encode(f) + u * 0x4_0000;
    var q1 := f.level * 0x2_0000 + f.summary * 0x800 + u * 0x100 + f.moduleCode;
    assert e == q1 * 0x400 + f.description;
    assert e / 0x400 == q1 && e % 0x400 == f.description;
    var q2 := f.level * 0x200 + f.summary * 8 + u;
    assert q1 == q2 * 0x100 + f.moduleCode;
    assert q1 % 0x100 == f.moduleCode;
    var q3 := f.level * 0x40 + f.summary;
    assert e == q3 * 0x20_0000 + (u * 0x4_0000 + f.moduleCode * 0x400 + f.description);
    assert e / 0x20_0000 == q3;
    assert q3 % 0x40 == f.summary;
    assert e == f.level * 0x800_0000 + (f.summary * 0x20_0000 + u * 0x4_0000 + f.moduleCode * 0x400 + f.description);
    assert e / 0x800_0000 == f.level;
  }

  /** Setting the reserved bits to anything leaves every field unchanged:
      codes that differ only there decode identically. */
  lemma ReservedIgnored(e: int, u: int)
    requires 0 <= u < 8
    ensures Fields(e + (u - Reserved(e)) * 0x4_0000) == Fields(e)
  {
    Decompose(e);
    FieldsWithReserved(Fields(e), u);
  }

  // ---------------------------------------------------------------------------
  // The report

  /** The embed the command sends: its title and its description. */
  datatype CtruReport = CtruReport(title: string, body: string)

  /** The report body for a code's fields. */
  function ReportBody(f: CtruFields): string {
    "In module " + ModuleName(f.moduleCode) + ":\n\t- Summary: " + SummaryName(f.summary)
      + "\n\t- Level: " + LevelName(f.level) + "\n\t- Description: "
      + DescriptionName(f.description) + " (" + IntToString(f.description) + ")"
  }

  /** The whole command: `None` when the argument does not parse. */
  function CtruCommand(arg: string): (r: Option<CtruReport>)
    ensures r.Some? <==> ParseCode(arg).Some?
    ensures r.Some? ==> r.value.title == "Nintendo error code " + arg
    ensures r.Some? ==> r.value.body == ReportBody(Fields(ParseCode(arg).value))
  {
    match ParseCode(arg)
    case None => None
    case Some(e) => Some(CtruReport("Nintendo error code " + arg, ReportBody(Fields(e))))
  }

  /** Writing a code in hex or in decimal yields the same report body. */
  lemma HexAndDecimalAgree(e: u32)
    ensures CtruCommand("0x" + Hex8(e)).Some? && CtruCommand(IntToString(e)).Some?
    ensures CtruCommand("0x" + Hex8(e)).value.body == CtruCommand(IntToString(e)).value.body
  {
    ParseHexCode(e);
    ParseDecimalCode(e);
  }
}
