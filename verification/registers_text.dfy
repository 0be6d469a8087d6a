/** The register table both report commands print: lines of two
    `name    {:08x}` cells separated by four spaces. */
module RegisterText {
  import opened Common
  import opened Text

  /** r0..r12, sp, lr, pc in the order both dump formats store them. */
  const GeneralNames: seq<Label> :=
    ["r0", "r1", "r2", "r3", "r4", "r5", "r6", "r7", "r8", "r9", "r10", "r11", "r12", "sp", "lr", "pc"]

  /** Width of a register label and of a printed value. */
  const CellWidth: nat := 8
  /** One line: label, value, four spaces, label, value, newline. */
  const LineWidth: nat := 37

  /** A register name that fits its eight-column label. */
  type Label = s: string | |s| <= 8

  /** `"{name:8}{value:08x}"`, the label padded to eight columns. */
  function Cell(name: Label, value: u32): (c: string)
    ensures |c| == 2 * CellWidth
    ensures c[CellWidth..] == Hex8(value)
  {
    PadRight(name, CellWidth) + Hex8(value)
  }

  /** `"{a}    {b}\n"` for two register cells. */
  function PairLine(n1: Label, v1: u32, n2: Label, v2: u32): (line: string)
    ensures |line| == LineWidth
  {
    Cell(n1, v1) + "    " + Cell(n2, v2) + "\n"
  }

  /** The register table, two registers per line in the given order. */
  function PairLines(names: seq<Label>, values: seq<u32>): (text: string)
    requires |names| == |values| && |names| % 2 == 0
    ensures |text| == 37 * (|values| / 2)
    decreases |names|
  {
    if |names| == 0 then ""
    else PairLine(names[0], values[0], names[1], values[1]) + PairLines(names[2..], values[2..])
  }

  /** Column where register i's value is printed. */
  function ValuePos(i: nat): nat {
    37 * (i / 2) + (if i % 2 == 0 then 8 else 28)
  }

  /** Both values of a line sit at columns 8 and 28. */
  lemma PairLineValues(n1: Label, v1: u32, n2: Label, v2: u32)
    ensures PairLine(n1, v1, n2, v2)[8..16] == Hex8(v1)
    ensures PairLine(n1, v1, n2, v2)[28..36] == Hex8(v2)
  {
    var c1 := Cell(n1, v1);
    var c2 := Cell(n2, v2);
    var line := c1 + "    " + c2 + "\n";
    assert line[8..16] == c1[8..];
    assert line[28..36] == c2[8..];
  }

  /** Register i's column lies one line further than register i - 2's. */
  lemma ValuePosNextLine(i: nat)
    requires i >= 2
    ensures ValuePos(i) == LineWidth + ValuePos(i - 2)
  {
  }

  /** Register i's value ends within a table of n registers. */
  lemma ValuePosBound(i: nat, n: nat)
    requires i < n && n % 2 == 0
    ensures ValuePos(i) + 8 <= LineWidth * (n / 2)
  {
  }

  /** The first two values read back from the table's first line. */
  lemma FirstLineReadBack(names: seq<Label>, values: seq<u32>, i: nat)
    requires |names| == |values| && |names| % 2 == 0
    requires i < 2 && i < |values|
    ensures ValuePos(i) + 8 <= |PairLines(names, values)|
    ensures PairLines(names, values)[ValuePos(i)..ValuePos(i) + 8] == Hex8(values[i])
  {
    var line := PairLine(names[0], values[0], names[1], values[1]);
    var rest := PairLines(names[2..], values[2..]);
    PairLinesCons(names, values);
    PairLineValues(names[0], values[0], names[1], values[1]);
    assert ValuePos(i) == (if i == 0 then 8 else 28);
    SliceOfPrefix(line, rest, ValuePos(i), 8);
  }

  /** Every register's value can be read back from its place in the table. */
  lemma {:induction false} PairLinesReadBack(names: seq<Label>, values: seq<u32>, i: nat)
    requires |names| == |values| && |names| % 2 == 0
    requires i < |values|
    ensures ValuePos(i) + 8 <= |PairLines(names, values)|
    ensures PairLines(names, values)[ValuePos(i)..ValuePos(i) + 8] == Hex8(values[i])
    decreases |names|
  {
    if i < 2 {
      FirstLineReadBack(names, values, i);
    } else {
      var line := PairLine(names[0], values[0], names[1], values[1]);
      var rest := PairLines(names[2..], values[2..]);
      ValuePosBound(i, |values|);
      PairLinesCons(names, values);
      PairLinesReadBack(names[2..], values[2..], i - 2);
      ValuePosNextLine(i);
      SliceOfSuffix(line, rest, ValuePos(i - 2), 8);
    }
  }

  /** The value text of every register parses back to the register. */
  lemma PairLinesParseBack(names: seq<Label>, values: seq<u32>, i: nat)
    requires |names| == |values| && |names| % 2 == 0
    requires i < |values|
    ensures ValuePos(i) + 8 <= |PairLines(names, values)|
    ensures ParseHexU32(PairLines(names, values)[ValuePos(i)..ValuePos(i) + 8]) == Some(values[i])
  {
    PairLinesReadBack(names, values, i);
    ParseHex8(values[i]);
  }

  /** A table is its first line followed by the table of the rest. */
  lemma PairLinesCons(names: seq<Label>, values: seq<u32>)
    requires |names| == |values| && |names| % 2 == 0 && |names| >= 2
    ensures PairLines(names, values)
            == PairLine(names[0], values[0], names[1], values[1]) + PairLines(names[2..], values[2..])
  {
  }

  /** Dropping the first line and taking the first k entries commute. */
  lemma PrefixAfterFirstLine<T>(s: seq<T>, k: nat)
    requires 2 <= k <= |s|
    ensures s[2..][k - 2..] == s[k..]
    ensures s[..k][2..] == s[2..][..k - 2]
    ensures s[..k][0] == s[0] && s[..k][1] == s[1]
  {
  }

  /** Printing the first registers of a longer table: the tables share their
      leading lines. */
  lemma {:induction false} PairLinesPrefix(names: seq<Label>, values: seq<u32>, k: nat)
    requires |names| == |values| && |names| % 2 == 0
    requires k <= |names| && k % 2 == 0
    ensures PairLines(names, values) == PairLines(names[..k], values[..k]) + PairLines(names[k..], values[k..])
    decreases k
  {
    if k > 0 {
      var n2 := names[2..];
      var v2 := values[2..];
      var nk := names[..k];
      var vk := values[..k];
      PairLinesPrefix(n2, v2, k - 2);
      PrefixAfterFirstLine(names, k);
      PrefixAfterFirstLine(values, k);
      PairLinesCons(names, values);
      PairLinesCons(nk, vk);
      ConcatAssoc(PairLine(names[0], values[0], names[1], values[1]),
                  PairLines(n2[..k - 2], v2[..k - 2]), PairLines(names[k..], values[k..]));
    } else {
      assert names[..0] == [] && values[..0] == [];
      assert names[0..] == names && values[0..] == values;
    }
  }

  /** A two-register table is a single line. */
  lemma PairLinesSingle(names: seq<Label>, values: seq<u32>)
    requires |names| == 2 && |values| == 2
    ensures PairLines(names, values) == PairLine(names[0], values[0], names[1], values[1])
  {
    assert PairLines(names[2..], values[2..]) == "";
  }
}
