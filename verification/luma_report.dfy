/** The pure parts of the `luma` and `luma stack` report commands: the fault
    status line, the extra-blob line, the register table with its optional
    rows, and the stack dump limited to a number of lines. */
module LumaReport {
  import opened Common
  import opened Bytes
  import opened Text
  import opened ExcKind
  import opened Luma
  import opened FaultStatus
  import opened RegisterText

  // ---------------------------------------------------------------------------
  // Fault status

  /** The fault line of a Luma3DS dump: the data status is register 17 and the
      instruction status register 18, each read as 0 when the dump lacks it. */
  function LumaFaultLine(table: FaultTable, d: CrashLuma): (line: string)
    ensures line == "" <==> !IsAbort(d.exceptionType)
    ensures d.exceptionType.DataAbort? && |d.registers| <= 17 ==>
              line == "Fault status: " + Describe(table, 0) + "\n"
    ensures d.exceptionType.PrefetchAbort? && |d.registers| <= 18 ==>
              line == "Fault status: " + Describe(table, 0) + "\n"
    ensures d.exceptionType.DataAbort? && |d.registers| > 17 ==>
              line == "Fault status: " + Describe(table, DataAbortCode(d.registers[17])) + "\n"
    ensures d.exceptionType.PrefetchAbort? && |d.registers| > 18 ==>
              line == "Fault status: " + Describe(table, PrefetchAbortCode(d.registers[18])) + "\n"
  {
    FaultLine(table, d.exceptionType, Get(d.registers, 17).GetOr(0), Get(d.registers, 18).GetOr(0))
  }

  // ---------------------------------------------------------------------------
  // Extra blob

  /** The line about the extra blob: nothing when it is empty; for an Arm11
      dump the current process name and title id (`title`, whose extraction
      from the blob is not part of this model, and which must be available);
      for the Arm9 a note that Arm9 memory is embedded. */
  function ExtraLine(d: CrashLuma, title: Option<(string, u64)>): (line: string)
    requires |d.extra| > 0 && d.processor.Arm11? ==> title.Some?
    ensures line == "" <==> |d.extra| == 0
    ensures |d.extra| > 0 && d.processor.Arm9? ==> line == "<ARM9 memory embedded in the crash>\n"
    ensures |d.extra| > 0 && d.processor.Arm11? ==>
              line == "Current process: " + title.value.0 + " (" + UpperHexN(title.value.1, 16) + ")\n"
  {
    if |d.extra| == 0 then ""
    else if d.processor.Arm11? then
      "Current process: " + title.value.0 + " (" + UpperHexN(title.value.1, 16) + ")\n"
    else "<ARM9 memory embedded in the crash>\n"
  }

  /** The title id in the Arm11 line is sixteen upper-case hex digits that
      spell it back (`{:016X}` of a 64-bit id loses nothing). */
  lemma ExtraLineTitle(d: CrashLuma, title: Option<(string, u64)>)
    requires |d.extra| > 0 && d.processor.Arm11? && title.Some?
    ensures var head := "Current process: " + title.value.0 + " (";
            var line := ExtraLine(d, title);
            && |head| + 16 <= |line|
            && (forall i :: |head| <= i < |head| + 16 ==> IsUpperHexDigit(line[i]) && IsHexDigit(line[i]))
            && DigitsValue(line[|head|..|head| + 16]) == title.value.1 as nat
  {
    var head := "Current process: " + title.value.0 + " (";
    assert ExtraLine(d, title) == head + UpperHexN(title.value.1, 16) + ")\n";
    Pow16Sixteen();
    UpperHexInLine(head, title.value.1, 16, ")\n");
  }

  // ---------------------------------------------------------------------------
  // Registers

  /** Labels of the optional slots 16..22. */
  const OptionalNames: seq<Label> := ["cpsr", "dfsr", "ifsr", "far", "fpexc", "fpinst", "fpinst2"]

  /** Register `i` as a labelled cell when the dump has it, else empty text. */
  function OptionalCell(regs: seq<u32>, i: nat, name: Label): (c: string)
    ensures c == "" <==> i >= |regs|
    ensures i < |regs| ==> |c| == 16 && c[..8] == PadRight(name, 8)
    ensures i < |regs| ==> ParseHexU32(c[8..]) == Some(regs[i])
  {
    if i < |regs| then
      ParseHex8(regs[i]);
      Cell(name, regs[i])
    else ""
  }

  /** The cells of the optional slots 16..22, in template order. */
  function SlotCells(regs: seq<u32>): (cells: seq<string>)
    ensures |cells| == 7
  {
    seq(7, k requires 0 <= k < 7 => OptionalCell(regs, 16 + k, OptionalNames[k]))
  }

  /** Slot k holds register 16 + k under its label, or nothing when the dump
      lacks that register. */
  lemma SlotCellAt(regs: seq<u32>, k: nat)
    requires k < 7
    ensures SlotCells(regs)[k] == OptionalCell(regs, 16 + k, OptionalNames[k])
    ensures SlotCells(regs)[k] == "" <==> |regs| <= 16 + k
  {
  }

  /** What follows each slot in the template: four spaces after the left cell
      of a pair, a newline after the right cell and after the last slot. */
  const SlotSeps: seq<string> := ["    ", "\n", "    ", "\n", "    ", "\n", "\n"]

  /** Cells 0..k-1, each followed by its separator. */
  function Joined(cells: seq<string>, seps: seq<string>, k: nat): string
    requires k <= |cells| && k <= |seps|
  {
    if k == 0 then "" else Joined(cells, seps, k - 1) + cells[k - 1] + seps[k - 1]
  }

  /** The three `"{}    {}\n"` rows and the final `"{}\n"` row of slots 16..22.
      The template is the slots one after another, each followed by its
      separator. */
  function OptionalRows(regs: seq<u32>): (rows: string)
    ensures rows == Joined(SlotCells(regs), SlotSeps, 7)
  {
    var cells := SlotCells(regs);
    TemplateIsJoined(cells, SlotSeps);
    cells[0] + "    " + cells[1] + "\n"
      + cells[2] + "    " + cells[3] + "\n"
      + cells[4] + "    " + cells[5] + "\n"
      + cells[6] + "\n"
  }

  /** Seven cells with their separators, one after another. */
  lemma TemplateIsJoined(cells: seq<string>, seps: seq<string>)
    requires |cells| == 7 && |seps| == 7
    ensures cells[0] + seps[0] + cells[1] + seps[1] + cells[2] + seps[2] + cells[3] + seps[3]
              + cells[4] + seps[4] + cells[5] + seps[5] + cells[6] + seps[6]
            == Joined(cells, seps, 7)
  {
    var r1 := Joined(cells, seps, 1);
    assert r1 == cells[0] + seps[0] by {
      assert Joined(cells, seps, 0) + cells[0] == cells[0];
    }
    var r2 := Joined(cells, seps, 2);
    assert r2 == r1 + cells[1] + seps[1];
    var r3 := Joined(cells, seps, 3);
    assert r3 == r2 + cells[2] + seps[2];
    var r4 := Joined(cells, seps, 4);
    assert r4 == r3 + cells[3] + seps[3];
    var r5 := Joined(cells, seps, 5);
    assert r5 == r4 + cells[4] + seps[4];
    var r6 := Joined(cells, seps, 6);
    assert r6 == r5 + cells[5] + seps[5];
    assert Joined(cells, seps, 7) == r6 + cells[6] + seps[6];
  }

  /** Cell `k` sits right after the cells before it and their separators, in
      every longer run of cells. */
  lemma {:induction false} SlotPlaced(cells: seq<string>, seps: seq<string>, k: nat, m: nat)
    requires k < m <= |cells| && m <= |seps|
    ensures |Joined(cells, seps, k)| + |cells[k]| <= |Joined(cells, seps, m)|
    ensures Joined(cells, seps, m)[|Joined(cells, seps, k)|..|Joined(cells, seps, k)| + |cells[k]|]
            == cells[k]
    decreases m
  {
    var before := Joined(cells, seps, k);
    if m == k + 1 {
      assert Joined(cells, seps, m) == before + cells[k] + seps[k];
      PiecesOfThree(before, cells[k], seps[k]);
    } else {
      SlotPlaced(cells, seps, k, m - 1);
      var prev := Joined(cells, seps, m - 1);
      assert Joined(cells, seps, m) == prev + (cells[m - 1] + seps[m - 1]);
      SliceOfPrefix(prev, cells[m - 1] + seps[m - 1], |before|, |cells[k]|);
    }
  }

  /** When a text continues, from position `h`, with a run of cells, cell `k`
      sits at `h` plus its offset in the run. */
  lemma PlacedIn(text: string, h: nat, cells: seq<string>, seps: seq<string>, k: nat)
    requires h <= |text| && k < |cells| <= |seps|
    requires text[h..] == Joined(cells, seps, |cells|)
    ensures h + |Joined(cells, seps, k)| + |cells[k]| <= |text|
    ensures text[h + |Joined(cells, seps, k)|..h + |Joined(cells, seps, k)| + |cells[k]|] == cells[k]
  {
    var p := |Joined(cells, seps, k)|;
    SlotPlaced(cells, seps, k, |cells|);
    SliceOfSlice(text, h, |text|, p, p + |cells[k]|);
  }

  /** A dump with only the sixteen core registers shows the optional rows as
      blank separators; a dump with all 23 shows every labelled cell. */
  lemma OptionalRowsShape(regs: seq<u32>)
    ensures |regs| <= 16 ==> OptionalRows(regs) == "    \n    \n    \n\n"
    ensures |regs| >= 23 ==> |OptionalRows(regs)| == 7 * 16 + 3 * 4 + 4
  {
  }

  /** The register dump: r0..pc always (they are indexed unconditionally, so
      the dump must hold at least sixteen), then the optional rows. */
  function RegisterDump(regs: seq<u32>): (text: string)
    requires |regs| >= 16
    ensures |text| == 8 * LineWidth + |OptionalRows(regs)|
    ensures text[..8 * LineWidth] == PairLines(GeneralNames, regs[..16])
    ensures text[8 * LineWidth..] == Joined(SlotCells(regs), SlotSeps, 7)
  {
    PairLines(GeneralNames, regs[..16]) + OptionalRows(regs)
  }

  /** Each optional register the dump holds appears as its labelled cell, at
      the offset its slot has in the template after the r0..pc table. */
  lemma RegisterDumpCells(regs: seq<u32>, k: nat)
    requires |regs| >= 16 && k < 7
    ensures var p := 8 * LineWidth + |Joined(SlotCells(regs), SlotSeps, k)|;
            var c := SlotCells(regs)[k];
            p + |c| <= |RegisterDump(regs)| && RegisterDump(regs)[p..p + |c|] == c
  {
    PlacedIn(RegisterDump(regs), 8 * LineWidth, SlotCells(regs), SlotSeps, k);
  }

  /** Each of r0..pc can be read back from its column of the register dump. */
  lemma RegisterDumpReadBack(regs: seq<u32>, i: nat)
    requires |regs| >= 16 && i < 16
    ensures ValuePos(i) + 8 <= |RegisterDump(regs)|
    ensures ParseHexU32(RegisterDump(regs)[ValuePos(i)..ValuePos(i) + 8]) == Some(regs[i])
  {
    var table := PairLines(GeneralNames, regs[..16]);
    PairLinesParseBack(GeneralNames, regs[..16], i);
    SliceOfPrefix(table, OptionalRows(regs), ValuePos(i), 8);
  }

  // ---------------------------------------------------------------------------
  // Stack dump

  /** What follows the i-th word: a newline after every fourth, else a space. */
  function Separator(i: nat): (sep: string)
    ensures |sep| == 1 && (sep[0] == '\n' || sep[0] == ' ')
  {
    if i % 4 == 3 then "\n" else " "
  }

  /** The stack text after appending `{:08x}` and a separator for each word. */
  function RenderWords(ws: seq<u32>): (s: string)
    ensures |s| == 9 * |ws|
    decreases |ws|
  {
    if |ws| == 0 then "" else RenderWords(ws[..|ws| - 1]) + Hex8(ws[|ws| - 1]) + Separator(|ws| - 1)
  }

  function NewlineCount(s: string): nat {
    if |s| == 0 then 0 else NewlineCount(s[..|s| - 1]) + (if s[|s| - 1] == '\n' then 1 else 0)
  }

  lemma {:induction false} NewlineCountAppend(a: string, b: string)
    ensures NewlineCount(a + b) == NewlineCount(a) + NewlineCount(b)
    decreases |b|
  {
    if |b| > 0 {
      assert (a + b)[..|a + b| - 1] == a + b[..|b| - 1];
      NewlineCountAppend(a, b[..|b| - 1]);
    } else {
      assert a + b == a;
    }
  }

  lemma NewlineCountHex8(w: u32)
    ensures NewlineCount(Hex8(w)) == 0
  {
    var h := Hex8(w);
    assert h == h[..7] + [h[7]];
    assert h[..7] == h[..6] + [h[6]];
    assert h[..6] == h[..5] + [h[5]];
    assert h[..5] == h[..4] + [h[4]];
    assert h[..4] == h[..3] + [h[3]];
    assert h[..3] == h[..2] + [h[2]];
    assert h[..2] == h[..1] + [h[1]];
    assert h[..1] == [] + [h[0]];
    NewlineCountAppend(h[..7], [h[7]]);
    NewlineCountAppend(h[..6], [h[6]]);
    NewlineCountAppend(h[..5], [h[5]]);
    NewlineCountAppend(h[..4], [h[4]]);
    NewlineCountAppend(h[..3], [h[3]]);
    NewlineCountAppend(h[..2], [h[2]]);
    NewlineCountAppend(h[..1], [h[1]]);
    NewlineCountAppend([], [h[0]]);
  }

  /** A separator holds a newline exactly after every fourth word. */
  lemma NewlineCountSeparator(n: nat)
    ensures NewlineCount(Separator(n)) == (if n % 4 == 3 then 1 else 0)
  {
    var sep := Separator(n);
    assert sep[..0] == [];
  }

  /** One more word completes a group exactly after every fourth. */
  lemma QuarterStep(n: nat)
    ensures (n + 1) / 4 == n / 4 + (if n % 4 == 3 then 1 else 0)
  {
  }

  /** One newline per completed group of four words. */
  lemma {:induction false} RenderNewlines(ws: seq<u32>)
    ensures NewlineCount(RenderWords(ws)) == |ws| / 4
    decreases |ws|
  {
    if |ws| > 0 {
      var n := |ws| - 1;
      var prefix := RenderWords(ws[..n]);
      var h := Hex8(ws[n]);
      RenderNewlines(ws[..n]);
      NewlineCountAppend(prefix, h);
      NewlineCountAppend(prefix + h, Separator(n));
      NewlineCountHex8(ws[n]);
      NewlineCountSeparator(n);
      QuarterStep(n);
      assert RenderWords(ws) == prefix + h + Separator(n);
    }
  }

  /** `str::lines().count()`: the pieces between newlines, where a final
      newline does not open an extra empty line. */
  function LinesCount(t: string): nat {
    if |t| == 0 then 0 else NewlineCount(t) + (if t[|t| - 1] == '\n' then 0 else 1)
  }

  predicate IsWhitespace(c: char) {
    c == ' ' || c == '\t' || c == '\n' || c == '\r' || c as int == 0x0B || c as int == 0x0C
  }

  /** `str::trim_end`: drops trailing whitespace. */
  function TrimEnd(s: string): (r: string)
    ensures |r| <= |s| && r == s[..|r|]
    ensures |r| > 0 ==> !IsWhitespace(r[|r| - 1])
    ensures forall i :: |r| <= i < |s| ==> IsWhitespace(s[i])
  {
    if |s| > 0 && IsWhitespace(s[|s| - 1]) then TrimEnd(s[..|s| - 1]) else s
  }

  /** How many words the stack command prints for `n` available words and a
      limit of `size` lines: four per line, but always at least the first. */
  function WordsShown(n: nat, size: nat): (k: nat)
    ensures k <= n
  {
    var cap := if size == 0 then 1 else 4 * size;
    if n < cap then n else cap
  }

  /** Appending one word to the rendered prefix renders the longer prefix. */
  lemma RenderStep(ws: seq<u32>, i: nat)
    requires i < |ws|
    ensures RenderWords(ws[..i + 1]) == RenderWords(ws[..i]) + Hex8(ws[i]) + Separator(i)
  {
    assert ws[..i + 1][..i] == ws[..i];
  }

  /** The line count the command checks after each word: the rendered text
      with a `.` appended has one line per completed group of four, plus one. */
  lemma LinesWithDot(ws: seq<u32>)
    ensures LinesCount(RenderWords(ws) + ".") == |ws| / 4 + 1
  {
    RenderNewlines(ws);
    NewlineCountAppend(RenderWords(ws), ".");
    assert NewlineCount(".") == 0 by {
      assert "."[..0] == [];
    }
  }

  /** The line check stops the loop exactly when the word cap is reached. */
  lemma StopsAtCap(i: nat, limit: nat)
    requires i >= 1
    ensures (i / 4 + 1 > limit) <==> i >= (if limit == 0 then 1 else 4 * limit)
  {
  }

  /** `luma stack`: the stack as little-endian words in `{:08x}`, four to a
      line, stopping once the text would exceed `size` lines (default 16),
      with trailing whitespace trimmed. */
  method FormatStack(stack: seq<u8>, size: Option<nat>) returns (text: string)
    ensures text == TrimEnd(RenderWords(LeWords(stack)[..WordsShown(|stack| / 4, size.GetOr(16))]))
  {
    var words := LeWords(stack);
    var limit := size.GetOr(16);
    var cap := if limit == 0 then 1 else 4 * limit;
    assert |words| == |stack| / 4;
    ghost var shown := WordsShown(|stack| / 4, limit);
    var formatted := "";
    var i := 0;
    while i < |words|
      invariant i <= |words| && i < cap
      invariant formatted == RenderWords(words[..i])
    {
      RenderStep(words, i);
      formatted := formatted + Hex8(words[i]) + Separator(i);
      i := i + 1;
      LinesWithDot(words[..i]);
      StopsAtCap(i, limit);
      if LinesCount(formatted + ".") > limit {
        break;
      }
    }
    assert i == shown;
    text := TrimEnd(formatted);
  }

  /** The printed stack: the shown words, each readable at column 9·i, and
      no more than `size` lines (one when `size` is 0). */
  lemma {:induction false} RenderedWordsReadBack(ws: seq<u32>, i: nat)
    requires i < |ws|
    ensures RenderWords(ws)[9 * i..9 * i + 8] == Hex8(ws[i])
    decreases |ws|
  {
    var n := |ws| - 1;
    var prefix := RenderWords(ws[..n]);
    assert RenderWords(ws) == prefix + Hex8(ws[n]) + Separator(n);
    if i < n {
      RenderedWordsReadBack(ws[..n], i);
      assert RenderWords(ws)[9 * i..9 * i + 8] == prefix[9 * i..9 * i + 8];
    } else {
      assert RenderWords(ws)[9 * i..9 * i + 8] == Hex8(ws[n]);
    }
  }

  /** A single trailing whitespace character after a non-whitespace one is
      all that trimming removes. */
  lemma TrimOne(s: string)
    requires |s| >= 2 && IsWhitespace(s[|s| - 1]) && IsHexDigit(s[|s| - 2])
    ensures TrimEnd(s) == s[..|s| - 1]
  {
    var t := s[..|s| - 1];
    assert t[|t| - 1] == s[|s| - 2];
    assert !IsWhitespace(t[|t| - 1]);
    assert TrimEnd(s) == TrimEnd(t);
  }

  /** The rendered text ends with the last word's final digit and then its
      separator. */
  lemma RenderedEnding(ws: seq<u32>)
    requires |ws| > 0
    ensures var s := RenderWords(ws);
            IsWhitespace(s[|s| - 1]) && IsHexDigit(s[|s| - 2])
  {
    var s := RenderWords(ws);
    var n := |ws| - 1;
    var h := Hex8(ws[n]);
    var sep := Separator(n);
    assert s == RenderWords(ws[..n]) + h + sep;
    assert |sep| == 1 && IsWhitespace(sep[0]);
    assert s[|s| - 1] == sep[0];
    assert s[|s| - 2] == h[7];
  }

  /** Trimming removes exactly the final separator: the text ends with the
      last word's digits. */
  lemma TrimRendered(ws: seq<u32>)
    requires |ws| > 0
    ensures TrimEnd(RenderWords(ws)) == RenderWords(ws)[..9 * |ws| - 1]
  {
    var s := RenderWords(ws);
    RenderedEnding(ws);
    TrimOne(s);
    assert |s| - 1 == 9 * |ws| - 1;
  }

  /** The trimmed text of a nonempty stack has one newline fewer than lines. */
  lemma TrimmedLines(ws: seq<u32>)
    requires |ws| > 0
    ensures LinesCount(TrimEnd(RenderWords(ws))) == (|ws| - 1) / 4 + 1
  {
    var full := RenderWords(ws);
    var text := TrimEnd(full);
    var n := |ws| - 1;
    TrimRendered(ws);
    RenderNewlines(ws);
    RenderNewlines(ws[..n]);
    assert full == RenderWords(ws[..n]) + Hex8(ws[n]) + Separator(n);
    assert text == RenderWords(ws[..n]) + Hex8(ws[n]);
    NewlineCountAppend(RenderWords(ws[..n]), Hex8(ws[n]));
    NewlineCountHex8(ws[n]);
    assert text[|text| - 1] == Hex8(ws[n])[7];
  }

  /** Each word of a nonempty stack still reads back after trimming. */
  lemma TrimmedWordsReadBack(ws: seq<u32>, i: nat)
    requires i < |ws|
    ensures 9 * i + 8 <= |TrimEnd(RenderWords(ws))|
    ensures TrimEnd(RenderWords(ws))[9 * i..9 * i + 8] == Hex8(ws[i])
  {
    var full := RenderWords(ws);
    TrimRendered(ws);
    RenderedWordsReadBack(ws, i);
    var m := 9 * |ws| - 1;
    assert full[..m][9 * i..9 * i + 8] == full[9 * i..9 * i + 8];
  }

  /** At most `cap` words need at most `size` lines. */
  lemma LinesWithinCap(k: nat, size: nat)
    requires 0 < k <= (if size == 0 then 1 else 4 * size)
    ensures (k - 1) / 4 + 1 <= (if size == 0 then 1 else size)
  {
  }

  /** The command's output has at most `size` lines (at most one when `size`
      is 0) and shows each printed word at column 9·i. */
  lemma StackOutputShape(stack: seq<u8>, size: nat)
    ensures var ws := LeWords(stack)[..WordsShown(|stack| / 4, size)];
            var text := TrimEnd(RenderWords(ws));
            && (|ws| == 0 ==> text == "")
            && (|ws| > 0 ==> |text| == 9 * |ws| - 1)
            && LinesCount(text) <= (if size == 0 then 1 else size)
            && forall i :: 0 <= i < |ws| ==> text[9 * i..9 * i + 8] == Hex8(ws[i])
  {
    var ws := LeWords(stack)[..WordsShown(|stack| / 4, size)];
    var text := TrimEnd(RenderWords(ws));
    if |ws| > 0 {
      TrimRendered(ws);
      TrimmedLines(ws);
      LinesWithinCap(|ws|, size);
      forall i | 0 <= i < |ws|
        ensures text[9 * i..9 * i + 8] == Hex8(ws[i])
      {
        TrimmedWordsReadBack(ws, i);
      }
    }
  }
}
