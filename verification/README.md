# Bertram crash-dump core, modelled in Dafny

Bertram is a Discord bot for Rhythm Heaven Megamix modders. It reads
Luma3DS and Saltwater crash dumps, formats them as reports, diagnoses known
crash signatures, resolves addresses against per-region symbol tables, and
decodes Nintendo 3DS (`ctru`) result codes. It also answers `help`.

This project models the pure logic of that core as immutable datatypes and
total functions. It proves what each piece computes.

- `Common`, `Bytes`, `Text` hold shared vocabulary:
  - machine words;
  - `Option` and `Result`;
  - little-endian word reads and writes;
  - Python's clamped slices;
  - `{:08x}` hex and decimal rendering, with their parsers;
  - padding, ASCII lower-casing, and join/split.
- `ExcKind`, `Saltwater`, `Crash` are the shared crash records:
  - the exception kind and its partial decoding;
  - the Saltwater region, type and version sum types;
  - the five-entry call stack;
  - `ModdingEngine` and `CrashInfo`.
- `Luma` is the Luma3DS dump layout:
  - version packing and the 1.0.2 minimum;
  - the processor word;
  - register padding to 23 slots;
  - the code, stack and extra blobs.
  It includes a parser and an encoder that the parser inverts: parsing an
  encoded dump gives it back, and every parsed dump re-encodes to a buffer
  that parses to the same dump. Encoding a parsed buffer need not give the
  buffer back (see "## Left out").
- `Solve` is the diagnosis engine: one US signature, with aborting regions as
  a precondition.
- `FaultStatus`, `RegisterText`, `LumaReport`, `SaltwaterReport`,
  `CrossFormat` are the report text:
  - fault-status codes and the table lookup with its "Invalid" fallback;
  - the two-column register tables, with every value read back from its
    column;
  - the optional Luma registers;
  - the stack formatter with its line cap (a loop with invariants);
  - Saltwater's status-register cells and call-stack listing;
  - the two report formats agreeing on shared registers.
- `SymbolLookup` covers the pure parts of the `symbol` command: region
  selection, symbol-table path, address parsing and the reply.
- `CtruTables`, `Ctru` cover the `ctru` command: argument parsing, bit-field
  extraction with its inverse, and the four total name tables.
- `Help` covers usage strings, category grouping and per-command help.

Three things are parameters, because their bodies are not part of this
model:

- the fault-status table and the status-register names;
- the symbol table's loader, bounds step and lookup;
- the title information of an Arm11 dump.

A command's check results are given as booleans.

Several promises of the source are carried by the types rather than by
contracts:

- `CrashInfo` has exactly thirteen general registers (a length-13 subset
  type) and mandatory sp, lr, pc and cpsr. Each fault field, the stack and the
  call stack is an independent `Option`.
- A Saltwater call stack has exactly five entries.
- An extended dump has exactly fourteen registers.
- `SWDType`, `Region`, `SWDVersion` and `ModdingEngine` are sum types with
  exactly the source's variants.

## Model

| member | source | states |
|---|---|---|
| ExcKind.FromU32 | src/crash/mod.rs:13-24 | Succeeds exactly for 0..3. Whatever it decodes has that code, so 0..3 name FloatingPoint, UndefinedInst, PrefetchAbort and DataAbort. |
| ExcKind.FromU8 | src/crash/mod.rs:26-31 | Succeeds exactly for bytes below 4. |
| ExcKind.DecodeCode | src/crash/mod.rs:13-24 | Every kind's code decodes back to that kind, from a word and from a byte. |
| ExcKind.DecodeInjective | src/crash/mod.rs:16-21 | Two words that decode to the same kind are equal. |
| ExcKind.ByteAgreesWithWord | src/crash/mod.rs:29 | Decoding a byte equals decoding the same value widened to a word. |
| Saltwater.RegionOfDiscriminant | src/crash/saltwater.rs:10-18 | Exactly the discriminants 0..4 name a region, and each named region has that discriminant. |
| Saltwater.DiscriminantRoundTrip | src/crash/saltwater.rs:12-18 | Each region's discriminant maps back to it, so JP, US, EU, KR and UNK are five distinct values in that order. |
| Luma.UnpackPack | src/crash/luma.rs:3-4 | Unpacking a packed version gives back major, minor and micro. |
| Luma.PackUnpack | src/crash/luma.rs:34-38 | Every 32-bit word is the packing of exactly one version. |
| Luma.PackInjective | src/crash/luma.rs:3-4 | Distinct versions pack to distinct words. |
| Luma.PackOrder | src/crash/luma.rs:15-16 | Comparing packed words is comparing versions in release order, so the check against 1.0.2 rejects exactly the older releases. |
| Luma.DecodeProcessor | src/crash/luma.rs:13 | A processor word is accepted exactly when its low half is 9 or 11. It gives Arm9 exactly for 9, and an Arm11 carries the high half as its core. |
| Luma.DecodeProcessorWord | src/crash/luma.rs:52-56 | Each processor's word decodes back to it. |
| Luma.ParseDump | src/crash/luma.rs:6-29 | Results per input: <br>• Buffers shorter than 8 bytes are truncated. <br>• Wrong magic is rejected. <br>• Versions older than 1.0.2 are rejected with the version found. <br>• A magic-bearing buffer shorter than the 40-byte header, or too short for its declared registers, is truncated. <br>• An undecodable processor word or exception code is rejected with that word, in that order. <br>• A parsed dump has the header's version, processor and exception kind, `byte count / 4` registers read from offset 40, and the code, stack and extra blobs back to back as clamped slices of their declared sizes. |
| Luma.PaddedRegisters | src/crash/luma.rs:18-19 | The registers are padded with absent entries to 23 slots. Every present register keeps its slot. |
| Luma.ViewMatchesGet | src/crash/luma.rs:20-22 | Slots 13..22 (sp, lr, pc, cpsr, dfsr, ifsr, far, fpexc, fpinst, fpinst2) are exactly the `registers.get(i)` the report reads. |
| Luma.ViewComplete | src/crash/luma.rs:19-22 | Each named slot, from sp at 13 to fpinst2 at 22, is present exactly when the dump has more registers than the slot's index. All are present exactly when the dump has 23 or more. |
| Luma.EncodeDump | src/crash/luma.rs:10-12 | The encoded dump is 40 header bytes, 4 bytes per register, and the three blobs. |
| Luma.EncodedHeader | src/crash/luma.rs:7-11 | The encoded header holds the magic, version, processor, exception code, register byte count and blob sizes at their offsets. |
| Luma.EncodedRegisters | src/crash/luma.rs:18 | The registers read back from offset 40. |
| Luma.EncodedBlobs | src/crash/luma.rs:24-29 | The code, stack and extra blobs slice back out at their positions. |
| Luma.ParseAccepts | src/crash/luma.rs:6-29 | The converse of the parser's success case. Take a buffer with the magic and a version of at least 1.0.2. Its processor word must decode to the record's processor and its exception code must be the record's. A quarter of its register byte count must be the record's register count. If the registers and the three clamped blob slices are the record's, the buffer parses to exactly that record. |
| Luma.ParseEncode | src/crash/luma.rs:6-29 | Parsing an encoded dump gives the dump back. |
| Luma.ParsedIsEncodable | src/crash/luma.rs:6-29 | Every parsed dump is encodable, and re-encoding it parses to the same dump. |
| Solve.FindMatches | src/crash/solve.rs:29-45 | For a US crash there is at most one diagnosis. There is one exactly when pc is the signature address, and it is InvalidTickflowAddress carrying far unchanged. |
| Solve.OnlyTickflowDiagnosed | src/crash/solve.rs:7-18 | NoEffectMemory, SceneLoadingError and NonExecRegion are never produced. |
| Solve.DependsOnPcAndFar | src/crash/solve.rs:37-39 | Crashes with equal pc and far get the same diagnosis; no other field matters. |
| Solve.TickflowScenario | src/crash/solve.rs:21-27 | For every US crash: at pc 0x0011e764 the one diagnosis is an invalid tickflow address carrying that crash's own far. At any other pc there is no diagnosis. |
| FaultStatus.DataAbortCode | src/bot/commands/crash/luma.rs:44-45 | The data-abort fault code is at most 16. |
| FaultStatus.PrefetchAbortCode | src/bot/commands/crash/luma.rs:47-48 | The prefetch-abort fault code is at most 15. |
| FaultStatus.DataAbortCodeIgnoresOtherBits | src/bot/commands/crash/luma.rs:45 | The data-abort code depends only on bits 0..3 and bit 10 of the status. |
| Common.FindKey | src/bot/commands/crash/luma.rs:52-55 | The first table position whose key equals the code, or past the end when none does. |
| FaultStatus.Describe | src/bot/commands/crash/luma.rs:50-56 | The description is the value of the first entry keyed by the code, or "Invalid" when no key matches. |
| FaultStatus.FaultLine | src/bot/commands/crash/luma.rs:42-60 | The line is empty exactly for non-aborts. An abort gives "Fault status: " and its description. |
| FaultStatus.FaultLineReadsOneRegister | src/bot/commands/crash/saltwater.rs:38-45 | A data abort reads only the data status and a prefetch abort only the instruction status. |
| LumaReport.LumaFaultLine | src/bot/commands/crash/luma.rs:42-60 | The code comes from register 17 (data abort) or register 18 (prefetch abort), read as 0 when that register is missing. There is no line for other kinds. |
| LumaReport.ExtraLine | src/bot/commands/crash/luma.rs:61-70 | No line without extra memory. With it, an Arm9 line, or an Arm11 line naming the current process and its 16-digit upper-hex title id. |
| LumaReport.ExtraLineTitle | src/bot/commands/crash/luma.rs:63-64 | The sixteen characters after the process name are upper-case hex digits that spell the title id back. |
| LumaReport.OptionalCell | src/bot/commands/crash/luma.rs:88-92 | Empty exactly when the register is missing. Otherwise a padded label followed by a value that parses back to the register. |
| LumaReport.SlotCellAt | src/bot/commands/crash/luma.rs:88-122 | Optional slot k is the cell of register 16 + k under its label (cpsr, dfsr, ifsr, far, fpexc, fpinst, fpinst2). It is empty exactly when the dump lacks that register. |
| LumaReport.OptionalRows | src/bot/commands/crash/luma.rs:34-37 | The three two-cell rows and the final one-cell row are the seven slot cells in order, each followed by four spaces (left cell of a pair) or a newline. |
| LumaReport.TemplateIsJoined | src/bot/commands/crash/luma.rs:34-37 | Writing seven cells into the template is laying them out one after another, each with its separator. |
| LumaReport.SlotPlaced | src/bot/commands/crash/luma.rs:34-37 | In any run of cells, cell k starts right after the cells and separators before it. |
| LumaReport.PlacedIn | src/bot/commands/crash/luma.rs:25-37 | When a text continues from position h with a run of cells, cell k sits at h plus its own offset in the run. |
| LumaReport.OptionalRowsShape | src/bot/commands/crash/luma.rs:34-37 | With only 16 registers the optional rows are blank separators. With 23 they have the full width of seven labelled cells. |
| LumaReport.RegisterDump | src/bot/commands/crash/luma.rs:26-37 | The eight r0..pc lines come first, then the optional rows. |
| LumaReport.RegisterDumpCells | src/bot/commands/crash/luma.rs:34-122 | Each optional slot's cell, and so each optional register the dump holds, sits at its template offset after the eight lines. |
| LumaReport.RegisterDumpReadBack | src/bot/commands/crash/luma.rs:72-87 | Each of r0..pc parses back from its column of the table. |
| LumaReport.RenderWords | src/bot/commands/crash/luma.rs:143-148 | Each word is rendered in 9 characters. |
| LumaReport.RenderNewlines | src/bot/commands/crash/luma.rs:147 | A newline follows every fourth word: n words contain n/4 newlines. |
| LumaReport.LinesWithDot | src/bot/commands/crash/luma.rs:149 | The text with "." appended has n/4 + 1 lines. |
| LumaReport.StopsAtCap | src/bot/commands/crash/luma.rs:149-151 | The loop stops after word i exactly when i reaches 4·size, or 1 when size is 0. |
| LumaReport.WordsShown | src/bot/commands/crash/luma.rs:143-151 | Never more words than the stack holds. |
| LumaReport.FormatStack | src/bot/commands/crash/luma.rs:140-153 | The loop's output is the trimmed rendering of the first words the cap allows. |
| LumaReport.TrimEnd | src/bot/commands/crash/luma.rs:153 | A prefix with only whitespace removed, ending in a non-whitespace character. |
| LumaReport.RenderedWordsReadBack | src/bot/commands/crash/luma.rs:144-148 | Word i sits at columns 9i..9i+8. |
| LumaReport.TrimRendered | src/bot/commands/crash/luma.rs:153 | Trimming removes exactly the final separator. |
| LumaReport.TrimmedLines | src/bot/commands/crash/luma.rs:149-153 | n shown words make (n-1)/4 + 1 lines. |
| LumaReport.TrimmedWordsReadBack | src/bot/commands/crash/luma.rs:144-153 | Every shown word survives trimming in its columns. |
| LumaReport.StackOutputShape | src/bot/commands/crash/luma.rs:140-153 | The output is empty for no words, otherwise 9n-1 characters. It spans at most `size` lines (1 for size 0), and every shown word reads back in order. |
| RegisterText.PairLines | src/bot/commands/crash/luma.rs:26-33 | A table of n registers is n/2 lines of 37 characters. |
| RegisterText.PairLinesParseBack | src/bot/commands/crash/luma.rs:26-33 | Register i parses back from its column on line i/2. |
| RegisterText.PairLinesPrefix | src/bot/commands/crash/saltwater.rs:61-67 | A table splits at any even row boundary into the tables of the two halves. |
| SaltwaterReport.SaltwaterFaultLine | src/bot/commands/crash/saltwater.rs:38-56 | Status A gives the data-abort code and status B the prefetch-abort code. There is no line for other kinds. |
| SaltwaterReport.ExtendedBlock | src/bot/commands/crash/saltwater.rs:57-87 | The block is empty exactly for short dumps and is seven lines for extended ones. |
| SaltwaterReport.ExtendedBlockReadBack | src/bot/commands/crash/saltwater.rs:70-83 | Each of r0..sp parses back from its column. |
| SaltwaterReport.LrPcLine | src/bot/commands/crash/saltwater.rs:24 | One 37-character line from which lr and pc parse back. |
| SaltwaterReport.StatusDisplay | src/bot/commands/crash/saltwater.rs:90-97 | Chosen by the status names: <br>• no first name gives empty text; <br>• a first name alone shows status A; <br>• two names show A then B. |
| SaltwaterReport.StatusDisplayIgnoresB | src/bot/commands/crash/saltwater.rs:92 | With a single name, status B has no influence on the text. |
| SaltwaterReport.StatusDisplayReadBack | src/bot/commands/crash/saltwater.rs:92-96 | Each shown status value parses back from the column after its label. |
| SaltwaterReport.CallStackListing | src/bot/commands/crash/saltwater.rs:28-32 | Each entry is a 12-character line. |
| SaltwaterReport.CallStackListingReadBack | src/bot/commands/crash/saltwater.rs:28-32 | Entry i is " - ", its word and a newline at columns 12i..12i+12. |
| SaltwaterReport.CallStackListingInjective | src/bot/commands/crash/saltwater.rs:98-102 | The listing determines the call stack. |
| SaltwaterReport.CallStackFiveLines | src/bot/commands/crash/saltwater.rs:98-102 | A dump lists exactly five entries, each parsing back to its call-stack word in index order. |
| SaltwaterReport.RegisterSection | src/bot/commands/crash/saltwater.rs:22-32 | The layout of the section: the "Register dump:" heading, the r0..sp block, the lr/pc line, then the status cells and call stack, each at its offset. |
| SaltwaterReport.LrPcPlaced | src/bot/commands/crash/saltwater.rs:24 | Wherever the lr/pc line sits in a text, lr and pc parse back from columns 8 and 28 after its start. |
| SaltwaterReport.RegisterSectionLrPc | src/bot/commands/crash/saltwater.rs:24 | The lr and pc values parse back from columns 8 and 28 of their line, right after the heading and the r0..sp block. |
| SaltwaterReport.RegisterSectionReadBack | src/bot/commands/crash/saltwater.rs:57-87 | In an extended dump, each of r0..sp parses back from its column of the section. |
| CrossFormat.GeneralTableAgrees | src/bot/commands/crash/saltwater.rs:61-68 | Luma's r0..pc table equals Saltwater's extended block plus lr/pc line for the same sixteen values. |
| CrossFormat.FaultLinesAgree | src/bot/commands/crash/saltwater.rs:38-56 | A Luma dump whose registers 17 and 18 hold Saltwater's status A and B reports the same fault line. |
| SymbolLookup.ParseRegion | src/bot/commands/crash/analyze.rs:21-31 | Region selection: <br>• an absent argument selects US; <br>• a string is accepted exactly when its lower case is us, eu, jp or kr, and selects the region of that name; <br>• UNK is never selected; <br>• the error is "invalid region". |
| SymbolLookup.ParseRegionIgnoresCase | src/bot/commands/crash/analyze.rs:22 | Letter case does not change the selection. |
| SymbolLookup.ParseRegionName | src/bot/commands/crash/analyze.rs:26-29 | Each region but UNK is selected by its name in either case. |
| SymbolLookup.SymbolTablePath | src/bot/commands/crash/analyze.rs:34 | The path is `sym/rhm.` + lower-case region name + `.csv`. |
| SymbolLookup.SymbolTablePathInjective | src/bot/commands/crash/analyze.rs:33-36 | Different regions read different tables. |
| SymbolLookup.SymbolReply | src/bot/commands/crash/analyze.rs:42-45 | The not-found message, or "Symbol found: " with the name and a function start that parses back. |
| SymbolLookup.SymbolReplyInjective | src/bot/commands/crash/analyze.rs:42-45 | Replies determine found/not-found, the symbol name and the function start. |
| SymbolLookup.SymbolCommand | src/bot/commands/crash/analyze.rs:21-45 | A bad region fails first with "invalid region". Success needs a valid region and a hex address, and a bad-address failure means the address did not parse. |
| SymbolLookup.SymbolCommandAnswers | src/bot/commands/crash/analyze.rs:33-45 | With a loading table, the reply is whatever the lookup finds in the selected region's table at the parsed address. |
| Text.ParseHexU32 | src/bot/commands/crash/analyze.rs:40 | Accepts exactly an optional `+` and one or more hex digits whose value fits 32 bits, and yields that value. |
| Text.Hex8 | src/bot/commands/crash/luma.rs:26-33 | `{:08x}` gives eight lower-case hex digits, never a space or a newline. |
| Text.ParseHex8 | src/bot/commands/crash/analyze.rs:43 | Every `{:08x}` rendering parses back to its word. |
| Text.UpperHexN | src/bot/commands/crash/luma.rs:64 | `{:0nX}` gives n upper-case hex digits that spell the number modulo 16^n. |
| Text.UpperHexInLine | src/bot/commands/crash/luma.rs:64 | Inside any line, n upper-case digits of a number below 16^n read back to that number. |
| Text.PadRight | src/bot/commands/crash/saltwater.rs:92 | `{:08}` on a name keeps the name and pads with spaces to width 8. |
| Text.AsciiLower | src/bot/commands/crash/analyze.rs:22 | Lower-cases character by character, preserving length. |
| Bytes.PySlice | src/crash/luma.rs:25 | `f[a:a+n]`: at most n bytes. It is the exact slice when in range and clamped at the end of the buffer. |
| Bytes.LeWords | src/bot/commands/crash/luma.rs:142-146 | len/4 words, word i read little-endian from byte 4i. |
| Bytes.ReadEncodeWords | src/crash/luma.rs:18 | Little-endian words written out read back unchanged. |
| Ctru.ParseCode | module/ctru.py:14-17 | A literal `0x` prefix means the rest is parsed as hex; anything else is parsed as decimal. |
| Ctru.ParseDecimal | module/ctru.py:17 | Accepts exactly an optional sign and one or more decimal digits, and yields the signed value. |
| Ctru.ParseHexInt | module/ctru.py:15 | Accepts exactly an optional sign, an optional second `0x`, and one or more hex digits, and yields the signed value. |
| Ctru.ParseHexCode | module/ctru.py:14-15 | `0x` and eight hex digits read back as the code. |
| Ctru.ParseDecimalCode | module/ctru.py:16-17 | Any integer written in decimal reads back as itself. |
| Ctru.Fields | module/ctru.py:19-23 | Field ranges: <br>• description in 0..1023; <br>• module in 0..255; <br>• summary in 0..63; <br>• level at most 31 for 32-bit codes and negative for negative codes. |
| Ctru.Reserved | module/ctru.py:21 | The undecoded bits 18..20 lie in 0..7. |
| Ctru.Decompose | module/ctru.py:19-23 | The four fields and the reserved bits make up the whole code. |
| Ctru.FieldsOfEncode | module/ctru.py:19-23 | In-range fields recombined into a code decode back to themselves, with reserved bits zero. |
| Ctru.EncodeFields | module/ctru.py:19-23 | A code with zero reserved bits is recovered from its fields. |
| Ctru.ReservedIgnored | module/ctru.py:21 | Codes differing only in bits 18..20 decode identically. |
| Ctru.CtruCommand | module/ctru.py:13-36 | A report exactly when the argument parses. Its title echoes the argument and its body describes the parsed code's fields. |
| Ctru.HexAndDecimalAgree | module/ctru.py:14-17 | A code written as `0x` hex or in decimal gives the same report body. |
| CtruTables.DescriptionName | module/ctru.py:38-147 | Total: a listed description gets its row's text, any other gets "Unknown". |
| CtruTables.LevelName | module/ctru.py:149-170 | Total: a listed level gets its row's text, any other c gets "Unknown (c)". |
| CtruTables.SummaryName | module/ctru.py:172-201 | Total: a listed summary gets its row's text, any other c gets "Unknown (c)". |
| CtruTables.ModuleName | module/ctru.py:203-402 | Total: a listed module gets its row's text, any other c gets "<Unknown (c)>". |
| CtruTables.InvalidDescription | module/ctru.py:144-145 | Description 1023 is "Invalid result value". |
| CtruTables.InvalidSummary | module/ctru.py:198-199 | Summary 63 is "Invalid result value". |
| CtruTables.InvalidModule | module/ctru.py:399-400 | Module 255 is "Invalid result value". |
| CtruTables.ModuleCodesRanges | module/ctru.py:203-402 | The listed modules are exactly 0..87, 90..97, 254 and 255. |
| CtruTables.LevelCodesRanges | module/ctru.py:149-170 | The listed levels are exactly 0, 1 and 25..31. |
| Help.ParameterToken | src/bot/commands/help.rs:120-126 | `<name>` for a required parameter and `[name]` for an optional one. |
| Help.ParameterTokens | src/bot/commands/help.rs:118-127 | One token per parameter, in parameter order. |
| Help.CommandUsage | src/bot/commands/help.rs:116-132 | Usage is "..." exactly for a supercommand with subcommands. It is empty for a command without parameters. |
| Help.UsageTokens | src/bot/commands/help.rs:118-128 | Splitting the usage at single spaces gives back the parameter tokens in order. |
| Help.FileCommand | src/bot/commands/help.rs:80-83 | A command is appended to the first category with its key, or opens a new category at the end. |
| Help.Categorize | src/bot/commands/help.rs:68-84 | The category list starts with the None category. |
| Help.FirstVisible | src/bot/commands/help.rs:69-79 | The position of the first visible command with a key. It is below the list's length exactly when such a command exists. |
| Help.FiledInOrder | src/bot/commands/help.rs:80-83 | Filing the last command keeps the categories in order of first appearance. A new category's first visible command is that command, after those of all listed categories. |
| Help.CategoryOrder | src/bot/commands/help.rs:68-84 | After None, the categories appear in the order of their first visible commands. |
| Help.InCategory | src/bot/commands/help.rs:69-83 | The commands listed under a key are registered, visible and carry that key. |
| Help.CategorizeKeys | src/bot/commands/help.rs:68-83 | Category keys are distinct. Every key after None has a visible command, and every key of a visible command has a category. |
| Help.CategorizeLists | src/bot/commands/help.rs:69-83 | Each category lists exactly the visible commands with its key, in registration order. |
| Help.InCategoryEmpty | src/bot/commands/help.rs:71-78 | A key with no visible command lists nothing. |
| Help.UncategorisedFirst | src/bot/commands/help.rs:68 | The first category is None with exactly the visible uncategorised commands, even when there are none. |
| Help.CategoryTitle | src/bot/commands/help.rs:94 | The None category is titled "No category"; the others by their name. |
| Help.CategoryFields | src/bot/commands/help.rs:92-110 | One field per category, in order, titled by its category. |
| Help.CommandEntrySingle | src/bot/commands/help.rs:98-104 | A command's `\- **prefix name** usage` entry is one line when the prefix, name and parameter names are. |
| Help.CategoryEntries | src/bot/commands/help.rs:95-107 | A category's field splits on newlines back into one entry per listed command, in order; a category with no commands has an empty field. |
| Help.ArgumentLine | src/bot/commands/help.rs:47-52 | The line names the parameter, marks it " (required)" when required, and uses "[Missing description]" when it has no description. |
| Help.CommandIndex | src/bot/commands/help.rs:19-24 | The first command whose name equals the argument exactly. |
| Help.HelpFor | src/bot/commands/help.rs:17-65 | Two outcomes: <br>• not found exactly when no command has the name, with the message `No command "X" found`; <br>• otherwise the title, description, usage line and an argument field exactly when the command has parameters. |
| Help.ArgumentLines | src/bot/commands/help.rs:41-57 | The argument field splits into one line per parameter, in order. |

## Left out

- Discord plumbing:
  - replies, embeds, colours and footers;
  - the bot's start-up, events, tags, admin and FAQ commands;
  - the file-reading drivers and the build script.
- Downloading dumps: the attachment or link fetch, and the Luma-then-Saltwater fallback.
- The binary decoders `CrashLuma::from_file` and `CrashSWD::from_file` are not part of this model. `Luma.ParseDump` follows the Python parser described in the header comment of `src/crash/luma.rs` instead.
- Symbol-table loading, bounds initialisation, address lookup, 3GX symbol extraction and `as_generic` are not part of this model. The first three are parameters of `SymbolLookup.SymbolCommand`.
- `get_title_info`, `CrashInfo::region`, `ExcType::status_reg_names` and the contents of `FAULT_STATUS_SOURCES` are not part of this model. They are parameters.
- The Rust `ctru` command and `CtruError::from_code` are not part of this model. The Python command is modelled.
- The `Display` and `Debug` renderings of processor, exception kind, region and version are left out, except the region names used in the symbol-table path.
- The `help` dispatch between overview and single command is left out, as is the asynchronous evaluation of command checks. Check outcomes and owner membership are given booleans. A check that returns an error makes `display_commands` fail as a whole (`check(ctx).await?`, src/bot/commands/help.rs:71-74); that error path is not modelled, since every check here has a boolean outcome.
- The saltwater command reads a `registers` field that `CrashSWD` does not declare. The extended registers are therefore an optional parameter beside the record.
- The error texts of failed parses (`ParseIntError`, `ValueError`) are collapsed into error variants.
- Luma.ParseDump: rejects a processor word whose low half is neither 9 nor 11, and an exception code of 4 or more. The Python parser in the header comment accepts both. The Rust types cannot hold such values (`LumaProcessor`, src/crash/luma.rs:53-56; `ExcType::try_from`, src/crash/mod.rs:13-24), so the model follows them. These two checks come before the register-length check. A buffer with both a bad field and truncated registers is therefore reported by its bad field, not as truncated.
- Luma.EncodeDump: encoding a parsed dump does not in general give the buffer back. The parser ignores trailing bytes, the reserved word at offset 20, the high half of an Arm9 processor word and the low two bits of the register byte count, and it clamps blobs that run past the end. Only the converse round trip and re-parsing are proved (`Luma.ParseEncode`, `Luma.ParsedIsEncodable`).
- Help.CategoryEntries: stated only for a prefix, command names and parameter names without line breaks, since a line break inside them would split an entry.
- Solve.FindMatches: requires a US region. The source aborts for UNK (`unreachable!`/`panic!`) and for JP, EU and KR (`todo!`).
- LumaReport.RegisterDump: requires at least 16 registers because the source indexes registers 0..15 unconditionally and panics otherwise.
- LumaReport.ExtraLine: requires the title information of an Arm11 dump with extra memory, which the source unwraps.
- SaltwaterReport.ExtendedBlock: requires the registers of an extended dump, which the source unwraps.
- Text.AsciiLower: lower-cases ASCII letters only. Rust's `to_lowercase` also maps non-ASCII letters, for example the Kelvin sign to `k`, which would let such a string select a region.
- LumaReport.TrimEnd: treats only ASCII whitespace as trailing whitespace. The stack text holds only hex digits, spaces and newlines, so this does not affect the stack output.
- Ctru.ParseDecimal: Python's `int` also accepts surrounding whitespace, underscores between digits and non-ASCII digits. These are not modelled.
- Ctru.ParseHexInt: the same Python leniencies are not modelled.
- Help.UsageTokens: stated only for parameter names without spaces. Otherwise splitting the usage cannot recover the tokens.
- Help.ArgumentLines: stated only for parameters whose name and description contain no newline. Otherwise the field cannot be split back into lines.
