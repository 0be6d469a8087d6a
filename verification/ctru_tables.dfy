/** The four lookup tables of the `ctru` command: the names of result-code
    descriptions, levels, summaries and modules. Each table is written as two
    matches: from a code to its row (the rows in the order the source lists
    them) and from a row to its text. Each lookup is total: a code the table
    does not list gets a fallback that spells out the code. */
module CtruTables {
  import opened Common
  import opened Text

  /** The description codes `get_description` lists: a scattering below 1000
      and every code from 1000 to 1023. */
  predicate IsListedDescription(d: int) {
    d == 0 || d == 2 || d == 4 || d == 5 || d == 6 || d == 7 || d == 8 || d == 10 || d == 26 ||
    d == 32 || d == 37 || d == 39 || d == 43 || d == 44 || d == 47 || d == 101 || d == 105 ||
    d == 106 || d == 120 || d == 141 || d == 230 || d == 271 || d == 391 || d == 392 || d == 393 ||
    d == 395 || d == 630 || d == 702 || d == 761 ||
    1000 <= d <= 1023
  }

  /** The row of `get_description` that names `d`, if any. */
  function DescriptionRow(d: int): (row: Option<nat>)
    ensures row.Some? <==> IsListedDescription(d)
    ensures row.Some? ==> row.value < 53
  {
    match d
    case 0 => Some(0)
    case 2 => Some(1)
    case 4 => Some(2)
    case 5 => Some(3)
    case 6 => Some(4)
    case 7 => Some(5)
    case 8 => Some(6)
    case 10 => Some(7)
    case 26 => Some(8)
    case 32 => Some(9)
    case 37 => Some(10)
    case 39 => Some(11)
    case 43 => Some(12)
    case 44 => Some(13)
    case 47 => Some(14)
    case 101 => Some(15)
    case 105 => Some(16)
    case 106 => Some(17)
    case 120 => Some(18)
    case 141 => Some(19)
    case 230 => Some(20)
    case 271 => Some(21)
    case 391 => Some(22)
    case 392 => Some(23)
    case 393 => Some(24)
    case 395 => Some(25)
    case 630 => Some(26)
    case 702 => Some(27)
    case 761 => Some(28)
    case 1000 => Some(29)
    case 1001 => Some(30)
    case 1002 => Some(31)
    case 1003 => Some(32)
    case 1004 => Some(33)
    case 1005 => Some(34)
    case 1006 => Some(35)
    case 1007 => Some(36)
    case 1008 => Some(37)
    case 1009 => Some(38)
    case 1010 => Some(39)
    case 1011 => Some(40)
    case 1012 => Some(41)
    case 1013 => Some(42)
    case 1014 => Some(43)
    case 1015 => Some(44)
    case 1016 => Some(45)
    case 1017 => Some(46)
    case 1018 => Some(47)
    case 1019 => Some(48)
    case 1020 => Some(49)
    case 1021 => Some(50)
    case 1022 => Some(51)
    case 1023 => Some(52)
    case _ => None
  }

  /** The text of each row of `get_description`. */
  function DescriptionText(row: nat): string {
    match row
    case 0 => "Success"
    case 1 => "Invalid memory permissions (kernel)"
    case 2 => "Invalid ticket version (AM)"
    case 3 => "Invalid string length. This error is returned when service name length is greater than 8 or zero. (srv)"
    case 4 => "Access denied. This error is returned when you request a service that you don't have access to. (srv)"
    case 5 => "String size does not match string contents. This error is returned when service name contains an unexpected null byte. (srv)"
    case 6 => "Camera already in use/busy (qtm)."
    case 7 => "Not enough memory (os)"
    case 8 => "Session closed by remote (os)"
    case 9 => "Empty CIA? (AM)"
    case 10 => "Invalid NCCH? (AM)"
    case 11 => "Invalid title version (AM)"
    case 12 => "Database doesn't exist/failed to open (AM)"
    case 13 => "Trying to uninstall system-app (AM)"
    case 14 => "Invalid command header (OS)"
    case 15 => "Archive not mounted/mount-point not found (fs)"
    case 16 => "Request timed out (http)"
    case 17 => "Invalid signature/CIA? (AM)"
    case 18 => "Title/object not found? (fs)"
    case 19 => "Gamecard not inserted? (fs)"
    case 20 => "Invalid open-flags / permissions? (fs)"
    case 21 => "Invalid configuration (mvd)."
    case 22 => "NCCH hash-check failed? (fs)"
    case 23 => "RSA/AES-MAC verification failed? (fs)"
    case 24 => "Invalid database? (AM)"
    case 25 => "RomFS/Savedata hash-check failed? (fs)"
    case 26 => "Command not allowed / missing permissions? (fs)"
    case 27 => "Invalid path? (fs)"
    case 28 => "Incorrect read-size for ExeFS? (fs)"
    case 29 => "Invalid selection"
    case 30 => "Too large"
    case 31 => "Not authorized"
    case 32 => "Already done"
    case 33 => "Invalid size"
    case 34 => "Invalid enum value"
    case 35 => "Invalid combination"
    case 36 => "No data"
    case 37 => "Busy"
    case 38 => "Misaligned address"
    case 39 => "Misaligned size"
    case 40 => "Out of memory"
    case 41 => "Not implemented"
    case 42 => "Invalid address"
    case 43 => "Invalid pointer"
    case 44 => "Invalid handle"
    case 45 => "Not initialized"
    case 46 => "Already initialized"
    case 47 => "Not found"
    case 48 => "Cancel requested"
    case 49 => "Already exists"
    case 50 => "Out of range"
    case 51 => "Timeout"
    case 52 => "Invalid result value"
    case _ => ""
  }

  /** `get_description`: the listed text, or the string `Unknown` for a code the table does not list. */
  function DescriptionName(d: int): (r: string)
    ensures !IsListedDescription(d) ==> r == "Unknown"
    ensures IsListedDescription(d) ==> r == DescriptionText(DescriptionRow(d).value)
  {
    match DescriptionRow(d)
    case Some(row) => DescriptionText(row)
    case None => "Unknown"
  }

  /** The level codes `get_level` lists. */
  predicate IsListedLevel(l: int) {
    l == 0 || l == 1 || l == 25 || l == 26 || l == 27 || l == 28 || l == 29 || l == 30 || l == 31
  }

  /** The row of `get_level` that names `l`, if any. */
  function LevelRow(l: int): (row: Option<nat>)
    ensures row.Some? <==> IsListedLevel(l)
    ensures row.Some? ==> row.value < 9
  {
    match l
    case 0 => Some(0)
    case 1 => Some(1)
    case 25 => Some(2)
    case 26 => Some(3)
    case 27 => Some(4)
    case 28 => Some(5)
    case 29 => Some(6)
    case 30 => Some(7)
    case 31 => Some(8)
    case _ => None
  }

  /** The text of each row of `get_level`. */
  function LevelText(row: nat): string {
    match row
    case 0 => "Success"
    case 1 => "Info"
    case 2 => "Status"
    case 3 => "Temporary"
    case 4 => "Permanent"
    case 5 => "Usage"
    case 6 => "Reinitialize"
    case 7 => "Reset"
    case 8 => "Fatal"
    case _ => ""
  }

  /** `get_level`: the listed text, or `Unknown (c)` for a code the table does not list. */
  function LevelName(l: int): (r: string)
    ensures !IsListedLevel(l) ==> r == "Unknown (" + IntToString(l) + ")"
    ensures IsListedLevel(l) ==> r == LevelText(LevelRow(l).value)
  {
    match LevelRow(l)
    case Some(row) => LevelText(row)
    case None => "Unknown (" + IntToString(l) + ")"
  }

  /** The summary codes `get_summary` lists. */
  predicate IsListedSummary(s: int) {
    s == 0 || s == 1 || s == 2 || s == 3 || s == 4 || s == 5 || s == 6 || s == 7 || s == 8 ||
    s == 9 || s == 10 || s == 11 || s == 63
  }

  /** The row of `get_summary` that names `s`, if any. */
  function SummaryRow(s: int): (row: Option<nat>)
    ensures row.Some? <==> IsListedSummary(s)
    ensures row.Some? ==> row.value < 13
  {
    match s
    case 0 => Some(0)
    case 1 => Some(1)
    case 2 => Some(2)
    case 3 => Some(3)
    case 4 => Some(4)
    case 5 => Some(5)
    case 6 => Some(6)
    case 7 => Some(7)
    case 8 => Some(8)
    case 9 => Some(9)
    case 10 => Some(10)
    case 11 => Some(11)
    case 63 => Some(12)
    case _ => None
  }

  /** The text of each row of `get_summary`. */
  function SummaryText(row: nat): string {
    match row
    case 0 => "Success"
    case 1 => "Nothing happened"
    case 2 => "Would block"
    case 3 => "Out of resource"
    case 4 => "Not found"
    case 5 => "Invalid state"
    case 6 => "Not supported"
    case 7 => "Invalid argument"
    case 8 => "Wrong argument"
    case 9 => "Canceled"
    case 10 => "Status changed"
    case 11 => "Internal"
    case 12 => "Invalid result value"
    case _ => ""
  }

  /** `get_summary`: the listed text, or `Unknown (c)` for a code the table does not list. */
  function SummaryName(s: int): (r: string)
    ensures !IsListedSummary(s) ==> r == "Unknown (" + IntToString(s) + ")"
    ensures IsListedSummary(s) ==> r == SummaryText(SummaryRow(s).value)
  {
    match SummaryRow(s)
    case Some(row) => SummaryText(row)
    case None => "Unknown (" + IntToString(s) + ")"
  }

  /** The module codes `get_module` lists. */
  predicate IsListedModule(m: int) {
    m == 0 || m == 1 || m == 2 || m == 3 || m == 4 || m == 5 || m == 6 || m == 7 || m == 8 ||
    m == 9 || m == 10 || m == 11 || m == 12 || m == 13 || m == 14 || m == 15 || m == 16 ||
    m == 17 || m == 18 || m == 19 || m == 20 || m == 21 || m == 22 || m == 23 || m == 24 ||
    m == 25 || m == 26 || m == 27 || m == 28 || m == 29 || m == 30 || m == 31 || m == 32 ||
    m == 33 || m == 34 || m == 35 || m == 36 || m == 37 || m == 38 || m == 39 || m == 40 ||
    m == 41 || m == 42 || m == 43 || m == 44 || m == 45 || m == 46 || m == 47 || m == 48 ||
    m == 49 || m == 50 || m == 51 || m == 52 || m == 53 || m == 54 || m == 55 || m == 56 ||
    m == 57 || m == 58 || m == 59 || m == 60 || m == 61 || m == 62 || m == 63 || m == 64 ||
    m == 65 || m == 66 || m == 67 || m == 68 || m == 69 || m == 70 || m == 71 || m == 72 ||
    m == 73 || m == 74 || m == 75 || m == 76 || m == 77 || m == 78 || m == 79 || m == 80 ||
    m == 81 || m == 82 || m == 83 || m == 84 || m == 85 || m == 86 || m == 87 || m == 90 ||
    m == 91 || m == 92 || m == 93 || m == 94 || m == 95 || m == 96 || m == 97 || m == 254 ||
    m == 255
  }

  /** The row of `get_module` that names `m`, if any. */
  function ModuleRow(m: int): (row: Option<nat>)
    ensures row.Some? <==> IsListedModule(m)
    ensures row.Some? ==> row.value < 98
  {
    match m
    case 0 => Some(0)
    case 1 => Some(1)
    case 2 => Some(2)
    case 3 => Some(3)
    case 4 => Some(4)
    case 5 => Some(5)
    case 6 => Some(6)
    case 7 => Some(7)
    case 8 => Some(8)
    case 9 => Some(9)
    case 10 => Some(10)
    case 11 => Some(11)
    case 12 => Some(12)
    case 13 => Some(13)
    case 14 => Some(14)
    case 15 => Some(15)
    case 16 => Some(16)
    case 17 => Some(17)
    case 18 => Some(18)
    case 19 => Some(19)
    case 20 => Some(20)
    case 21 => Some(21)
    case 22 => Some(22)
    case 23 => Some(23)
    case 24 => Some(24)
    case 25 => Some(25)
    case 26 => Some(26)
    case 27 => Some(27)
    case 28 => Some(28)
    case 29 => Some(29)
    case 30 => Some(30)
    case 31 => Some(31)
    case 32 => Some(32)
    case 33 => Some(33)
    case 34 => Some(34)
    case 35 => Some(35)
    case 36 => Some(36)
    case 37 => Some(37)
    case 38 => Some(38)
    case 39 => Some(39)
    case 40 => Some(40)
    case 41 => Some(41)
    case 42 => Some(42)
    case 43 => Some(43)
    case 44 => Some(44)
    case 45 => Some(45)
    case 46 => Some(46)
    case 47 => Some(47)
    case 48 => Some(48)
    case 49 => Some(49)
    case 50 => Some(50)
    case 51 => Some(51)
    case 52 => Some(52)
    case 53 => Some(53)
    case 54 => Some(54)
    case 55 => Some(55)
    case 56 => Some(56)
    case 57 => Some(57)
    case 58 => Some(58)
    case 59 => Some(59)
    case 60 => Some(60)
    case 61 => Some(61)
    case 62 => Some(62)
    case 63 => Some(63)
    case 64 => Some(64)
    case 65 => Some(65)
    case 66 => Some(66)
    case 67 => Some(67)
    case 68 => Some(68)
    case 69 => Some(69)
    case 70 => Some(70)
    case 71 => Some(71)
    case 72 => Some(72)
    case 73 => Some(73)
    case 74 => Some(74)
    case 75 => Some(75)
    case 76 => Some(76)
    case 77 => Some(77)
    case 78 => Some(78)
    case 79 => Some(79)
    case 80 => Some(80)
    case 81 => Some(81)
    case 82 => Some(82)
    case 83 => Some(83)
    case 84 => Some(84)
    case 85 => Some(85)
    case 86 => Some(86)
    case 87 => Some(87)
    case 90 => Some(88)
    case 91 => Some(89)
    case 92 => Some(90)
    case 93 => Some(91)
    case 94 => Some(92)
    case 95 => Some(93)
    case 96 => Some(94)
    case 97 => Some(95)
    case 254 => Some(96)
    case 255 => Some(97)
    case _ => None
  }

  /** The text of each row of `get_module`. */
  function ModuleText(row: nat): string {
    match row
    case 0 => "Common"
    case 1 => "Kernel"
    case 2 => "Util"
    case 3 => "File server"
    case 4 => "Loader server"
    case 5 => "TCB"
    case 6 => "OS"
    case 7 => "DBG"
    case 8 => "DMNT"
    case 9 => "PDN"
    case 10 => "GSP"
    case 11 => "I2C"
    case 12 => "GPIO"
    case 13 => "DD"
    case 14 => "CODEC"
    case 15 => "SPI"
    case 16 => "PXI"
    case 17 => "FS"
    case 18 => "DI"
    case 19 => "HID"
    case 20 => "CAM"
    case 21 => "PI"
    case 22 => "PM"
    case 23 => "PM_LOW"
    case 24 => "FSI"
    case 25 => "SRV"
    case 26 => "NDM"
    case 27 => "NWM"
    case 28 => "SOC"
    case 29 => "LDR"
    case 30 => "ACC"
    case 31 => "RomFS"
    case 32 => "AM"
    case 33 => "HIO"
    case 34 => "Updater"
    case 35 => "MIC"
    case 36 => "FND"
    case 37 => "MP"
    case 38 => "MPWL"
    case 39 => "AC"
    case 40 => "HTTP"
    case 41 => "DSP"
    case 42 => "SND"
    case 43 => "DLP"
    case 44 => "HIO_LOW"
    case 45 => "CSND"
    case 46 => "SSL"
    case 47 => "AM_LOW"
    case 48 => "NEX"
    case 49 => "Friends"
    case 50 => "RDT"
    case 51 => "Applet"
    case 52 => "NIM"
    case 53 => "PTM"
    case 54 => "MIDI"
    case 55 => "MC"
    case 56 => "SWC"
    case 57 => "FatFS"
    case 58 => "NGC"
    case 59 => "CARD"
    case 60 => "CARDNOR"
    case 61 => "SDMC"
    case 62 => "BOSS"
    case 63 => "DBM"
    case 64 => "Config"
    case 65 => "PS"
    case 66 => "CEC"
    case 67 => "IR"
    case 68 => "UDS"
    case 69 => "PL"
    case 70 => "CUP"
    case 71 => "Gyroscope"
    case 72 => "MCU"
    case 73 => "NS"
    case 74 => "News"
    case 75 => "RO"
    case 76 => "GD"
    case 77 => "Card SPI"
    case 78 => "EC"
    case 79 => "Web Browser"
    case 80 => "Test"
    case 81 => "ENC"
    case 82 => "PIA"
    case 83 => "ACT"
    case 84 => "VCTL"
    case 85 => "OLV"
    case 86 => "NEIA"
    case 87 => "NPNS"
    case 88 => "AVD"
    case 89 => "L2B"
    case 90 => "MVD"
    case 91 => "NFC"
    case 92 => "UART"
    case 93 => "SPM"
    case 94 => "QTM"
    case 95 => "NFP (amiibo)"
    case 96 => "Application"
    case 97 => "Invalid result value"
    case _ => ""
  }

  /** `get_module`: the listed text, or `<Unknown (c)>` for a code the table does not list. */
  function ModuleName(m: int): (r: string)
    ensures !IsListedModule(m) ==> r == "<Unknown (" + IntToString(m) + ")>"
    ensures IsListedModule(m) ==> r == ModuleText(ModuleRow(m).value)
  {
    match ModuleRow(m)
    case Some(row) => ModuleText(row)
    case None => "<Unknown (" + IntToString(m) + ")>"
  }

  /** The all-ones description, 1023, names an invalid result value. */
  lemma InvalidDescription()
    ensures DescriptionName(1023) == "Invalid result value"
  {
  }

  /** The all-ones summary, 63, names an invalid result value. */
  lemma InvalidSummary()
    ensures SummaryName(63) == "Invalid result value"
  {
  }

  /** The all-ones module, 255, names an invalid result value. */
  lemma InvalidModule()
    ensures ModuleName(255) == "Invalid result value"
  {
  }

  /** The module table lists 0..87, 90..97, 254 and 255: 88, 89 and 98..253
      fall back. */
  lemma ModuleCodesRanges(m: int)
    ensures IsListedModule(m) <==> (0 <= m <= 87 || 90 <= m <= 97 || m == 254 || m == 255)
  {
  }

  /** Levels 2..24 are unnamed; only 0, 1 and 25..31 have names. */
  lemma LevelCodesRanges(l: int)
    ensures IsListedLevel(l) <==> (0 <= l <= 1 || 25 <= l <= 31)
  {
  }
}
