/** The pure parts of the `symbol` command: choosing the region from its
    optional argument, naming the region's symbol table, parsing the address
    and wording the reply. Loading the table and resolving the address are
    not part of this model; they are parameters of `SymbolCommand`. */
module SymbolLookup {
  import opened Common
  import opened Text
  import opened Saltwater

  /** The message of the region selector's error. */
  const InvalidRegionMessage: string := "invalid region"

  /** The region the (lowercased) argument names; absent means US. */
  function ParseRegion(arg: Option<string>): (r: Result<Region, string>)
    ensures arg.None? ==> r == Success(US)
    ensures arg.Some? ==> (r.Success? <==> AsciiLower(arg.value) in ["us", "eu", "jp", "kr"])
    ensures arg.Some? && r.Success? ==> AsciiLower(DebugName(r.value)) == AsciiLower(arg.value)
    ensures r.Success? ==> r.value != UNK
    ensures r.Failure? ==> r.error == InvalidRegionMessage
  {
    match arg
    case None => Success(US)
    case Some(s) =>
      var lower := AsciiLower(s);
      if lower == "us" then Success(US)
      else if lower == "eu" then Success(EU)
      else if lower == "jp" then Success(JP)
      else if lower == "kr" then Success(KR)
      else Failure(InvalidRegionMessage)
  }

  /** The lower-case spelling of each region's name. */
  lemma LowerNames(r: Region)
    ensures AsciiLower(DebugName(r)) == match r
      case JP => "jp"
      case US => "us"
      case EU => "eu"
      case KR => "kr"
      case UNK => "unk"
  {
    var n := DebugName(r);
    var l := AsciiLower(n);
    assert l[0] == LowerChar(n[0]) && l[1] == LowerChar(n[1]);
    if r == UNK {
      assert l[2] == LowerChar(n[2]);
    }
  }

  /** Letter case does not matter to the selector. */
  lemma ParseRegionIgnoresCase(s: string)
    ensures ParseRegion(Some(s)) == ParseRegion(Some(AsciiLower(s)))
  {
    AsciiLowerIdempotent(s);
  }

  /** Every selectable region is selected by its own name, in upper or lower
      case; only UNK cannot be selected. */
  lemma ParseRegionName(r: Region)
    requires r != UNK
    ensures ParseRegion(Some(DebugName(r))) == Success(r)
    ensures ParseRegion(Some(AsciiLower(DebugName(r)))) == Success(r)
  {
    LowerNames(r);
    ParseRegionIgnoresCase(DebugName(r));
  }

  /** `sym/rhm.<region>.csv` with the region's name in lower case. */
  function SymbolTablePath(r: Region): (p: string)
    ensures |p| == 12 + |DebugName(r)|
    ensures p[..8] == "sym/rhm." && p[|p| - 4..] == ".csv"
  {
    "sym/rhm." + AsciiLower(DebugName(r)) + ".csv"
  }

  /** Different regions read different symbol tables. */
  lemma SymbolTablePathInjective(a: Region, b: Region)
    requires SymbolTablePath(a) == SymbolTablePath(b)
    ensures a == b
  {
    var n := |DebugName(a)|;
    assert SymbolTablePath(a)[8..8 + n] == AsciiLower(DebugName(a));
    assert SymbolTablePath(b)[8..8 + n] == AsciiLower(DebugName(b));
    LowerNames(a);
    LowerNames(b);
  }

  /** `Function`: a resolved symbol, with the address that was looked up and
      the start of the function containing it. */
  datatype Function = Function(regPos: u32, funcPos: u32, symbol: string)

  /** The reply: the symbol's name and the start of its function, or a
      not-found message. */
  function SymbolReply(found: Option<Function>): (text: string)
    ensures found.None? ==> text == "Symbol couldn't be found"
    ensures found.Some? ==>
              && |text| == 25 + |found.value.symbol|
              && text[..14] == "Symbol found: "
              && text[14..14 + |found.value.symbol|] == found.value.symbol
              && ParseHexU32(text[|text| - 9..|text| - 1]) == Some(found.value.funcPos)
  {
    match found
    case None => "Symbol couldn't be found"
    case Some(f) =>
      var text := "Symbol found: " + f.symbol + " (" + Hex8(f.funcPos) + ")";
      assert text[|text| - 9..|text| - 1] == Hex8(f.funcPos);
      ParseHex8(f.funcPos);
      text
  }

  /** Distinct replies: found symbols never read as the not-found message, and
      two found replies agree only on equal names and function starts. */
  lemma SymbolReplyInjective(a: Option<Function>, b: Option<Function>)
    requires SymbolReply(a) == SymbolReply(b)
    ensures a.None? <==> b.None?
    ensures a.Some? && b.Some? ==> a.value.symbol == b.value.symbol && a.value.funcPos == b.value.funcPos
  {
    if a.Some? && b.Some? {
      var t := SymbolReply(a);
      assert |a.value.symbol| == |b.value.symbol|;
      assert t[14..14 + |a.value.symbol|] == a.value.symbol;
    }
  }

  /** Why the command fails: the region selector, the table loader or the
      bounds step (`load`, `initBounds`), the address, or the lookup itself. */
  datatype SymbolError =
    | BadRegion(message: string)
    | TableError(message: string)
    | BadAddress(text: string)
    | LookupError(message: string)

  /** The whole command, in its order of steps: region, table, bounds,
      address, lookup, reply. The table of type `S` and its three operations
      are not part of this model. */
  function SymbolCommand<S>(sym: string, region: Option<string>,
                            load: string -> Result<S, string>,
                            initBounds: (S, Region) -> Result<S, string>,
                            find: (S, u32) -> Result<Option<Function>, string>): (r: Result<string, SymbolError>)
    ensures ParseRegion(region).Failure? ==> r == Failure(BadRegion(InvalidRegionMessage))
    ensures r.Success? ==> ParseRegion(region).Success? && ParseHexU32(sym).Some?
    ensures r.Failure? && r.error.BadAddress? ==> ParseHexU32(sym).None?
  {
    match ParseRegion(region)
    case Failure(e) => Failure(BadRegion(e))
    case Success(reg) =>
      match load(SymbolTablePath(reg))
      case Failure(e) => Failure(TableError(e))
      case Success(table) =>
        match initBounds(table, reg)
        case Failure(e) => Failure(TableError(e))
        case Success(bounded) =>
          match ParseHexU32(sym)
          case None => Failure(BadAddress(sym))
          case Some(address) =>
            match find(bounded, address)
            case Failure(e) => Failure(LookupError(e))
            case Success(found) => Success(SymbolReply(found))
  }

  /** With a table that loads and resolves, a region and address that parse
      give the reply for whatever the table finds at that address in the
      region's own table. */
  lemma SymbolCommandAnswers<S>(sym: string, region: Option<string>,
                                load: string -> Result<S, string>,
                                initBounds: (S, Region) -> Result<S, string>,
                                find: (S, u32) -> Result<Option<Function>, string>)
    requires ParseRegion(region).Success? && ParseHexU32(sym).Some?
    requires load(SymbolTablePath(ParseRegion(region).value)).Success?
    requires initBounds(load(SymbolTablePath(ParseRegion(region).value)).value, ParseRegion(region).value).Success?
    ensures var reg := ParseRegion(region).value;
            var bounded := initBounds(load(SymbolTablePath(reg)).value, reg).value;
            var found := find(bounded, ParseHexU32(sym).value);
            && (found.Success? ==> SymbolCommand(sym, region, load, initBounds, find) == Success(SymbolReply(found.value)))
            && (found.Failure? ==> SymbolCommand(sym, region, load, initBounds, find) == Failure(LookupError(found.error)))
  {
  }
}
