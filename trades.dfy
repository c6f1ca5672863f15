/**
 * The trades command's pure parts: the argument parser, the split of one fetch into the open and
 * closed tracks, the abbreviated address shown in page headers, and the page a track renders to.
 */
module Trades {
  import opened Wrappers
  import opened Records
  import opened PyStr
  import opened PySeq
  import opened Pagination
  import opened Callbacks

  /** The limit the trades command asks the data source for. */
  const TradesFetchLimit := 100

  /** How one argument after the address is read. */
  datatype ArgKind = OpenFlag | ClosedFlag | SymbolArg(symbol: string)

  /** `open` / `closed` in any case select the status filter; any other token is an upper-cased symbol. */
  function Classify(arg: string): ArgKind {
    var lowered := Lower(Strip(arg));
    if lowered == "open" then OpenFlag
    else if lowered == "closed" then ClosedFlag
    else SymbolArg(Upper(Strip(arg)))
  }

  /** Classification ignores case: an argument reads the same once upper-cased. */
  lemma ClassifyUpper(arg: string)
    ensures Classify(Upper(arg)) == Classify(arg)
  {
    StripUpper(arg);
    LowerOfUpper(Strip(arg));
    UpperIdempotent(Strip(arg));
  }

  /** Two arguments that differ only in ASCII case select the same keyword or the same symbol. */
  lemma ClassifyCaseInsensitive(a: string, b: string)
    requires Upper(a) == Upper(b)
    ensures Classify(a) == Classify(b)
  {
    ClassifyUpper(a);
    ClassifyUpper(b);
  }

  predicate IsFlag(k: ArgKind) { k.OpenFlag? || k.ClosedFlag? }

  /** How each token reads. */
  function Kinds(tokens: seq<string>): (ks: seq<ArgKind>)
    ensures |ks| == |tokens|
  {
    seq(|tokens|, i requires 0 <= i < |tokens| => Classify(tokens[i]))
  }

  /** The status filter the tokens leave behind: the last `open`/`closed` one wins. */
  function LastFlag(ks: seq<ArgKind>): Option<bool> {
    if ks == [] then None
    else match ks[|ks| - 1]
      case OpenFlag => Some(true)
      case ClosedFlag => Some(false)
      case SymbolArg(_) => LastFlag(ks[..|ks| - 1])
  }

  /** The base-symbol filter the tokens leave behind: the last non-keyword token wins. */
  function LastSymbol(ks: seq<ArgKind>): Option<string> {
    if ks == [] then None
    else match ks[|ks| - 1]
      case SymbolArg(s) => Some(s)
      case _ => LastSymbol(ks[..|ks| - 1])
  }

  /** One more token: a keyword replaces the status filter, a symbol replaces the symbol filter. */
  lemma LastOfSnoc(ks: seq<ArgKind>, k: ArgKind)
    ensures LastFlag(ks + [k]) == (if k.OpenFlag? then Some(true) else if k.ClosedFlag? then Some(false) else LastFlag(ks))
    ensures LastSymbol(ks + [k]) == (if k.SymbolArg? then Some(k.symbol) else LastSymbol(ks))
  {
    assert (ks + [k])[..|ks|] == ks;
  }

  /** With no keyword among the tokens there is no status filter, and conversely. */
  lemma {:induction false} LastFlagNone(ks: seq<ArgKind>)
    ensures LastFlag(ks).None? <==> forall i :: 0 <= i < |ks| ==> !IsFlag(ks[i])
  {
    if ks != [] {
      var init := ks[..|ks| - 1];
      LastFlagNone(init);
      assert forall i :: 0 <= i < |init| ==> init[i] == ks[i];
    }
  }

  /** A keyword followed only by symbols decides the status filter. */
  lemma {:induction false} LastFlagIsLastKeyword(ks: seq<ArgKind>, i: int)
    requires 0 <= i < |ks| && IsFlag(ks[i])
    requires forall j :: i < j < |ks| ==> !IsFlag(ks[j])
    ensures LastFlag(ks) == Some(ks[i] == OpenFlag)
    decreases |ks|
  {
    if i < |ks| - 1 {
      var init := ks[..|ks| - 1];
      assert forall j :: 0 <= j < |init| ==> init[j] == ks[j];
      LastFlagIsLastKeyword(init, i);
    }
  }

  /** With only keywords among the tokens there is no symbol filter, and conversely. */
  lemma {:induction false} LastSymbolNone(ks: seq<ArgKind>)
    ensures LastSymbol(ks).None? <==> forall i :: 0 <= i < |ks| ==> IsFlag(ks[i])
  {
    if ks != [] {
      var init := ks[..|ks| - 1];
      LastSymbolNone(init);
      assert forall i :: 0 <= i < |init| ==> init[i] == ks[i];
    }
  }

  /** A symbol token followed only by keywords decides the symbol filter. */
  lemma {:induction false} LastSymbolIsLastSymbolToken(ks: seq<ArgKind>, i: int)
    requires 0 <= i < |ks| && ks[i].SymbolArg?
    requires forall j :: i < j < |ks| ==> IsFlag(ks[j])
    ensures LastSymbol(ks) == Some(ks[i].symbol)
    decreases |ks|
  {
    if i < |ks| - 1 {
      var init := ks[..|ks| - 1];
      assert forall j :: 0 <= j < |init| ==> init[j] == ks[j];
      LastSymbolIsLastSymbolToken(init, i);
    }
  }

  /** The parsed `/trades` command: the usage text, or a query. */
  datatype TradesCommand =
    | TradesUsage
    | TradesQuery(address: string, isOpen: Option<bool>, baseSymbol: Option<string>)

  /**
   * The loop of `trades_cmd` over the classified arguments: each keyword replaces the status filter
   * and each other token replaces the symbol filter, so the last of each kind wins.
   */
  method ApplyArgs(ks: seq<ArgKind>) returns (isOpen: Option<bool>, baseSymbol: Option<string>)
    ensures isOpen == LastFlag(ks) && baseSymbol == LastSymbol(ks)
  {
    isOpen, baseSymbol := None, None;
    for i := 0 to |ks|
      invariant isOpen == LastFlag(ks[..i]) && baseSymbol == LastSymbol(ks[..i])
    {
      assert ks[..i + 1] == ks[..i] + [ks[i]];
      LastOfSnoc(ks[..i], ks[i]);
      match ks[i] {
        case OpenFlag => isOpen := Some(true);
        case ClosedFlag => isOpen := Some(false);
        case SymbolArg(s) => baseSymbol := Some(s);
      }
    }
    assert ks[..|ks|] == ks;
  }

  /**
   * The argument handling of `trades_cmd`: no arguments asks for the usage text; otherwise the
   * stripped first argument is the address and the remaining arguments set the two filters.
   */
  method ParseTradesArgs(args: seq<string>) returns (cmd: TradesCommand)
    ensures cmd.TradesUsage? <==> args == []
    ensures args != [] ==> cmd == TradesQuery(Strip(args[0]), LastFlag(Kinds(args[1..])), LastSymbol(Kinds(args[1..])))
  {
    if args == [] {
      return TradesUsage;
    }
    var address := Strip(args[0]);
    var isOpen, baseSymbol := ApplyArgs(Kinds(args[1..]));
    return TradesQuery(address, isOpen, baseSymbol);
  }

  /** `t.get('isOpen', False)` is truthy: a missing or null flag counts as closed. */
  predicate IsOpenTrade(t: Trade) { t.isOpen == Some(true) }

  predicate IsClosedTrade(t: Trade) { !IsOpenTrade(t) }

  /** The open track, `[t for t in trades if t.get('isOpen', False)]`. */
  function OpenTrades(trades: seq<Trade>): seq<Trade> { Filter(IsOpenTrade, trades) }

  /** The closed track, `[t for t in trades if not t.get('isOpen', False)]`. */
  function ClosedTrades(trades: seq<Trade>): seq<Trade> { Filter(IsClosedTrade, trades) }

  /**
   * The two tracks partition the fetch: the fetched list is a merge of them, so every trade is in
   * exactly one track, each track keeps the fetched order, and the lengths add up.
   */
  lemma TracksPartition(trades: seq<Trade>)
    ensures Interleaves(trades, OpenTrades(trades), ClosedTrades(trades))
    ensures IsSubseq(OpenTrades(trades), trades) && IsSubseq(ClosedTrades(trades), trades)
    ensures |OpenTrades(trades)| + |ClosedTrades(trades)| == |trades|
    ensures multiset(OpenTrades(trades)) + multiset(ClosedTrades(trades)) == multiset(trades)
    ensures forall t :: t in OpenTrades(trades) <==> t in trades && t.isOpen == Some(true)
    ensures forall t :: t in ClosedTrades(trades) <==> t in trades && t.isOpen != Some(true)
  {
    FilterPartition(IsOpenTrade, IsClosedTrade, trades);
    FilterPartitionCounts(IsOpenTrade, IsClosedTrade, trades);
    FilterIsSubseq(IsOpenTrade, trades);
    FilterIsSubseq(IsClosedTrade, trades);
    forall t
      ensures t in OpenTrades(trades) <==> t in trades && t.isOpen == Some(true)
      ensures t in ClosedTrades(trades) <==> t in trades && t.isOpen != Some(true)
    {
      FilterMember(IsOpenTrade, trades, t);
      FilterMember(IsClosedTrade, trades, t);
    }
  }

  /** How many leading characters the header shows: 8 for `0x` addresses, 10 for the others. */
  function HeadLength(address: string): nat {
    if StartsWith(address, "0x") then 8 else 10
  }

  /**
   * The address as page headers show it, `address[:8]...address[-6:]` for `0x` addresses and
   * `address[:10]...address[-6:]` otherwise: a prefix, three dots, a suffix of the address.
   */
  function AbbreviateAddress(address: string): (r: string)
    ensures r == address[..Min(HeadLength(address), |address|)] + "..." + address[Max(0, |address| - 6)..]
    ensures |r| == Min(HeadLength(address), |address|) + 3 + Min(6, |address|)
  {
    var head := HeadLength(address);
    PySliceNonNegative(address, 0, head);
    PySlice(address, 0, head) + "..." + PySlice(address, -6, |address|)
  }

  /** An address long enough shows disjoint head and tail: exactly head + 9 characters. */
  lemma AbbreviateLongAddress(address: string)
    requires |address| >= HeadLength(address) + 6
    ensures |AbbreviateAddress(address)| == HeadLength(address) + 9
    ensures AbbreviateAddress(address) == address[..HeadLength(address)] + "..." + address[|address| - 6..]
  {
  }

  /** Which formatter and header a track page uses: `"open"` selects the open one, anything else the closed one. */
  datatype TrackKind = OpenTrack | ClosedTrack

  function KindOf(tradeType: string): TrackKind {
    if tradeType == "open" then OpenTrack else ClosedTrack
  }

  /**
   * What `send_trades_page` renders: the track kind, the abbreviated address, the page of the track
   * (the formatters map trades one to one, so slicing the formatted list is slicing the trades), and
   * the payload of the "Next →" control when there is a next page.
   */
  datatype TradesView = TradesView(kind: TrackKind, addressDisplay: string, window: Window<Trade>, next: Option<string>)

  function TradesPage(address: string, trades: seq<Trade>, tradeType: string, page: int): (v: TradesView)
    ensures v.window == Page(trades, page, TradesPageSize)
    ensures v.next.Some? <==> v.window.hasMore
    ensures v.next.Some? ==> v.next.value == EncodeTradesNext(address, tradeType, page + 1)
  {
    var w := Page(trades, page, TradesPageSize);
    TradesView(KindOf(tradeType), AbbreviateAddress(address), w,
               if w.hasMore then Some(EncodeTradesNext(address, tradeType, page + 1)) else None)
  }
}
