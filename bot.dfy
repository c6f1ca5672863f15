/**
 * The command and callback handlers: `/trades`, `/prices`, `/price` and the "Next →" callbacks.
 * A handler's reply is what it sends or edits; rendering to text is left to the formatters.
 */
module Bot {
  import opened Wrappers
  import opened Records
  import opened PyStr
  import opened PySeq
  import opened Pagination
  import opened GraphQL
  import opened Prices
  import opened Callbacks
  import opened Trades
  import opened Session

  const PricesFetchLimit := 200

  const TradesErrorPrefix := "Error fetching trades: "
  const PricesErrorPrefix := "Error fetching prices: "
  const PriceErrorPrefix := "Error fetching price: "
  const CallbackErrorPrefix := "Error: "

  /** One message a handler sends (`edit` when it replaces the message holding the pressed control). */
  datatype Reply =
    | NoReply
    | TradesUsageText
    | PriceUsageText
    | NoTradesFound(text: string)
    | TradesPageMsg(view: TradesView, edit: bool)
    | PricesPageMsg(pricesView: PricesView, nextControl: bool, edit: bool)
    | PriceFound(price: Price)
    | TokenNotFound(symbol: string)
    | Failed(prefix: string, error: FetchError)
    | Expired
      /** `int(page_str)` raised ValueError: the handler stops with an exception and sends nothing. */
    | InvalidPage(pageText: string)

  const FoundForAddress := " found for address: "

  /** `status_text`: the status filter's keyword, or nothing. */
  function StatusText(isOpen: Option<bool>): string {
    match isOpen
    case Some(true) => "open"
    case Some(false) => "closed"
    case None => ""
  }

  /** `symbol_text`: ` for <symbol>` when a non-empty symbol filter was given. */
  function SymbolText(baseSymbol: Option<string>): string {
    if baseSymbol.Some? && baseSymbol.value != "" then " for " + baseSymbol.value else ""
  }

  /** `f"No {status_text} trades{symbol_text} found for address: {address}"`. */
  function NoTradesText(isOpen: Option<bool>, baseSymbol: Option<string>, address: string): string {
    "No " + StatusText(isOpen) + " trades" + (SymbolText(baseSymbol) + FoundForAddress + address)
  }

  /** The empty-result message opens with `No <status> trades`. */
  lemma NoTradesTextStatus(isOpen: Option<bool>, baseSymbol: Option<string>, address: string)
    ensures StartsWith(NoTradesText(isOpen, baseSymbol, address), "No " + StatusText(isOpen) + " trades")
    ensures isOpen == Some(true) ==> StartsWith(NoTradesText(isOpen, baseSymbol, address), "No open trades")
    ensures isOpen == Some(false) ==> StartsWith(NoTradesText(isOpen, baseSymbol, address), "No closed trades")
    ensures isOpen == None ==> StartsWith(NoTradesText(isOpen, baseSymbol, address), "No  trades")
  {
    var head := "No " + StatusText(isOpen) + " trades";
    StartsWithConcat(head, SymbolText(baseSymbol) + FoundForAddress + address);
  }

  /** With a non-empty symbol filter the message closes with ` for <symbol> found for address: <address>`. */
  lemma NoTradesTextSymbol(isOpen: Option<bool>, sym: string, address: string)
    requires sym != ""
    ensures EndsWith(NoTradesText(isOpen, Some(sym), address), " for " + sym + FoundForAddress + address)
  {
    EndsWithSuffix("No " + StatusText(isOpen) + " trades", SymbolText(Some(sym)) + FoundForAddress + address);
  }

  /** Without a symbol filter the message closes with ` trades found for address: <address>`. */
  lemma NoTradesTextNoSymbol(isOpen: Option<bool>, baseSymbol: Option<string>, address: string)
    requires baseSymbol.None? || baseSymbol.value == ""
    ensures EndsWith(NoTradesText(isOpen, baseSymbol, address), " trades" + FoundForAddress + address)
  {
    var status := "No " + StatusText(isOpen);
    var tail := FoundForAddress + address;
    assert SymbolText(baseSymbol) + FoundForAddress + address == tail;
    EndsWithSuffix(status, " trades");
    EndsWithConcat(status + " trades", tail, " trades");
  }

  /** Page 0 of a track, sent as a new message. */
  function FirstPage(address: string, track: seq<Trade>, tradeType: string): Reply {
    TradesPageMsg(TradesPage(address, track, tradeType, 0), false)
  }

  /** The pages `trades_cmd` sends: each non-empty track the status filter admits, open first. */
  function InitialPages(address: string, isOpen: Option<bool>, trades: seq<Trade>): seq<Reply> {
    var open := OpenTrades(trades);
    var closed := ClosedTrades(trades);
    (if open != [] && (isOpen.None? || isOpen == Some(true)) then [FirstPage(address, open, "open")] else [])
    + (if closed != [] && (isOpen.None? || isOpen == Some(false)) then [FirstPage(address, closed, "closed")] else [])
  }

  /**
   * Which tracks are shown: the open one exactly when it is non-empty and the filter is not
   * `closed`, the closed one exactly when it is non-empty and the filter is not `open`; a page is
   * always page 0 of a whole track, sent as a new message.
   */
  lemma InitialPagesShown(address: string, isOpen: Option<bool>, trades: seq<Trade>)
    ensures FirstPage(address, OpenTrades(trades), "open") in InitialPages(address, isOpen, trades)
      <==> OpenTrades(trades) != [] && isOpen != Some(false)
    ensures FirstPage(address, ClosedTrades(trades), "closed") in InitialPages(address, isOpen, trades)
      <==> ClosedTrades(trades) != [] && isOpen != Some(true)
    ensures |InitialPages(address, isOpen, trades)| <= 2
    ensures forall r | r in InitialPages(address, isOpen, trades) ::
      r.TradesPageMsg? && !r.edit && r.view.window.startIdx == 0
  {
    var open := OpenTrades(trades);
    var closed := ClosedTrades(trades);
    var openPart := if open != [] && (isOpen.None? || isOpen == Some(true)) then [FirstPage(address, open, "open")] else [];
    var closedPart := if closed != [] && (isOpen.None? || isOpen == Some(false)) then [FirstPage(address, closed, "closed")] else [];
    assert InitialPages(address, isOpen, trades) == openPart + closedPart;
    assert FirstPage(address, open, "open").view.kind == OpenTrack;
    assert FirstPage(address, closed, "closed").view.kind == ClosedTrack;
    assert FirstPage(address, closed, "closed") !in openPart;
    assert FirstPage(address, open, "open") !in closedPart;
    assert FirstPage(address, open, "open") in openPart + closedPart <==> FirstPage(address, open, "open") in openPart;
    assert FirstPage(address, closed, "closed") in openPart + closedPart <==> FirstPage(address, closed, "closed") in closedPart;
    match isOpen
    case None =>
    case Some(b) => if b { assert isOpen == Some(true); } else { assert isOpen == Some(false); }
  }

  /**
   * Nothing but the first pages of the two tracks is sent, and when both are sent the open
   * track's page comes first.
   */
  lemma InitialPagesOnlyTracks(address: string, isOpen: Option<bool>, trades: seq<Trade>)
    ensures forall r | r in InitialPages(address, isOpen, trades) ::
      r == FirstPage(address, OpenTrades(trades), "open") || r == FirstPage(address, ClosedTrades(trades), "closed")
    ensures |InitialPages(address, isOpen, trades)| == 2 ==>
      InitialPages(address, isOpen, trades) == [FirstPage(address, OpenTrades(trades), "open"), FirstPage(address, ClosedTrades(trades), "closed")]
  {
  }

  /**
   * A non-empty fetch sends nothing exactly when a status filter is given and the track it selects
   * is empty.
   */
  lemma InitialPagesEmptyIff(address: string, isOpen: Option<bool>, trades: seq<Trade>)
    requires trades != []
    ensures InitialPages(address, isOpen, trades) == [] <==>
      isOpen.Some? && (if isOpen.value then OpenTrades(trades) == [] else ClosedTrades(trades) == [])
  {
    FilterMember(IsOpenTrade, trades, trades[0]);
    FilterMember(IsClosedTrade, trades, trades[0]);
  }

  /** Without a status filter, a non-empty fetch always shows at least one page. */
  lemma InitialPagesNonEmpty(address: string, trades: seq<Trade>)
    requires trades != []
    ensures |InitialPages(address, None, trades)| >= 1
  {
    FilterMember(IsOpenTrade, trades, trades[0]);
    FilterMember(IsClosedTrade, trades, trades[0]);
  }

  /** What `trades_cmd` sends once the fetch has returned. */
  function TradesOutcome(address: string, isOpen: Option<bool>, baseSymbol: Option<string>,
                         fetched: Result<seq<Trade>, FetchError>): (r: seq<Reply>)
    ensures |r| <= 2
    ensures fetched.Err? ==> r == [Failed(TradesErrorPrefix, fetched.error)]
    ensures fetched.Ok? && fetched.value == [] ==> r == [NoTradesFound(NoTradesText(isOpen, baseSymbol, address))]
    ensures fetched.Ok? && fetched.value != [] ==> r == InitialPages(address, isOpen, fetched.value)
    ensures fetched.Ok? && fetched.value != [] ==> forall x | x in r :: x.TradesPageMsg? && !x.edit
    ensures fetched.Ok? ==>
      (r == [] <==> fetched.value != [] && isOpen.Some? &&
                    (if isOpen.value then OpenTrades(fetched.value) == [] else ClosedTrades(fetched.value) == []))
  {
    match fetched
    case Err(e) => [Failed(TradesErrorPrefix, e)]
    case Ok(trades) =>
      if trades == [] then [NoTradesFound(NoTradesText(isOpen, baseSymbol, address))]
      else
        InitialPagesShown(address, isOpen, trades);
        InitialPagesEmptyIff(address, isOpen, trades);
        InitialPages(address, isOpen, trades)
  }

  /**
   * `trades_cmd`: parse the arguments, fetch up to 100 trades with the filters, report a failure or
   * an empty result, otherwise store both tracks and send their first pages.
   */
  method TradesCmd(user: UserData, args: seq<string>, source: TradesRequest -> Response<TradesData>)
    returns (replies: seq<Reply>)
    requires user.Valid()
    modifies user
    ensures user.Valid()
    ensures args == [] ==> replies == [TradesUsageText] && user.entries == old(user.entries)
    ensures args != [] ==>
      var address := Strip(args[0]);
      var isOpen := LastFlag(Kinds(args[1..]));
      var baseSymbol := LastSymbol(Kinds(args[1..]));
      var fetched := FetchTrades(source, address, isOpen, TradesFetchLimit, baseSymbol);
      && replies == TradesOutcome(address, isOpen, baseSymbol, fetched)
      && user.entries == (if fetched.Ok? && fetched.value != []
                          then WithTracks(old(user.entries), address, OpenTrades(fetched.value), ClosedTrades(fetched.value))
                          else old(user.entries))
  {
    var cmd := ParseTradesArgs(args);
    if cmd.TradesUsage? {
      return [TradesUsageText];
    }
    var fetched := FetchTrades(source, cmd.address, cmd.isOpen, TradesFetchLimit, cmd.baseSymbol);
    if fetched.Err? {
      return [Failed(TradesErrorPrefix, fetched.error)];
    }
    var trades := fetched.value;
    if trades == [] {
      return [NoTradesFound(NoTradesText(cmd.isOpen, cmd.baseSymbol, cmd.address))];
    }
    var open := OpenTrades(trades);
    var closed := ClosedTrades(trades);
    user.StoreTracks(cmd.address, open, closed);
    replies := [];
    if open != [] && (cmd.isOpen.None? || cmd.isOpen == Some(true)) {
      replies := replies + [FirstPage(cmd.address, open, "open")];
    }
    if closed != [] && (cmd.isOpen.None? || cmd.isOpen == Some(false)) {
      replies := replies + [FirstPage(cmd.address, closed, "closed")];
    }
  }

  /** A prices page (or the failure) after the fetch, `format_prices(prices, page * 10, 10)`. */
  function PricesOutcome(fetched: Result<seq<Price>, FetchError>, page: int, edit: bool, prefix: string): (r: Reply)
    ensures fetched.Err? ==> r == Failed(prefix, fetched.error)
    ensures fetched.Ok? ==> r.PricesPageMsg? && r.edit == edit && (r.nextControl <==> r.pricesView.HasMore())
    ensures fetched.Ok? ==> r.pricesView == FormatPrices(fetched.value, page * PricesPageSize, PricesPageSize)
  {
    match fetched
    case Err(e) => Failed(prefix, e)
    case Ok(prices) =>
      var view := FormatPrices(prices, page * PricesPageSize, PricesPageSize);
      PricesPageMsg(view, view.HasMore(), edit)
  }

  /** `context.args and context.args[0].lower() == "next"` (no stripping here). */
  predicate AsksNext(args: seq<string>) {
    args != [] && Lower(args[0]) == "next"
  }

  /** The page `/prices` shows: the stored counter plus one after "next", page 0 otherwise. */
  function CommandPage(m: Store, args: seq<string>): int {
    if AsksNext(args) then StoredPage(m) + 1 else 0
  }

  /** The session after `/prices` as written: only the "next" form writes the counter. */
  function CommandStore(m: Store, args: seq<string>): Store {
    if AsksNext(args) then WithPage(m, CommandPage(m, args)) else m
  }

  /** The session after `/prices` when the counter is reset to the page shown. */
  function CommandStoreCorrected(m: Store, args: seq<string>): Store {
    WithPage(m, CommandPage(m, args))
  }

  /** The page the `prices_next` control shows. */
  function NextControlPage(m: Store): int {
    StoredPage(m) + 1
  }

  /** `prices_cmd`: advance the counter on "next", fetch up to 200 prices, show the page. */
  method PricesCmd(user: UserData, args: seq<string>, source: int -> Response<PricesData>) returns (reply: Reply)
    requires user.Valid()
    modifies user
    ensures user.Valid()
    ensures user.entries == CommandStore(old(user.entries), args)
    ensures reply == PricesOutcome(FetchPrices(source, PricesFetchLimit), CommandPage(old(user.entries), args), false, PricesErrorPrefix)
  {
    ghost var m := user.entries;
    var page := 0;
    if AsksNext(args) {
      page := user.AdvancePricesPage();
    }
    assert page == CommandPage(m, args);
    assert user.entries == CommandStore(m, args);
    var fetched := FetchPrices(source, PricesFetchLimit);
    reply := PricesOutcome(fetched, page, false, PricesErrorPrefix);
  }

  /** `prices_cmd` with the counter reset whenever page 0 is shown, so it always names the page on screen. */
  method PricesCmdCorrected(user: UserData, args: seq<string>, source: int -> Response<PricesData>) returns (reply: Reply)
    requires user.Valid()
    modifies user
    ensures user.Valid()
    ensures user.entries == CommandStoreCorrected(old(user.entries), args)
    ensures reply == PricesOutcome(FetchPrices(source, PricesFetchLimit), CommandPage(old(user.entries), args), false, PricesErrorPrefix)
  {
    ghost var m := user.entries;
    var page := 0;
    if AsksNext(args) {
      page := user.AdvancePricesPage();
      assert page == CommandPage(m, args);
    } else {
      user.ResetPricesPage();
      assert page == CommandPage(m, args);
    }
    assert user.entries == CommandStoreCorrected(m, args);
    var fetched := FetchPrices(source, PricesFetchLimit);
    reply := PricesOutcome(fetched, page, false, PricesErrorPrefix);
  }

  /** What a user does on the prices screen: a `/prices` command, or pressing its "Next →" control. */
  datatype PricesEvent = PricesCommand(args: seq<string>) | NextPressed

  /** The session after one event, with the command as written or as corrected. */
  function AfterEvent(m: Store, e: PricesEvent, corrected: bool): Store {
    match e
    case PricesCommand(args) => if corrected then CommandStoreCorrected(m, args) else CommandStore(m, args)
    case NextPressed => WithPage(m, NextControlPage(m))
  }

  /** The page an event puts on screen. */
  function ShownBy(m: Store, e: PricesEvent): int {
    match e
    case PricesCommand(args) => CommandPage(m, args)
    case NextPressed => NextControlPage(m)
  }

  function Replay(m: Store, es: seq<PricesEvent>, corrected: bool): Store
    decreases |es|
  {
    if es == [] then m else Replay(AfterEvent(m, es[0], corrected), es[1..], corrected)
  }

  /** The page on screen after the last event. */
  function LastShown(m: Store, es: seq<PricesEvent>, corrected: bool): int
    requires es != []
    decreases |es|
  {
    if |es| == 1 then ShownBy(m, es[0]) else LastShown(AfterEvent(m, es[0], corrected), es[1..], corrected)
  }

  /**
   * With the corrected command the counter always names the page on screen, so after any run of
   * commands and presses the "Next →" control leads to the page after the one shown.
   */
  lemma {:induction false} CorrectedNextFollowsShown(m: Store, es: seq<PricesEvent>)
    requires es != []
    ensures StoredPage(Replay(m, es, true)) == LastShown(m, es, true)
    ensures NextControlPage(Replay(m, es, true)) == LastShown(m, es, true) + 1
    decreases |es|
  {
    if |es| == 1 {
      assert es[1..] == [];
    } else {
      CorrectedNextFollowsShown(AfterEvent(m, es[0], true), es[1..]);
    }
  }

  /**
   * As written, the control only follows the page shown after a "next" form: after
   * `/prices next` and then a plain `/prices`, page 0 is on screen but "Next →" shows page 2.
   */
  lemma NextSkipsAfterPlainPrices()
    ensures var es := [PricesCommand(["next"]), PricesCommand([])];
      && LastShown(map[], es, false) == 0
      && NextControlPage(Replay(map[], es, false)) == 2
  {
    var es := [PricesCommand(["next"]), PricesCommand([])];
    assert Lower("next") == "next";
    assert AsksNext(["next"]);
    var m1 := AfterEvent(map[], es[0], false);
    assert StoredPage(m1) == 1;
    assert es[1..] == [PricesCommand([])] && es[1..][1..] == [];
    assert Replay(map[], es, false) == m1;
  }

  /** `{}` is falsy: a matching record with no keys at all reads as not found. */
  predicate IsEmptyRecord(p: Price) { p == Price(None, None) }

  /** `price_cmd`: look the stripped symbol up among up to 200 prices. */
  method PriceCmd(args: seq<string>, source: int -> Response<PricesData>) returns (reply: Reply)
    ensures args == [] ==> reply == PriceUsageText
    ensures args != [] ==> var fetched := FetchPrices(source, LookupLimit);
      && (fetched.Err? ==> reply == Failed(PriceErrorPrefix, fetched.error))
      && (fetched.Ok? ==> reply.PriceFound? || reply == TokenNotFound(Strip(args[0])))
      && (fetched.Ok? ==> (reply.PriceFound? <==>
            exists k :: FirstMatchAt(fetched.value, k, Upper(Strip(args[0]))) && !IsEmptyRecord(fetched.value[k])))
      && (reply.PriceFound? ==> exists k :: FirstMatchAt(fetched.value, k, Upper(Strip(args[0]))) && fetched.value[k] == reply.price)
  {
    if args == [] {
      return PriceUsageText;
    }
    var symbol := Strip(args[0]);
    var found := FetchPriceBySymbol(source, symbol);
    if found.Err? {
      return Failed(PriceErrorPrefix, found.error);
    }
    if found.value.None? || IsEmptyRecord(found.value.value) {
      ghost var prices := FetchPrices(source, LookupLimit).value;
      forall k | FirstMatchAt(prices, k, Upper(symbol)) ensures IsEmptyRecord(prices[k]) {
        var k' :| FirstMatchAt(prices, k', Upper(symbol)) && prices[k'] == found.value.value;
        FirstMatchUnique(prices, k, k', Upper(symbol));
      }
      return TokenNotFound(symbol);
    }
    return PriceFound(found.value.value);
  }

  /** The `trades_next:` branch of `callback_handler`, given the session. */
  function TradesCallback(m: Store, data: string): (r: Reply)
    ensures r == NoReply <==> SplitTradesNext(data).None?
    ensures r.InvalidPage? <==> SplitTradesNext(data).Some? && ParseInt(SplitTradesNext(data).value.pageText).None?
    ensures r == Expired <==>
      && SplitTradesNext(data).Some? && ParseInt(SplitTradesNext(data).value.pageText).Some?
      && StoredTrades(m, SplitTradesNext(data).value.tradeType, SplitTradesNext(data).value.address) == []
    ensures r.TradesPageMsg? ==>
      var f := SplitTradesNext(data).value;
      && ParseInt(f.pageText).Some?
      && r.edit
      && r.view.window == Page(StoredTrades(m, f.tradeType, f.address), ParseInt(f.pageText).value, TradesPageSize)
      && (r.view.next.Some? <==> r.view.window.hasMore)
    ensures (&& SplitTradesNext(data).Some? && ParseInt(SplitTradesNext(data).value.pageText).Some?
             && StoredTrades(m, SplitTradesNext(data).value.tradeType, SplitTradesNext(data).value.address) != []) ==>
      var f := SplitTradesNext(data).value;
      r == TradesPageMsg(TradesPage(f.address, StoredTrades(m, f.tradeType, f.address), f.tradeType, ParseInt(f.pageText).value), true)
  {
    match SplitTradesNext(data)
    case None => NoReply
    case Some(f) =>
      match ParseInt(f.pageText)
      case None => InvalidPage(f.pageText)
      case Some(page) =>
        var trades := StoredTrades(m, f.tradeType, f.address);
        if trades == [] then Expired
        else TradesPageMsg(TradesPage(f.address, trades, f.tradeType, page), true)
  }

  /**
   * The "Next →" control of a track page leads to the following page of the same stored track, as
   * long as the address and the type have no colon; with nothing stored the session has expired.
   */
  lemma NextControlRoundTrip(m: Store, address: string, tradeType: string, page: int)
    requires ':' !in address && ':' !in tradeType
    ensures StoredTrades(m, tradeType, address) != [] ==>
      TradesCallback(m, EncodeTradesNext(address, tradeType, page))
        == TradesPageMsg(TradesPage(address, StoredTrades(m, tradeType, address), tradeType, page), true)
    ensures StoredTrades(m, tradeType, address) == [] ==>
      TradesCallback(m, EncodeTradesNext(address, tradeType, page)) == Expired
  {
    EncodeSplitRoundTrip(address, tradeType, page);
  }

  /**
   * The whole flow: after `/trades` has stored a fetch with open trades, pressing "Next →" on a page
   * of the open track (a colon-free address) edits it into the next page of that track.
   */
  lemma StoredFetchPaginates(m: Store, address: string, trades: seq<Trade>, page: int)
    requires WellTyped(m) && ':' !in address && OpenTrades(trades) != []
    requires TradesPage(address, OpenTrades(trades), "open", page).next.Some?
    ensures TradesCallback(WithTracks(m, address, OpenTrades(trades), ClosedTrades(trades)),
                           TradesPage(address, OpenTrades(trades), "open", page).next.value)
      == TradesPageMsg(TradesPage(address, OpenTrades(trades), "open", page + 1), true)
  {
    var m' := WithTracks(m, address, OpenTrades(trades), ClosedTrades(trades));
    StoreThenRead(m, address, OpenTrades(trades), ClosedTrades(trades), "open", address);
    NextControlRoundTrip(m', address, "open", page + 1);
  }

  /** What `callback_handler` does besides the prices branch, from the session as it stands. */
  function OtherCallback(m: Store, data: Option<string>): Reply {
    if data.Some? && StartsWith(data.value, TradesNextPrefix) then TradesCallback(m, data.value) else NoReply
  }

  /**
   * `callback_handler` for a pressed control carrying `data` (None: no query or no data): the prices
   * control advances the counter and edits in the next page; the trades control is read back; any
   * other payload is ignored.
   */
  method HandleCallback(user: UserData, data: Option<string>, source: int -> Response<PricesData>)
    returns (reply: Reply)
    requires user.Valid()
    modifies user
    ensures user.Valid()
    ensures data == Some(PricesNextData) ==>
      && user.entries == WithPage(old(user.entries), NextControlPage(old(user.entries)))
      && reply == PricesOutcome(FetchPrices(source, PricesFetchLimit), NextControlPage(old(user.entries)), true, CallbackErrorPrefix)
    ensures data != Some(PricesNextData) ==> user.entries == old(user.entries) && reply == OtherCallback(user.entries, data)
  {
    ghost var m := user.entries;
    if data == Some(PricesNextData) {
      var page := user.AdvancePricesPage();
      assert page == NextControlPage(m);
      assert user.entries == WithPage(m, NextControlPage(m));
      var fetched := FetchPrices(source, PricesFetchLimit);
      reply := PricesOutcome(fetched, page, true, CallbackErrorPrefix);
    } else if data.Some? && StartsWith(data.value, TradesNextPrefix) {
      reply := TradesCallback(user.entries, data.value);
      assert reply == OtherCallback(m, data);
    } else {
      reply := NoReply;
      assert reply == OtherCallback(m, data);
    }
  }
}
