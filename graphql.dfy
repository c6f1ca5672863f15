/**
 * The client side of the data source: the decision taken on a decoded GraphQL reply, the extraction
 * of the trade and price lists, the base-symbol post-filter of the trades query and the symbol lookup
 * over the price list. The HTTP exchange itself is the `source` parameter.
 */
module GraphQL {
  import opened Wrappers
  import opened Records
  import opened PyStr
  import opened PySeq

  /** The limit `fetch_price_by_symbol` asks for. */
  const LookupLimit := 200

  /**
   * The decision on a reply: a transport failure is raised as is; a payload holding `errors` raises
   * them; otherwise its `data` is returned (None standing for the empty object it defaults to).
   */
  function Query<D>(resp: Response<D>): (r: Result<Option<D>, FetchError>)
    ensures r.Err? <==> resp.TransportFailure? || resp.payload.errors.Some?
    ensures resp.TransportFailure? ==> r == Err(Transport(resp.message))
    ensures resp.Received? && resp.payload.errors.Some? ==> r == Err(Upstream(resp.payload.errors.value))
    ensures r.Ok? ==> r.value == resp.payload.data
  {
    match resp
    case TransportFailure(msg) => Err(Transport(msg))
    case Received(p) => if p.errors.Some? then Err(Upstream(p.errors.value)) else Ok(p.data)
  }

  /** `data.get("perp", {}).get("trades", [])`: a missing level yields the empty list. */
  function TradesOf(data: Option<TradesData>): (r: seq<Trade>)
    ensures (data.None? || data.value.perp.None? || data.value.perp.value.trades.None?) ==> r == []
  {
    match data
    case None => []
    case Some(d) => match d.perp
      case None => []
      case Some(p) => p.trades.GetOr([])
  }

  /** `data.get("oracle", {}).get("tokenPricesUsd", [])`. */
  function PricesOf(data: Option<PricesData>): (r: seq<Price>)
    ensures (data.None? || data.value.oracle.None? || data.value.oracle.value.tokenPricesUsd.None?) ==> r == []
  {
    match data
    case None => []
    case Some(d) => match d.oracle
      case None => []
      case Some(o) => o.tokenPricesUsd.GetOr([])
  }

  /**
   * The filter's key, `(t.get("perpBorrowing", {}).get("baseToken", {}).get("symbol", "") or "")`:
   * a missing level reads as empty, an explicit null where `.get` is applied raises.
   */
  function BaseSymbolOf(t: Trade): (r: Result<string, FetchError>)
    ensures r.Err? <==> t.perpBorrowing.Null? || (t.perpBorrowing.Present? && t.perpBorrowing.value.baseToken.Null?)
    ensures r.Ok? && r.value != [] ==>
      t.perpBorrowing.Present? && t.perpBorrowing.value.baseToken.Present? &&
      t.perpBorrowing.value.baseToken.value.symbol == Some(r.value)
  {
    match t.perpBorrowing
    case Absent => Ok("")
    case Null => Err(NullMember)
    case Present(b) => match b.baseToken
      case Absent => Ok("")
      case Null => Err(NullMember)
      case Present(tok) => Ok(tok.symbol.GetOr(""))
  }

  /** The trade's base symbol, upper-cased, equals `upper`. */
  predicate HasBase(t: Trade, upper: string) {
    var s := BaseSymbolOf(t);
    s.Ok? && Upper(s.value) == upper
  }

  /**
   * The comprehension over the fetched trades: it raises if the key of any trade raises, and
   * otherwise keeps exactly the trades whose base symbol matches, in their original order.
   */
  function SelectByBase(ts: seq<Trade>, upper: string): (r: Result<seq<Trade>, FetchError>)
    ensures r.Ok? <==> forall k :: 0 <= k < |ts| ==> BaseSymbolOf(ts[k]).Ok?
    ensures r.Ok? ==> r.value == Filter(t => HasBase(t, upper), ts)
  {
    if ts == [] then Ok([])
    else match BaseSymbolOf(ts[0])
      case Err(e) => Err(e)
      case Ok(s) =>
        match SelectByBase(ts[1..], upper)
        case Err(e) => Err(e)
        case Ok(rest) => Ok((if Upper(s) == upper then [ts[0]] else []) + rest)
  }

  /** The post-filter of `fetch_trades`: applied only when a non-empty base symbol was given. */
  function FilterByBaseSymbol(ts: seq<Trade>, baseSymbol: Option<string>): (r: Result<seq<Trade>, FetchError>)
    ensures baseSymbol.None? || baseSymbol == Some("") ==> r == Ok(ts)
  {
    if baseSymbol.None? || baseSymbol.value == "" then Ok(ts) else SelectByBase(ts, Upper(baseSymbol.value))
  }

  /**
   * With a non-empty filter the result is exactly the fetched trades whose upper-cased base symbol
   * equals the upper-cased filter, as a subsequence of the fetched list; it fails only when some
   * trade has a null `perpBorrowing` or `baseToken`.
   */
  lemma BaseFilterExact(ts: seq<Trade>, sym: string)
    requires sym != ""
    ensures var r := FilterByBaseSymbol(ts, Some(sym));
      && (r.Ok? <==> forall k :: 0 <= k < |ts| ==> BaseSymbolOf(ts[k]).Ok?)
      && (r.Ok? ==> IsSubseq(r.value, ts))
      && (r.Ok? ==> forall t :: t in r.value <==> t in ts && HasBase(t, Upper(sym)))
  {
    var u := Upper(sym);
    FilterIsSubseq(t => HasBase(t, u), ts);
    forall t {
      FilterMember(t => HasBase(t, u), ts, t);
    }
  }

  /** A trade whose base symbol is missing (or empty) survives no non-empty filter. */
  lemma MissingBaseSymbolNeverMatches(t: Trade, sym: string)
    requires sym != ""
    requires BaseSymbolOf(t) == Ok("")
    ensures !HasBase(t, Upper(sym))
  {
    assert |Upper(sym)| > 0;
  }

  /** `fetch_trades` after the query: list extraction, then the optional base-symbol filter. */
  function FetchTrades(source: TradesRequest -> Response<TradesData>, trader: string, isOpen: Option<bool>,
                       limit: int, baseSymbol: Option<string>): (r: Result<seq<Trade>, FetchError>)
    ensures var resp := source(TradesRequest(trader, isOpen, limit));
      && (Query(resp).Err? ==> r == Err(Query(resp).error))
      && (Query(resp).Ok? && (baseSymbol.None? || baseSymbol == Some("")) ==> r == Ok(TradesOf(Query(resp).value)))
      && (Query(resp).Ok? ==> r == FilterByBaseSymbol(TradesOf(Query(resp).value), baseSymbol))
  {
    var data :- Query(source(TradesRequest(trader, isOpen, limit)));
    FilterByBaseSymbol(TradesOf(data), baseSymbol)
  }

  /**
   * With a non-empty filter, what `fetch_trades` returns is a subsequence of the extracted list
   * holding exactly its trades on that base symbol.
   */
  lemma FetchTradesMatchFilter(source: TradesRequest -> Response<TradesData>, trader: string, isOpen: Option<bool>,
                               limit: int, sym: string)
    requires sym != ""
    ensures var r := FetchTrades(source, trader, isOpen, limit, Some(sym));
      var q := Query(source(TradesRequest(trader, isOpen, limit)));
      r.Ok? ==>
        && q.Ok?
        && IsSubseq(r.value, TradesOf(q.value))
        && forall t :: t in r.value <==> t in TradesOf(q.value) && HasBase(t, Upper(sym))
  {
    var q := Query(source(TradesRequest(trader, isOpen, limit)));
    if q.Ok? {
      BaseFilterExact(TradesOf(q.value), sym);
    }
  }

  /** `fetch_prices` after the query. */
  function FetchPrices(source: int -> Response<PricesData>, limit: int): (r: Result<seq<Price>, FetchError>)
    ensures Query(source(limit)).Err? ==> r == Err(Query(source(limit)).error)
    ensures Query(source(limit)).Ok? ==> r == Ok(PricesOf(Query(source(limit)).value))
  {
    var data :- Query(source(limit));
    Ok(PricesOf(data))
  }

  /** `(token.get("symbol") or "")` for a price record whose token may be missing. */
  function PriceSymbol(p: Price): string {
    match p.token
    case None => ""
    case Some(tok) => tok.symbol.GetOr("")
  }

  predicate SymbolMatches(p: Price, upper: string) {
    Upper(PriceSymbol(p)) == upper
  }

  /** `prices[k]` is the first record whose symbol matches. */
  predicate FirstMatchAt(prices: seq<Price>, k: int, upper: string) {
    && 0 <= k < |prices|
    && SymbolMatches(prices[k], upper)
    && forall j :: 0 <= j < k ==> !SymbolMatches(prices[j], upper)
  }

  /** There is at most one first match. */
  lemma FirstMatchUnique(prices: seq<Price>, k: int, k': int, upper: string)
    requires FirstMatchAt(prices, k, upper) && FirstMatchAt(prices, k', upper)
    ensures k == k'
  {
  }

  /**
   * The scan of `fetch_price_by_symbol`: the first record, in the order returned, whose symbol
   * matches case-insensitively, or None when no record matches.
   */
  method FindPriceBySymbol(prices: seq<Price>, symbol: string) returns (r: Option<Price>)
    ensures r.None? <==> forall k :: 0 <= k < |prices| ==> !SymbolMatches(prices[k], Upper(symbol))
    ensures r.Some? ==> exists k :: FirstMatchAt(prices, k, Upper(symbol)) && prices[k] == r.value
  {
    var upper := Upper(symbol);
    var i := 0;
    while i < |prices|
      invariant 0 <= i <= |prices|
      invariant forall j :: 0 <= j < i ==> !SymbolMatches(prices[j], upper)
    {
      if SymbolMatches(prices[i], upper) {
        return Some(prices[i]);
      }
      i := i + 1;
    }
    return None;
  }

  /** `fetch_price_by_symbol`: fetch up to 200 prices, then scan them. */
  method FetchPriceBySymbol(source: int -> Response<PricesData>, symbol: string) returns (r: Result<Option<Price>, FetchError>)
    ensures FetchPrices(source, LookupLimit).Err? ==> r == Err(FetchPrices(source, LookupLimit).error)
    ensures FetchPrices(source, LookupLimit).Ok? ==> r.Ok?
    ensures FetchPrices(source, LookupLimit).Ok? ==>
      var prices := FetchPrices(source, LookupLimit).value;
      && (r.value.None? <==> forall k :: 0 <= k < |prices| ==> !SymbolMatches(prices[k], Upper(symbol)))
      && (r.value.Some? ==> exists k :: FirstMatchAt(prices, k, Upper(symbol)) && prices[k] == r.value.value)
  {
    var fetched := FetchPrices(source, LookupLimit);
    if fetched.Err? {
      return Err(fetched.error);
    }
    var found := FindPriceBySymbol(fetched.value, symbol);
    return Ok(found);
  }

  /** Three trades on BTC, ETH, BTC filtered by "btc" give the two BTC trades in their original order. */
  lemma FilterExample()
    ensures var btc1 := Trade(Some(1), Some(true), Present(Borrowing(Some(0), Present(Token(Some(0), Some("BTC"))))));
      var eth := Trade(Some(2), Some(true), Present(Borrowing(Some(1), Present(Token(Some(1), Some("ETH"))))));
      var btc3 := Trade(Some(3), Some(false), Present(Borrowing(Some(0), Present(Token(Some(0), Some("BTC"))))));
      FilterByBaseSymbol([btc1, eth, btc3], Some("btc")) == Ok([btc1, btc3])
  {
    var btc1 := Trade(Some(1), Some(true), Present(Borrowing(Some(0), Present(Token(Some(0), Some("BTC"))))));
    var eth := Trade(Some(2), Some(true), Present(Borrowing(Some(1), Present(Token(Some(1), Some("ETH"))))));
    var btc3 := Trade(Some(3), Some(false), Present(Borrowing(Some(0), Present(Token(Some(0), Some("BTC"))))));
    assert Upper("btc") == "BTC";
    assert Upper("BTC") == "BTC";
    assert Upper("ETH") == "ETH";
    assert [btc1, eth, btc3][1..] == [eth, btc3];
    assert [eth, btc3][1..] == [btc3];
    assert [btc3][1..] == [];
    assert SelectByBase([], "BTC") == Ok([]);
    assert BaseSymbolOf(btc3) == Ok("BTC") && BaseSymbolOf(eth) == Ok("ETH");
    assert [btc3] + [] == [btc3];
    assert "ETH"[0] != "BTC"[0];
    assert [] + [btc3] == [btc3];
    assert SelectByBase([btc3], "BTC") == Ok([btc3]);
    assert SelectByBase([eth, btc3], "BTC") == Ok([btc3]);
    assert SelectByBase([btc1, eth, btc3], "BTC") == Ok([btc1] + [btc3]);
    assert [btc1] + [btc3] == [btc1, btc3];
    assert "btc" != "";
  }
}
