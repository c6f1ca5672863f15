/**
 * The records the data source returns, reduced to the members the bot's logic reads.
 * Display-only members (leverage, prices, collateral, PnL, block timestamps) feed the
 * text formatters only and are not carried.
 */
module Records {
  import opened Wrappers

  /** A member of a JSON object where the bot's code tells a missing key from an explicit null. */
  datatype Field<+T> = Absent | Null | Present(value: T)

  /**
   * A token reference `{ id name symbol }`. `id` is None when the key is missing;
   * `symbol` is None when it is missing or null (every reader applies `or ""` to it).
   */
  datatype Token = Token(id: Option<int>, symbol: Option<string>)

  /** The `perpBorrowing` block of a trade: its market and the base token. */
  datatype Borrowing = Borrowing(marketId: Option<int>, baseToken: Field<Token>)

  /** A trade record; `isOpen` is None when the key is missing or null. */
  datatype Trade = Trade(id: Option<int>, isOpen: Option<bool>, perpBorrowing: Field<Borrowing>)

  /** An oracle price record; `token` is None when missing or null (`p.get("token") or {}`). */
  datatype Price = Price(token: Option<Token>, priceUsd: Option<real>)

  /** `data.perp` of the trades query; `trades` is None when the key is missing. */
  datatype PerpData = PerpData(trades: Option<seq<Trade>>)
  datatype TradesData = TradesData(perp: Option<PerpData>)

  /** `data.oracle` of the prices query; `tokenPricesUsd` is None when the key is missing. */
  datatype OracleData = OracleData(tokenPricesUsd: Option<seq<Price>>)
  datatype PricesData = PricesData(oracle: Option<OracleData>)

  /** A decoded GraphQL reply: `errors` holds the raw errors when that key is present; `data` is None when missing. */
  datatype Payload<D> = Payload(errors: Option<string>, data: Option<D>)

  /** What the data source hands back: a failed exchange (network, timeout, non-2xx status, body not JSON) or a payload. */
  datatype Response<D> = TransportFailure(message: string) | Received(payload: Payload<D>)

  /** The exceptions the client raises. */
  datatype FetchError =
    | Transport(message: string)   // the HTTP exchange failed
    | Upstream(errors: string)     // the reply carried `errors`
    | NullMember                   // `.get` applied to an explicit null (Python AttributeError)

  /** The variables of the trades query. */
  datatype TradesRequest = TradesRequest(trader: string, isOpen: Option<bool>, limit: int)
}
