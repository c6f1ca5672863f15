/**
 * The per-user session store (`context.user_data`): the two tracks of the last `/trades` of each
 * address, under `trades_open_<address>` and `trades_closed_<address>`, and the prices page
 * counter under `prices_page`.
 */
module Session {
  import opened Records

  /** What a key holds: a stored track or the prices page counter. */
  datatype Entry = Tracks(trades: seq<Trade>) | Counter(page: int)

  type Store = map<string, Entry>

  const PricesPageKey := "prices_page"

  /** `f"trades_{trade_type}_{address}"`. */
  function TradesKey(tradeType: string, address: string): string {
    "trades_" + tradeType + "_" + address
  }

  /** `user_data.get(trades_key, [])`. */
  function StoredTrades(m: Store, tradeType: string, address: string): seq<Trade> {
    var key := TradesKey(tradeType, address);
    if key in m && m[key].Tracks? then m[key].trades else []
  }

  /** `user_data.get("prices_page", 0)`. */
  function StoredPage(m: Store): int {
    if PricesPageKey in m && m[PricesPageKey].Counter? then m[PricesPageKey].page else 0
  }

  /** Both tracks of one fetch stored for an address, the open one first. */
  function WithTracks(m: Store, address: string, open: seq<Trade>, closed: seq<Trade>): Store {
    m[TradesKey("open", address) := Tracks(open)][TradesKey("closed", address) := Tracks(closed)]
  }

  function WithPage(m: Store, page: int): Store {
    m[PricesPageKey := Counter(page)]
  }

  /** Only the prices page key holds a counter; every other key holds a track. */
  predicate WellTyped(m: Store) {
    forall k | k in m :: (m[k].Counter? <==> k == PricesPageKey)
  }

  /** No track key is the counter key, the two tracks of one address never share a key, and an address has one key per track. */
  lemma TradesKeysDistinct(tradeType: string, a: string, b: string)
    ensures TradesKey(tradeType, a) != PricesPageKey
    ensures TradesKey("open", a) != TradesKey("closed", b)
    ensures TradesKey(tradeType, a) == TradesKey(tradeType, b) ==> a == b
  {
    assert TradesKey(tradeType, a)[0] == 't' != PricesPageKey[0];
    assert TradesKey("open", a)[7] == 'o' && TradesKey("closed", b)[7] == 'c';
    if TradesKey(tradeType, a) == TradesKey(tradeType, b) {
      var n := |"trades_" + tradeType + "_"|;
      assert a == TradesKey(tradeType, a)[n..];
      assert b == TradesKey(tradeType, b)[n..];
    }
  }

  /**
   * Storing a fetch and reading it back: each track is returned under its own type, every other
   * track and the counter read as before, and the store stays well typed.
   */
  lemma StoreThenRead(m: Store, address: string, open: seq<Trade>, closed: seq<Trade>, tradeType: string, other: string)
    requires WellTyped(m)
    ensures WellTyped(WithTracks(m, address, open, closed))
    ensures StoredTrades(WithTracks(m, address, open, closed), "open", address) == open
    ensures StoredTrades(WithTracks(m, address, open, closed), "closed", address) == closed
    ensures TradesKey(tradeType, other) != TradesKey("open", address) && TradesKey(tradeType, other) != TradesKey("closed", address)
      ==> StoredTrades(WithTracks(m, address, open, closed), tradeType, other) == StoredTrades(m, tradeType, other)
    ensures StoredPage(WithTracks(m, address, open, closed)) == StoredPage(m)
  {
    TradesKeysDistinct("open", address, address);
    TradesKeysDistinct("closed", address, address);
  }

  /** Setting the counter and reading it back; no track changes and the store stays well typed. */
  lemma PageThenRead(m: Store, page: int, tradeType: string, address: string)
    requires WellTyped(m)
    ensures WellTyped(WithPage(m, page))
    ensures StoredPage(WithPage(m, page)) == page
    ensures StoredTrades(WithPage(m, page), tradeType, address) == StoredTrades(m, tradeType, address)
  {
    TradesKeysDistinct(tradeType, address, address);
  }

  /** One user's `context.user_data`, updated in place by the handlers. */
  class UserData {
    var entries: Store

    ghost predicate Valid()
      reads this
    {
      WellTyped(entries)
    }

    /** A fresh session holds nothing. */
    constructor()
      ensures entries == map[] && Valid()
    {
      entries := map[];
    }

    function Trades(tradeType: string, address: string): seq<Trade>
      reads this
    {
      StoredTrades(entries, tradeType, address)
    }

    function PricesPage(): int
      reads this
    {
      StoredPage(entries)
    }

    /** The two assignments of `trades_cmd` after a successful fetch. */
    method StoreTracks(address: string, open: seq<Trade>, closed: seq<Trade>)
      requires Valid()
      modifies this
      ensures Valid()
      ensures entries == WithTracks(old(entries), address, open, closed)
      ensures Trades("open", address) == open && Trades("closed", address) == closed
      ensures PricesPage() == old(PricesPage())
    {
      StoreThenRead(entries, address, open, closed, "open", address);
      entries := entries[TradesKey("open", address) := Tracks(open)];
      entries := entries[TradesKey("closed", address) := Tracks(closed)];
    }

    /** `page = user_data.get("prices_page", 0) + 1; user_data["prices_page"] = page`. */
    method AdvancePricesPage() returns (page: int)
      requires Valid()
      modifies this
      ensures Valid()
      ensures page == old(PricesPage()) + 1 && PricesPage() == page
      ensures entries == WithPage(old(entries), page)
    {
      page := StoredPage(entries) + 1;
      PageThenRead(entries, page, "open", "");
      entries := entries[PricesPageKey := Counter(page)];
    }

    /** The corrected `/prices` without "next": the counter is reset to the page shown. */
    method ResetPricesPage()
      requires Valid()
      modifies this
      ensures Valid()
      ensures PricesPage() == 0
      ensures entries == WithPage(old(entries), 0)
    {
      PageThenRead(entries, 0, "open", "");
      entries := entries[PricesPageKey := Counter(0)];
    }
  }
}
