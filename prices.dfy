/**
 * The price listing: the display order (popular tokens first, in the allow-list's order, then by
 * token id with 9999 for a missing id), realised as a stable sort, and the page computed from it.
 */
module Prices {
  import opened Wrappers
  import opened Records
  import opened PyStr
  import opened PySeq
  import opened Pagination
  import opened GraphQL

  /** Symbols shown ahead of all others, in this order. */
  const PopularTokens: seq<string> := ["BTC", "ETH", "USDT", "USDC", "NIBI", "ATOM", "SOL", "BNB", "AVAX", "MATIC"]

  /** The id a price record without a token id sorts under. */
  const MissingIdRank := 9999

  /** `xs.index(x)` when `x in xs`, else None: the first position holding `x`. */
  function PositionIn(xs: seq<string>, x: string): (r: Option<nat>)
    ensures r.None? <==> x !in xs
    ensures r.Some? ==> r.value < |xs| && xs[r.value] == x && x !in xs[..r.value]
  {
    if xs == [] then None
    else if xs[0] == x then Some(0)
    else match PositionIn(xs[1..], x) {
      case None => None
      case Some(i) =>
        assert xs[..i + 1] == [xs[0]] + xs[1..][..i];
        Some(i + 1)
    }
  }

  /** The tuple `sort_key` returns: `(0, position in the allow-list)` or `(1, token id)`. */
  datatype SortKey = SortKey(group: int, rank: int)

  /** Python's ordering of two-element tuples. */
  predicate KeyLe(a: SortKey, b: SortKey) {
    a.group < b.group || (a.group == b.group && a.rank <= b.rank)
  }

  /** The token id, 9999 when the token or its id is missing (`token.get("id", 9999)`). */
  function IdRank(p: Price): int {
    match p.token
    case None => MissingIdRank
    case Some(tok) => tok.id.GetOr(MissingIdRank)
  }

  function KeyOf(p: Price): (k: SortKey)
    ensures k.group == 0 <==> Upper(PriceSymbol(p)) in PopularTokens
    ensures k.group == 0 ==> 0 <= k.rank < |PopularTokens| && PopularTokens[k.rank] == Upper(PriceSymbol(p))
    ensures k.group != 0 ==> k == SortKey(1, IdRank(p))
  {
    match PositionIn(PopularTokens, Upper(PriceSymbol(p)))
    case Some(i) => SortKey(0, i)
    case None => SortKey(1, IdRank(p))
  }

  predicate SortedBy<T>(key: T -> SortKey, s: seq<T>) {
    forall i, j :: 0 <= i < j < |s| ==> KeyLe(key(s[i]), key(s[j]))
  }

  /** Place `x` before the first element whose key is not smaller. */
  function Insert<T>(key: T -> SortKey, x: T, s: seq<T>): (r: seq<T>)
    ensures multiset(r) == multiset(s) + multiset{x}
  {
    if s == [] then [x]
    else if KeyLe(key(x), key(s[0])) then [x] + s
    else
      assert s == [s[0]] + s[1..];
      [s[0]] + Insert(key, x, s[1..])
  }

  /** A head no larger than anything after it extends a sorted list. */
  lemma SortedCons<T>(key: T -> SortKey, y: T, r: seq<T>)
    requires SortedBy(key, r)
    requires forall z | z in r :: KeyLe(key(y), key(z))
    ensures SortedBy(key, [y] + r)
  {
    var yr := [y] + r;
    forall i, j | 0 <= i < j < |yr| ensures KeyLe(key(yr[i]), key(yr[j])) {
      assert yr[j] == r[j - 1];
      if i == 0 {
        assert r[j - 1] in r;
      } else {
        assert yr[i] == r[i - 1];
      }
    }
  }

  /** Insertion keeps a sorted list sorted. */
  lemma {:induction false} InsertSorted<T>(key: T -> SortKey, x: T, s: seq<T>)
    requires SortedBy(key, s)
    ensures SortedBy(key, Insert(key, x, s))
  {
    if s == [] {
    } else if KeyLe(key(x), key(s[0])) {
      assert s == [s[0]] + s[1..];
      SortedCons(key, x, s);
    } else {
      var rest := Insert(key, x, s[1..]);
      InsertSorted(key, x, s[1..]);
      forall y | y in rest ensures KeyLe(key(s[0]), key(y)) {
        assert y in multiset(rest);
        assert y in s[1..] || y == x;
      }
      SortedCons(key, s[0], rest);
    }
  }

  /** Python's `sorted(s, key=key)`: a permutation of the input, ordered by key. */
  function SortBy<T>(key: T -> SortKey, s: seq<T>): (r: seq<T>)
    ensures multiset(r) == multiset(s) && |r| == |s|
    ensures SortedBy(key, r)
  {
    if s == [] then []
    else
      assert s == [s[0]] + s[1..];
      InsertSorted(key, s[0], SortBy(key, s[1..]));
      Insert(key, s[0], SortBy(key, s[1..]))
  }

  /** Insertion puts `x` ahead of every element of its own key, so it leads the elements of its key. */
  lemma {:induction false} InsertStable<T>(key: T -> SortKey, x: T, t: seq<T>, k: SortKey)
    ensures Filter(p => key(p) == k, Insert(key, x, t)) == (if key(x) == k then [x] else []) + Filter(p => key(p) == k, t)
  {
    var P := p => key(p) == k;
    if t == [] {
      FilterCons(P, x, []);
    } else if KeyLe(key(x), key(t[0])) {
      FilterCons(P, x, t);
    } else {
      var rest := Insert(key, x, t[1..]);
      assert Insert(key, x, t) == [t[0]] + rest;
      InsertStable(key, x, t[1..], k);
      FilterCons(P, t[0], rest);
      FilterCons(P, t[0], t[1..]);
      assert t == [t[0]] + t[1..];
      assert !(key(x) == k && key(t[0]) == k);
    }
  }

  /**
   * The sort is stable: for every key, the elements carrying that key appear in the output in the
   * same relative order as in the input.
   */
  lemma {:induction false} SortStable<T>(key: T -> SortKey, s: seq<T>, k: SortKey)
    ensures Filter(p => key(p) == k, SortBy(key, s)) == Filter(p => key(p) == k, s)
  {
    if s != [] {
      SortStable(key, s[1..], k);
      InsertStable(key, s[0], SortBy(key, s[1..]), k);
    }
  }

  /** `sorted(prices, key=sort_key)`. */
  function SortPrices(s: seq<Price>): (r: seq<Price>)
    ensures multiset(r) == multiset(s) && |r| == |s|
    ensures SortedBy(KeyOf, r)
  {
    SortBy(KeyOf, s)
  }

  /**
   * What the order means: a popular record is preceded only by popular records that come no later
   * in the allow-list, and a record outside it is followed only by records outside it with an id
   * no smaller (9999 standing in for a missing id).
   */
  lemma SortedOrderMeaning(s: seq<Price>, i: int, j: int)
    requires 0 <= i < j < |s|
    ensures var r := SortPrices(s);
      && (Upper(PriceSymbol(r[j])) in PopularTokens ==> Upper(PriceSymbol(r[i])) in PopularTokens && KeyOf(r[i]).rank <= KeyOf(r[j]).rank)
      && (Upper(PriceSymbol(r[i])) !in PopularTokens ==> Upper(PriceSymbol(r[j])) !in PopularTokens && IdRank(r[i]) <= IdRank(r[j]))
  {
    var r := SortPrices(s);
    assert KeyLe(KeyOf(r[i]), KeyOf(r[j]));
  }

  /** Records whose keys are (0, 0), (0, 1), (1, 20) and (1, 50) sort in that order, whatever order they come in. */
  lemma SortByKeysExample<T>(key: T -> SortKey, zzz: T, btc: T, aaa: T, eth: T)
    requires key(btc) == SortKey(0, 0) && key(eth) == SortKey(0, 1)
    requires key(aaa) == SortKey(1, 20) && key(zzz) == SortKey(1, 50)
    ensures SortBy(key, [zzz, btc, aaa, eth]) == [btc, eth, aaa, zzz]
  {
    SortTailExample(key, btc, aaa, eth);
    InsertLastExample(key, zzz, btc, aaa, eth);
    assert [zzz, btc, aaa, eth][1..] == [btc, aaa, eth];
  }

  lemma InsertLastExample<T>(key: T -> SortKey, zzz: T, btc: T, aaa: T, eth: T)
    requires key(btc) == SortKey(0, 0) && key(eth) == SortKey(0, 1)
    requires key(aaa) == SortKey(1, 20) && key(zzz) == SortKey(1, 50)
    ensures Insert(key, zzz, [btc, eth, aaa]) == [btc, eth, aaa, zzz]
  {
    InsertLastTwoExample(key, zzz, aaa, eth);
    InsertPast(key, zzz, btc, [eth, aaa]);
    assert [btc] + [eth, aaa] == [btc, eth, aaa];
    assert [btc] + [eth, aaa, zzz] == [btc, eth, aaa, zzz];
  }

  lemma InsertLastTwoExample<T>(key: T -> SortKey, zzz: T, aaa: T, eth: T)
    requires key(eth) == SortKey(0, 1) && key(aaa) == SortKey(1, 20) && key(zzz) == SortKey(1, 50)
    ensures Insert(key, zzz, [eth, aaa]) == [eth, aaa, zzz]
  {
    InsertPast(key, zzz, aaa, []);
    assert [aaa] + [zzz] == [aaa, zzz];
    InsertPast(key, zzz, eth, [aaa]);
    assert [eth] + [aaa] == [eth, aaa] && [eth] + [aaa, zzz] == [eth, aaa, zzz];
  }

  lemma SortTailExample<T>(key: T -> SortKey, btc: T, aaa: T, eth: T)
    requires key(btc) == SortKey(0, 0) && key(eth) == SortKey(0, 1) && key(aaa) == SortKey(1, 20)
    ensures SortBy(key, [btc, aaa, eth]) == [btc, eth, aaa]
  {
    assert [eth][1..] == [];
    assert SortBy(key, [eth]) == [eth];
    assert [aaa, eth][1..] == [eth];
    InsertPast(key, aaa, eth, []);
    assert [eth] + [aaa] == [eth, aaa];
    assert SortBy(key, [aaa, eth]) == [eth, aaa];
    assert [btc, aaa, eth][1..] == [aaa, eth];
  }

  /** Inserting `x` into a list headed by a smaller key goes past the head. */
  lemma InsertPast<T>(key: T -> SortKey, x: T, y: T, s: seq<T>)
    requires !KeyLe(key(x), key(y))
    ensures Insert(key, x, [y] + s) == [y] + Insert(key, x, s)
  {
    assert ([y] + s)[1..] == s;
  }

  const ExampleZzz := Price(Some(Token(Some(50), Some("ZZZ"))), Some(1.0))
  const ExampleBtc := Price(Some(Token(Some(7), Some("BTC"))), Some(1.0))
  const ExampleAaa := Price(Some(Token(Some(20), Some("AAA"))), None)
  const ExampleEth := Price(Some(Token(Some(8), Some("ETH"))), Some(1.0))

  lemma BtcKeyExample()
    ensures KeyOf(ExampleBtc) == SortKey(0, 0)
  {
    assert Upper("BTC") == "BTC";
    assert PositionIn(PopularTokens, "BTC") == Some(0);
  }

  lemma EthKeyExample()
    ensures KeyOf(ExampleEth) == SortKey(0, 1)
  {
    assert Upper("ETH") == "ETH";
    assert PopularTokens[1..][0] == "ETH";
    assert PositionIn(PopularTokens, "ETH") == Some(1);
  }

  lemma ZzzKeyExample()
    ensures KeyOf(ExampleZzz) == SortKey(1, 50)
  {
    assert Upper("ZZZ") == "ZZZ";
    assert "ZZZ" !in PopularTokens;
  }

  lemma AaaKeyExample()
    ensures KeyOf(ExampleAaa) == SortKey(1, 20)
  {
    assert Upper("AAA") == "AAA";
    assert PopularTokens[4] == "NIBI" && PopularTokens[5] == "ATOM" && PopularTokens[8] == "AVAX";
    assert "AAA" !in PopularTokens;
  }

  /**
   * ZZZ, BTC, AAA, ETH, with BTC and ETH on the allow-list and AAA's id below ZZZ's,
   * sort as BTC, ETH, AAA, ZZZ.
   */
  lemma SortExample()
    ensures SortPrices([ExampleZzz, ExampleBtc, ExampleAaa, ExampleEth]) == [ExampleBtc, ExampleEth, ExampleAaa, ExampleZzz]
  {
    BtcKeyExample();
    EthKeyExample();
    ZzzKeyExample();
    AaaKeyExample();
    SortByKeysExample(KeyOf, ExampleZzz, ExampleBtc, ExampleAaa, ExampleEth);
  }

  /** What `format_prices` produces: nothing to show, or one page of the sorted list and the records it lists. */
  datatype PricesView =
    | NoPrices
    | PricesPage(window: Window<Price>, listed: seq<Price>)
  {
    /** The boolean `format_prices` returns beside its text. */
    function HasMore(): bool {
      PricesPage? && window.hasMore
    }
  }

  /** A record gets a line only when its price is not null. */
  predicate HasPrice(p: Price) { p.priceUsd.Some? }

  /**
   * `format_prices(prices, start_idx, page_size)`: no prices gives the fixed "No prices found." text
   * and no next page; otherwise the page starting at `start_idx` of the sorted list, whose header
   * counts `end_idx` of the total and whose lines are the records with a price.
   */
  function FormatPrices(prices: seq<Price>, startIdx: int, pageSize: int): (v: PricesView)
    ensures v.NoPrices? <==> prices == []
    ensures v.PricesPage? ==> v.window.total == |prices|
    ensures v.HasMore() <==> prices != [] && startIdx + pageSize < |prices|
    ensures v.PricesPage? ==> v.window == Slice(SortPrices(prices), startIdx, pageSize)
    ensures v.PricesPage? ==> v.listed == Filter(HasPrice, v.window.items)
    ensures v.PricesPage? ==> IsSubseq(v.listed, v.window.items) && forall p :: p in v.listed <==> p in v.window.items && HasPrice(p)
  {
    if prices == [] then NoPrices
    else
      var w := Slice(SortPrices(prices), startIdx, pageSize);
      FilterIsSubseq(HasPrice, w.items);
      forall p {
        FilterMember(HasPrice, w.items, p);
      }
      PricesPage(w, Filter(HasPrice, w.items))
  }

  /** Page `page` of `/prices` (start ordinal `page * 10`) is window `page` of the sorted list and lists its priced records. */
  lemma FormatPricesPage(prices: seq<Price>, page: nat)
    requires prices != []
    ensures var v := FormatPrices(prices, page * PricesPageSize, PricesPageSize);
      && v.window == Page(SortPrices(prices), page, PricesPageSize)
      && v.listed == Filter(HasPrice, Page(SortPrices(prices), page, PricesPageSize).items)
      && v.HasMore() == Page(SortPrices(prices), page, PricesPageSize).hasMore
  {
  }

  /**
   * Walking the price pages 0, 1, ... (start ordinal `page * 10`) until no next page is offered:
   * the windows hold every record exactly once, in the sorted order, and the pages list exactly
   * the records with a price, in the sorted order; a record whose price is null is never listed.
   */
  lemma PricePagesCoverAll(prices: seq<Price>)
    ensures PagesFrom(SortPrices(prices), PricesPageSize, 0) == SortPrices(prices)
    ensures multiset(PagesFrom(SortPrices(prices), PricesPageSize, 0)) == multiset(prices)
    ensures FilteredPagesFrom(HasPrice, SortPrices(prices), PricesPageSize, 0) == Filter(HasPrice, SortPrices(prices))
    ensures forall p :: p in FilteredPagesFrom(HasPrice, SortPrices(prices), PricesPageSize, 0) <==> p in prices && HasPrice(p)
  {
    var sorted := SortPrices(prices);
    PagesReconstruct(sorted, PricesPageSize);
    FilteredPagesFromIsFilter(HasPrice, sorted, PricesPageSize, 0);
    forall p
      ensures p in FilteredPagesFrom(HasPrice, sorted, PricesPageSize, 0) <==> p in prices && HasPrice(p)
    {
      FilterMember(HasPrice, sorted, p);
      assert p in sorted <==> p in multiset(prices);
    }
  }
}
