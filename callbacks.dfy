/**
 * The payloads of the "Next →" controls: the fixed price token and the trades payload
 * `trades_next:<address>:<type>:<page>`, read back with `split(":", 3)` and `int()`.
 */
module Callbacks {
  import opened Wrappers
  import opened PyStr

  const PricesNextData := "prices_next"
  const TradesNextTag := "trades_next"
  const TradesNextPrefix := "trades_next:"

  /** `f"trades_next:{address}:{trade_type}:{page}"`. */
  function EncodeTradesNext(address: string, tradeType: string, page: int): string {
    TradesNextPrefix + address + ":" + tradeType + ":" + IntToString(page)
  }

  /** The three fields of a trades payload, the page still as text. */
  datatype TradesNextFields = TradesNextFields(address: string, tradeType: string, pageText: string)

  /** `parts = data.split(":", 3)` and the four-part check: anything else is None (the handler does nothing). */
  function SplitTradesNext(data: string): (r: Option<TradesNextFields>)
    ensures r.Some? <==> |SplitN(data, ':', 3)| == 4
    ensures r.Some? ==> Join(SplitN(data, ':', 3)[..1] + [r.value.address, r.value.tradeType, r.value.pageText], ':') == data
    ensures r.Some? ==> ':' !in SplitN(data, ':', 3)[0] && ':' !in r.value.address && ':' !in r.value.tradeType
  {
    var parts := SplitN(data, ':', 3);
    SplitNSpec(data, ':', 3);
    if |parts| == 4 then
      assert parts == parts[..1] + [parts[1], parts[2], parts[3]];
      Some(TradesNextFields(parts[1], parts[2], parts[3]))
    else None
  }

  /** The number of occurrences of `c` in `s`. */
  function Count(s: string, c: char): nat {
    if s == [] then 0 else (if s[0] == c then 1 else 0) + Count(s[1..], c)
  }

  lemma {:induction false} CountConcat(a: string, b: string, c: char)
    ensures Count(a + b, c) == Count(a, c) + Count(b, c)
  {
    if a == [] {
      assert a + b == b;
    } else {
      assert (a + b)[1..] == a[1..] + b;
      CountConcat(a[1..], b, c);
    }
  }

  lemma {:induction false} CountAbsent(s: string, c: char)
    requires c !in s
    ensures Count(s, c) == 0
  {
    if s != [] {
      CountAbsent(s[1..], c);
    }
  }

  /** Joining separator-free parts puts exactly one separator between neighbours. */
  lemma {:induction false} CountJoin(parts: seq<string>, c: char)
    requires |parts| >= 1
    requires forall k :: 0 <= k < |parts| - 1 ==> c !in parts[k]
    ensures Count(Join(parts, c), c) == |parts| - 1 + Count(parts[|parts| - 1], c)
  {
    if |parts| > 1 {
      CountJoin(parts[1..], c);
      CountAbsent(parts[0], c);
      CountConcat(parts[0] + [c], Join(parts[1..], c), c);
      CountConcat(parts[0], [c], c);
      assert Count([c], c) == 1 by { assert [c][1..] == []; }
    }
  }

  /** A payload splits into four parts exactly when it contains at least three colons. */
  lemma FourPartsIff(data: string)
    ensures SplitTradesNext(data).Some? <==> Count(data, ':') >= 3
  {
    var parts := SplitN(data, ':', 3);
    SplitNSpec(data, ':', 3);
    CountJoin(parts, ':');
    if |parts| < 4 {
      CountAbsent(parts[|parts| - 1], ':');
    }
  }

  /**
   * The split is the leftmost one: however a payload is written as four `:`-joined parts whose
   * first three hold no colon, those are the parts the handler reads, and the page text keeps any
   * further colons.
   */
  lemma SplitTradesNextLeftmost(data: string, tag: string, address: string, tradeType: string, pageText: string)
    requires ':' !in tag && ':' !in address && ':' !in tradeType
    requires Join([tag, address, tradeType, pageText], ':') == data
    ensures SplitN(data, ':', 3)[0] == tag
    ensures SplitTradesNext(data) == Some(TradesNextFields(address, tradeType, pageText))
  {
    assert [tag, address, tradeType] + [pageText] == [tag, address, tradeType, pageText];
    SplitNJoin([tag, address, tradeType], ':', pageText);
  }

  /**
   * The round trip: for an address and a track type without colons, the encoded payload splits into
   * the tag, the address, the type and the page text, and that text reads back as the page.
   */
  lemma EncodeSplitRoundTrip(address: string, tradeType: string, page: int)
    requires ':' !in address && ':' !in tradeType
    ensures SplitN(EncodeTradesNext(address, tradeType, page), ':', 3) == [TradesNextTag, address, tradeType, IntToString(page)]
    ensures SplitTradesNext(EncodeTradesNext(address, tradeType, page)) == Some(TradesNextFields(address, tradeType, IntToString(page)))
    ensures ParseInt(IntToString(page)) == Some(page)
  {
    var d := IntToString(page);
    var fields := [TradesNextTag, address, tradeType];
    assert fields + [d] == [TradesNextTag, address, tradeType, d];
    assert Join([tradeType, d], ':') == tradeType + [':'] + d by {
      assert [tradeType, d][1..] == [d];
    }
    assert Join([address, tradeType, d], ':') == address + [':'] + (tradeType + [':'] + d) by {
      assert [address, tradeType, d][1..] == [tradeType, d];
    }
    assert Join([TradesNextTag, address, tradeType, d], ':') == TradesNextTag + [':'] + (address + [':'] + (tradeType + [':'] + d)) by {
      assert [TradesNextTag, address, tradeType, d][1..] == [address, tradeType, d];
    }
    assert EncodeTradesNext(address, tradeType, page) == TradesNextTag + [':'] + (address + [':'] + (tradeType + [':'] + d));
    SplitNJoin(fields, ':', d);
    ParseIntToString(page);
  }
}
