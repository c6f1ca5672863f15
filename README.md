# SAI trading bot core, modelled in Dafny

This project models the logic of the SAI Telegram bot that sits between the chat transport and
the GraphQL data source. It covers:

- the GraphQL client's post-fetch decisions: when a reply is an error, the client-side filter of
  trades on base-asset symbol, and the first-match price lookup;
- the pagination arithmetic for trade pages (size 5) and price pages (size 10), and when a
  "Next →" control is offered;
- the price ordering: allow-listed symbols first, then ascending token id;
- the `/trades` argument parser, the open/closed split, and the abbreviated address shown in
  page headers;
- the `trades_next:<address>:<type>:<page>` callback payload and how it is read back;
- the per-user session store (`context.user_data`), a class with a `map` field that the
  handlers update in place;
- the `/trades`, `/prices` and `/price` commands and the callback handler.

The data source is a function parameter. `TradesRequest -> Response<TradesData>` stands for the
trades query and `int -> Response<PricesData>` for the prices query. A `Response` is either a
failed HTTP exchange or a decoded payload. Python behaviour the code relies on is written out in
`PyStr` and `PySeq`:

- slicing with negative indices;
- `str.split(sep, maxsplit)`;
- `int()` and `str()` on integers;
- `strip`, `upper` and `lower` on ASCII text;
- list comprehensions.

The stable `sorted` over tuple keys is written out in `Prices`, next to the price order that uses it.

Modules, one file each:

- `Wrappers`: Option and Result.
- `PyStr`, `PySeq`: the Python string and sequence semantics above.
- `Records`: JSON records, payloads and errors.
- `GraphQL`: the GraphQL client's decisions.
- `Pagination`: the page arithmetic.
- `Prices`: the price order.
- `Callbacks`: the callback payloads.
- `Trades`: the `/trades` parser, track split, address abbreviation and track pages.
- `Session`: the session store.
- `Bot`: the handlers.

Behaviours of the code that a reader might not expect, all modelled as the code has them:

- A callback page that is not an integer makes `int()` raise, and nothing catches it. The model
  returns `InvalidPage`; it is not ignored silently.
- A callback page may be negative. It is then sliced with Python's negative-index rules.
- A missing token id sorts as 9999. That is not larger than every real id, and it ties with an
  id of 9999.
- The session keeps only a page counter for prices, not the price list itself.

## Model

| member | source | states |
|---|---|---|
| GraphQL.Query | bot/graphql.py:26-28 | A failed exchange raises a transport error. A payload with `errors` raises an upstream error carrying them. Only a payload without `errors` yields its `data`, which may be missing. |
| GraphQL.TradesOf | bot/graphql.py:67 | A missing `data`, `perp` or `trades` level gives the empty list. |
| GraphQL.PricesOf | bot/graphql.py:92 | A missing `data`, `oracle` or `tokenPricesUsd` level gives the empty list. |
| GraphQL.BaseSymbolOf | bot/graphql.py:74 | Reading a trade's base symbol fails exactly when `perpBorrowing` or `baseToken` is an explicit null. A non-empty symbol read back is the one present in the record. |
| GraphQL.SelectByBase | bot/graphql.py:72-75 | The comprehension succeeds exactly when every trade's key can be read. It then yields the trades whose upper-cased base symbol equals the filter, in fetched order. |
| GraphQL.FilterByBaseSymbol | bot/graphql.py:70-77 | With no filter, or an empty one, the fetched list is returned unchanged. |
| GraphQL.BaseFilterExact | bot/graphql.py:70-75 | For a non-empty filter, the result is a subsequence of the fetched trades. A trade is in it exactly when it was fetched and its base symbol matches case-insensitively. |
| GraphQL.MissingBaseSymbolNeverMatches | bot/graphql.py:74 | A trade whose base symbol is missing or null reads as `""`, and no non-empty filter matches it. |
| GraphQL.FetchTrades | bot/graphql.py:66-77 | The query's error decides the failure. Otherwise the result is the extracted list passed through the base-symbol filter, and it is that list unchanged when there is no filter. |
| GraphQL.FetchTradesMatchFilter | bot/graphql.py:66-77 | With a non-empty filter, a successful result is a subsequence of the extracted list holding exactly its trades on that base symbol. |
| GraphQL.FetchPrices | bot/graphql.py:91-92 | The query's error decides the failure. Otherwise the result is the extracted price list. |
| GraphQL.FindPriceBySymbol | bot/graphql.py:97-102 | The scan returns None exactly when no record's upper-cased symbol equals the upper-cased query, with a missing symbol read as `""`. Otherwise it returns the first matching record in returned order. |
| GraphQL.FetchPriceBySymbol | bot/graphql.py:96-102 | A fetch failure is passed through. Otherwise the result is the first match among up to 200 fetched prices, or None. |
| GraphQL.FilterExample | bot/graphql.py:70-75 | Trades on BTC, ETH and BTC filtered by `btc` give the two BTC trades in their original order. |
| Pagination.Slice | bot/main.py:232-235 | The window starts at `start` and its end is clamped to the length. `has_more` holds iff `start + size < len`. For non-negative arguments the window holds `min(size, max(0, len - start))` items, exactly `s[start..end]`. A start past the end gives no items and no next page. |
| Pagination.HasMoreIff | bot/main.py:232-235 | Page `p` offers a next page iff `(p + 1) * size < len`. |
| Pagination.PagesFromIsSuffix | bot/main.py:232-235 | Pages `p`, `p+1`, … up to the first without a next page concatenate to the suffix of the list from `p * size`. |
| Pagination.PagesReconstruct | bot/main.py:232-235 | Pages 0, 1, … up to the first without a next page concatenate to the whole list, in order. |
| Pagination.LaterPagesEmpty | bot/main.py:232-235 | Every page after a page without a next page is empty and offers no next page. |
| Pagination.TwelveTradesExample | bot/main.py:232-235 | Twelve trades, five per page, give pages of 5, 5, 2 and 0 trades. Only the first two offer a next page. |
| Pagination.NegativePageExample | bot/main.py:400 | Page -2 of twelve trades is the Python slice `[-10:-5]`, and it offers a next page. |
| Prices.PositionIn | bot/main.py:144 | `list.index`: None exactly when the symbol is absent, otherwise its first position. |
| Prices.KeyOf | bot/main.py:140-145 | The key's group is 0 exactly when the upper-cased symbol is allow-listed. Its rank is then that symbol's position in the allow-list. Any other record has key `(1, id)`, with 9999 for a missing id. |
| Prices.InsertSorted | bot/main.py:147 | Inserting into a list sorted by key keeps it sorted. |
| Prices.SortBy | bot/main.py:147 | The sort gives a permutation of its input, ordered by key. |
| Prices.InsertStable | bot/main.py:147 | Insertion puts the new element ahead of the elements that share its key and keeps their order. |
| Prices.SortStable | bot/main.py:147 | For every key, the sort keeps the input order of the elements carrying that key. |
| Prices.SortPrices | bot/main.py:147 | The sorted prices are a permutation of the fetched ones, ordered by the sort key. |
| Prices.SortedOrderMeaning | bot/main.py:140-147 | In the sorted list, an allow-listed record has only allow-listed records before it, each no later in the allow-list. A record off the allow-list has only such records after it, with ids no smaller. |
| Prices.SortExample | bot/main.py:132-147 | ZZZ, BTC, AAA and ETH, with AAA's id below ZZZ's, sort as BTC, ETH, AAA, ZZZ. |
| Prices.SortByKeysExample | bot/main.py:147 | Any four records with keys (1,50), (0,0), (1,20) and (0,1), in that order, sort by ascending key. |
| Prices.FormatPrices | bot/main.py:136-159 | No prices gives the fixed empty reply and no next page. Otherwise the window is `sorted_prices[start_idx:end_idx]` of the sorted list with its `has_more`, the header counts the whole list, and the page lists exactly the window's records with a price, in window order. |
| Prices.FormatPricesPage | bot/main.py:147-159 | Page `p` of `/prices` is window `p` of the sorted list, lists its priced records and offers a next page exactly when that window does. |
| Pagination.FilteredPagesFromIsFilter | bot/main.py:150-159 | When each page lists only the items passing a test, the items listed from page `p` on, following "Next →", are the passing items of the list from ordinal `p * size` on, in order. |
| Prices.PricePagesCoverAll | bot/main.py:147-159 | Walking the price windows from page 0 until no next page gives every fetched record once, in sorted order. The pages list exactly the records with a price, in sorted order, and never a record whose price is null. |
| PyStr.SplitNJoined | bot/main.py:397 | Joining the parts of `split(sep, n)` with the separator gives back the string. |
| PyStr.SplitNFree | bot/main.py:397 | The splits are taken at the leftmost separators, so no part but the last holds one. |
| PyStr.SplitNLast | bot/main.py:397 | The last part holds a separator only when all `n` splits were used. |
| Callbacks.SplitTradesNext | bot/main.py:397-399 | The payload is accepted exactly when `split(":", 3)` gives four parts. Joining the tag with the three fields gives back the payload, and the tag, the address and the type hold no colon, so further colons stay in the page text. |
| Callbacks.SplitTradesNextLeftmost | bot/main.py:397-399 | However a payload is written as four colon-joined parts whose first three hold no colon, those are the tag and the fields the handler reads. |
| Callbacks.FourPartsIff | bot/main.py:397-398 | A payload splits into four parts exactly when it has at least three colons. Anything else does nothing. |
| Callbacks.EncodeSplitRoundTrip | bot/main.py:397-400 | For an address and type without colons, the encoded payload splits into the tag, the address, the type and the page text. The page text reads back as the page. |
| Trades.ClassifyUpper | bot/main.py:275-282 | An argument is read the same way once upper-cased: the keyword test lower-cases and the symbol upper-cases the stripped text, and stripping commutes with ASCII case mapping. |
| Trades.ClassifyCaseInsensitive | bot/main.py:275-282 | Two arguments that differ only in ASCII case are the same keyword or the same symbol. |
| Trades.LastFlagNone | bot/main.py:274-282 | There is no status filter iff no token is a keyword. |
| Trades.LastFlagIsLastKeyword | bot/main.py:274-282 | A keyword that only symbols follow decides the status filter, overriding earlier keywords. |
| Trades.LastSymbolNone | bot/main.py:274-282 | There is no symbol filter iff every token is a keyword. |
| Trades.LastSymbolIsLastSymbolToken | bot/main.py:274-282 | A symbol token that only keywords follow decides the symbol filter, overriding earlier symbols. |
| Trades.ApplyArgs | bot/main.py:274-282 | The loop ends with the filters left by the last keyword and the last symbol. |
| Trades.ParseTradesArgs | bot/main.py:253-282 | No arguments asks for the usage text. Otherwise the stripped first argument is the address, and the remaining arguments set the filters as above. |
| Trades.TracksPartition | bot/main.py:297-298 | The load is a merge of the open and closed tracks. Every trade is in exactly one track, with a missing `isOpen` counted as closed. Each track keeps the fetched order, and the lengths and contents add up. |
| Trades.AbbreviateAddress | bot/main.py:218-223 | The header shows a prefix of the address, `...`, then its last six characters. The prefix is 8 characters for `0x` addresses and 10 otherwise, clamped for short addresses. |
| Trades.AbbreviateLongAddress | bot/main.py:218-223 | An address long enough for a disjoint head and tail is shown in exactly head + 9 characters. |
| Trades.TradesPage | bot/main.py:225-242 | A track page is page `p` of the track, five per page. It carries a "Next →" payload exactly when there is a next page, encoding the address, the type and `p + 1`. |
| Session.TradesKeysDistinct | bot/main.py:301-302 | A track key is never the counter key. The open and closed keys never coincide. For one type, distinct addresses give distinct keys. |
| Session.StoreThenRead | bot/main.py:301-302 | After both tracks are stored, each reads back exactly under its own type, empty lists included. Other tracks and the counter are unchanged, and the store stays well typed. |
| Session.PageThenRead | bot/main.py:377-378 | Writing the counter reads back as written. No track changes. |
| Session.UserData.constructor | bot/main.py:301-302 | A fresh session is empty and well typed. |
| Session.UserData.StoreTracks | bot/main.py:301-302 | The two assignments store both tracks, keep the store well typed and leave the counter alone. |
| Session.UserData.AdvancePricesPage | bot/main.py:377-378 | The counter becomes its previous value, 0 when absent, plus one. That value is returned. |
| Session.UserData.ResetPricesPage | bot/main.py:319-324 | The corrected `/prices` sets the counter to 0. |
| Bot.NoTradesTextStatus | bot/main.py:288-293 | The empty-result message opens with `No open trades`, `No closed trades` or, without a status filter, `No  trades`. |
| Bot.NoTradesTextSymbol | bot/main.py:288-293 | With a non-empty symbol filter the message ends with ` for <symbol> found for address: <address>`. |
| Bot.NoTradesTextNoSymbol | bot/main.py:288-293 | Without a symbol filter, or with an empty one, the message ends with ` trades found for address: <address>`. |
| Bot.InitialPagesShown | bot/main.py:304-310 | The open track's first page is sent iff it is non-empty and the filter is not `closed`. The closed track's is sent iff it is non-empty and the filter is not `open`. At most two pages go out, each page 0, sent as new messages. |
| Bot.InitialPagesOnlyTracks | bot/main.py:304-310 | Nothing but the first pages of the open and closed tracks is sent. When both are sent, the open page comes first. |
| Bot.InitialPagesNonEmpty | bot/main.py:304-310 | Without a status filter, a non-empty fetch sends at least one page. |
| Bot.TradesOutcome | bot/main.py:286-310 | A fetch error gives one error reply. An empty fetch gives the no-trades text for the filters and the address. A non-empty fetch gives the first pages of the tracks the filter admits, at most two and each a new message. Nothing at all goes out exactly when a status filter selects an empty track. |
| Bot.InitialPagesEmptyIff | bot/main.py:304-310 | A non-empty fetch sends no page exactly when a status filter is given and the track it selects is empty. |
| Bot.TradesCmd | bot/main.py:252-314 | It sends the usage text, a fetch error, the no-trades text, or the first pages of the tracks admitted by the filter. Only a non-empty fetch stores both tracks. |
| Bot.PricesOutcome | bot/main.py:327-335 | A fetch failure reports its error. Otherwise the page shown is `format_prices` of the fetched list at ordinal `page * 10`, and it offers "Next →" exactly when `format_prices` says there is more. |
| Bot.PricesCmd | bot/main.py:317-339 | `next` advances the counter and shows that page. Otherwise page 0 is shown and the counter is left untouched. |
| Bot.PricesCmdCorrected | bot/main.py:317-339 | The same command, except that it also resets the counter when it shows page 0. |
| Bot.NextSkipsAfterPlainPrices | bot/main.py:319-324 | After `/prices next` then `/prices`, page 0 is on screen but "Next →" shows page 2. |
| Bot.CorrectedNextFollowsShown | bot/main.py:375-378 | With the corrected command, after any run of commands and presses, the counter names the page on screen and "Next →" shows the page after it. |
| Bot.PriceCmd | bot/main.py:342-365 | No arguments gives the usage text. A fetch failure is reported. A match is reported exactly when the first record matching the stripped symbol is not empty, and only that record is reported. Otherwise the symbol is reported as not found. |
| Bot.TradesCallback | bot/main.py:395-409 | A payload that does not split into four parts sends nothing, and a page text that `int()` rejects stops the handler. Otherwise an empty stored track gives the expired message. A non-empty one is edited in as `TradesPage` of that address, track, type and page, with "Next →" exactly when a later page exists. |
| Bot.NextControlRoundTrip | bot/main.py:397-409 | For a colon-free address and type, pressing "Next →" for page `p` edits in page `p` of the stored track. With nothing stored, it shows the expired message instead. |
| Bot.StoredFetchPaginates | bot/main.py:297-310 | After `/trades` stores a fetch with open trades, the "Next →" of any open-track page leads to the following page of that track. |
| Bot.HandleCallback | bot/main.py:368-409 | `prices_next` advances the counter and edits in that price page. A `trades_next:` payload is read back against the current session. Any other payload changes nothing and sends nothing. |

## Left out

- The Telegram transport is not modelled: sending and editing messages, inline keyboards, `query.answer`, the async handler plumbing, `start`/`help`, and application setup. A handler returns the reply it would send.
- The HTTP exchange of the GraphQL client is a parameter of the model: the POST, the 20-second timeout, status checking and JSON decoding. Only the decision on the decoded payload is modelled.
- Message text is not modelled: the trade and price formatters, headers, usage texts, float thresholds, number formatting and the micro-unit division. The model keeps which records a page lists and whether it offers "Next →". An empty result's text is modelled in full.
- Case mapping and whitespace are ASCII only. Python's Unicode `upper`, `lower` and `strip` are not modelled.
- `int()` accepts only ASCII digits here. Python also accepts other Unicode decimal digits.
- An explicit JSON null for `data`, `perp` or `oracle` reads as missing. In Python the next `.get` on that null raises AttributeError, so the command reports an error.
- An explicit JSON null for `trades` or `tokenPricesUsd` reads as the empty list. In Python `.get(..., [])` returns the null as None. For `/trades` without a symbol filter and for `/prices` that None is treated as empty, as in the model. For `/trades` with a symbol filter the comprehension raises TypeError, so the reply is "Error fetching trades: …" where the model reports no trades. For `/price` the scan raises TypeError, so the reply is "Error fetching price: …" where the model reports the token as not found.
- A null token id is treated like a missing one. In Python, comparing it with another id raises.
- Bot.PriceCmd: the empty record `{}` is modelled as a record with no token and no price. One with explicit nulls in both keys is truthy in Python, but is reported as not found here.
- Bot.HandleCallback: a callback update without a query and a query without data are both `None`.
- Bot.TradesCmd: only fetch failures reach the error reply. Exceptions raised while formatting or sending are not modelled.
- Bot.HandleCallback: exceptions raised by the trade formatters in the `trades_next` branch are not modelled. Python formats the whole stored track before slicing out the page. A stored trade whose `perpBorrowing` is an explicit null therefore raises AttributeError, and that branch has no `try`, so nothing is edited. The model edits in the page.
- Session.TradesKey: the key `trades_<type>_<address>` is not injective across types. For example, type `open_x` with address `y` and type `open` with address `x_y` share a key. So a forged payload can read another address's track, as it could in Python.
- Telegram's 64-byte limit on callback data is not modelled, so long addresses are assumed to fit.
- The pagination lemmas that walk pages cover pages from 0 upward. Negative pages can only come from a forged payload, and are covered by Slice and NegativePageExample.
- Trades.ParseTradesArgs classifies every argument first and then runs the loop of `trades_cmd` over the classifications. Classification has no side effects, so the filters are the same.
- Logging is not modelled: `logging.basicConfig` and the `logger.error` calls that accompany each error reply.
- Concurrency between handlers is not modelled: each handler runs to completion on its own session. Process restarts are modelled only by the empty fresh session.

## Findings

| source | as written | input that shows it | evidently intended | confidence | as-written member | corrected member |
|---|---|---|---|---|---|---|
| bot/main.py:319-324 | `/prices` without `next` shows page 0 but leaves `prices_page` as it was | `/prices next`, then `/prices`, then press "Next →": page 0 is on screen and the control shows page 2 | "Next →" shows the page after the one on screen, so a plain `/prices` resets the counter to 0 | medium, not executed | Bot.NextSkipsAfterPlainPrices | Bot.CorrectedNextFollowsShown |
