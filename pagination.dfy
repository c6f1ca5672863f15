/**
 * The pagination arithmetic shared by the trades pages and the price pages:
 * `end = min(start + size, len)`, the page is `items[start:end]`, and a further page exists
 * exactly when `end < len`.
 */
module Pagination {
  import opened PySeq

  /** Trades are shown five to a page, prices ten. */
  const TradesPageSize := 5
  const PricesPageSize := 10

  /** One computed page: its items, the two ordinals, the list length and whether a next page exists. */
  datatype Window<T> = Window(items: seq<T>, startIdx: int, endIdx: int, total: nat, hasMore: bool)

  /**
   * The page of `size` items starting at ordinal `startIdx`. It never fails: a start past the end
   * gives an empty page without a successor.
   */
  function Slice<T>(s: seq<T>, startIdx: int, size: int): (w: Window<T>)
    ensures w.total == |s| && w.startIdx == startIdx
    ensures w.hasMore <==> startIdx + size < |s|
    ensures 0 <= startIdx && 0 <= size ==> |w.items| == Min(size, Max(0, |s| - startIdx))
    ensures 0 <= startIdx <= |s| && 0 <= size ==> w.items == s[startIdx..Min(startIdx + size, |s|)]
    ensures 0 <= startIdx && 0 <= size && |s| <= startIdx ==> w.items == [] && !w.hasMore
  {
    var e := Min(startIdx + size, |s|);
    var w := Window(PySlice(s, startIdx, e), startIdx, e, |s|, e < |s|);
    if 0 <= startIdx && 0 <= e then PySliceNonNegative(s, startIdx, e); w else w
  }

  /** Page number `page` of size `size`: it starts at ordinal `page * size`. */
  function Page<T>(s: seq<T>, page: int, size: int): Window<T> {
    Slice(s, page * size, size)
  }

  lemma MulStep(page: nat, size: nat)
    ensures (page + 1) * size == page * size + size
  {
  }

  lemma {:induction false} MulMonotone(p: nat, q: nat, size: nat)
    requires p <= q
    ensures p * size <= q * size
  {
    if p < q {
      MulMonotone(p, q - 1, size);
      MulStep(q - 1, size);
    }
  }

  /** The pages `page`, `page + 1`, ... concatenated, stopping after the first page without a successor. */
  function PagesFrom<T>(s: seq<T>, size: int, page: nat): seq<T>
    requires 0 < size
    decreases Max(0, |s| - page * size)
  {
    var w := Page(s, page, size);
    MulStep(page, size);
    if w.hasMore then w.items + PagesFrom(s, size, page + 1) else w.items
  }

  /** Following the "next" links from page `page` yields the rest of the list from its start ordinal on. */
  lemma {:induction false} PagesFromIsSuffix<T>(s: seq<T>, size: int, page: nat)
    requires 0 < size
    ensures PagesFrom(s, size, page) == s[Min(page * size, |s|)..]
    decreases Max(0, |s| - page * size)
  {
    var start := page * size;
    var w := Slice(s, start, size);
    assert Page(s, page, size) == w;
    MulStep(page, size);
    MulMonotone(0, page, size);
    if w.hasMore {
      assert w.items == s[start..start + size];
      PagesFromIsSuffix(s, size, page + 1);
      assert PagesFrom(s, size, page + 1) == s[start + size..];
      assert s[start..] == s[start..start + size] + s[start + size..];
    } else if start <= |s| {
      assert w.items == s[start..];
    }
  }

  /** What the pages `page`, `page + 1`, ... show of their items when each page lists only the items satisfying `shown`. */
  function FilteredPagesFrom<T>(shown: T -> bool, s: seq<T>, size: int, page: nat): seq<T>
    requires 0 < size
    decreases Max(0, |s| - page * size)
  {
    var w := Page(s, page, size);
    MulStep(page, size);
    Filter(shown, w.items) + (if w.hasMore then FilteredPagesFrom(shown, s, size, page + 1) else [])
  }

  /** Listing each page's shown items gives the shown items of the whole walk, in order. */
  lemma {:induction false} FilteredPagesFromIsFilter<T>(shown: T -> bool, s: seq<T>, size: int, page: nat)
    requires 0 < size
    ensures FilteredPagesFrom(shown, s, size, page) == Filter(shown, PagesFrom(s, size, page))
    decreases Max(0, |s| - page * size)
  {
    var w := Page(s, page, size);
    MulStep(page, size);
    if w.hasMore {
      var rest := PagesFrom(s, size, page + 1);
      assert PagesFrom(s, size, page) == w.items + rest;
      FilteredPagesFromIsFilter(shown, s, size, page + 1);
      FilterConcat(shown, w.items, rest);
    } else {
      assert Filter(shown, w.items) + [] == Filter(shown, w.items);
    }
  }

  /** Concatenating the pages from page 0 until the first page without a successor gives back the list, in order. */
  lemma PagesReconstruct<T>(s: seq<T>, size: int)
    requires 0 < size
    ensures PagesFrom(s, size, 0) == s
  {
    PagesFromIsSuffix(s, size, 0);
  }

  /** Once a page reports no successor, every later page is empty and reports none either. */
  lemma LaterPagesEmpty<T>(s: seq<T>, size: int, page: nat, later: nat)
    requires 0 < size && page < later
    requires !Page(s, page, size).hasMore
    ensures Page(s, later, size).items == [] && !Page(s, later, size).hasMore
  {
    MulMonotone(page + 1, later, size);
    MulStep(page, size);
  }

  /** A page has a successor exactly when the list extends past the page's last ordinal. */
  lemma HasMoreIff<T>(s: seq<T>, size: int, page: nat)
    requires 0 < size
    ensures Page(s, page, size).hasMore <==> (page + 1) * size < |s|
  {
    MulStep(page, size);
  }

  /** Twelve trades, five to a page: pages of 5, 5, 2 and 0 items; only the first two have a successor. */
  lemma TwelveTradesExample<T>(s: seq<T>)
    requires |s| == 12
    ensures |Page(s, 0, TradesPageSize).items| == 5 && Page(s, 0, TradesPageSize).hasMore
    ensures |Page(s, 1, TradesPageSize).items| == 5 && Page(s, 1, TradesPageSize).hasMore
    ensures |Page(s, 2, TradesPageSize).items| == 2 && !Page(s, 2, TradesPageSize).hasMore
    ensures |Page(s, 3, TradesPageSize).items| == 0 && !Page(s, 3, TradesPageSize).hasMore
  {
  }

  /**
   * A negative page number (which `int()` accepts from a callback) goes through Python's negative
   * slice indices: page -2 of twelve items is items 2 to 6, with a successor.
   */
  lemma NegativePageExample<T>(s: seq<T>)
    requires |s| == 12
    ensures Page(s, -2, TradesPageSize).items == s[2..7]
    ensures Page(s, -2, TradesPageSize).hasMore
  {
  }
}
