/**
 * The market-pulse feed tool's list helpers: dropping repeated items (by id),
 * keeping items published on or after a cut-off, and ordering items newest
 * first. `new Date(s).getTime()` is the parameter `timeOf` (None for an
 * invalid date, whose time is NaN).
 */
module MarketPulseNormalize {
  import opened Wrappers
  import opened Dedup

  /** A normalised feed item. */
  datatype Item = Item(
    id: string,
    url: string,
    title: string,
    source: string,
    sourceName: string,
    category: string,
    publishedAt: string,
    summaryRaw: string,
    contentExcerpt: string,
    tags: seq<string>)

  // ---------------------------------------------------------------------------
  // deduplicateItems
  // ---------------------------------------------------------------------------

  function ItemId(item: Item): string {
    item.id
  }

  /** `deduplicateItems(items)`: the first item of each id, in input order. */
  method DeduplicateItems(items: seq<Item>) returns (result: seq<Item>)
    ensures result == DedupBy(items, ItemId)
  {
    var seen: set<string> := {};
    result := [];
    for i := 0 to |items|
      invariant result == DedupBy(items[..i], ItemId)
      invariant seen == Keys(result, ItemId)
    {
      assert items[..i + 1][..i] == items[..i];
      if items[i].id !in seen {
        KeysAppend(result, items[i], ItemId);
        seen := seen + {items[i].id};
        result := result + [items[i]];
      }
    }
    assert items[..|items|] == items;
  }

  /** The result has no id twice, keeps every id, is a subsequence of the input,
    * holds for each id the first item with it, and deduplicating again changes
    * nothing. */
  lemma DeduplicateItemsProperties(items: seq<Item>)
    ensures var r := DedupBy(items, ItemId);
      && DistinctKeys(r, ItemId)
      && Keys(r, ItemId) == Keys(items, ItemId)
      && IsSubsequence(r, items)
      && (forall i | 0 <= i < |r| :: r[i].id in Keys(items, ItemId) && r[i] == items[FirstWithKey(items, r[i].id, ItemId)])
      && DedupBy(r, ItemId) == r
  {
    var r := DedupBy(items, ItemId);
    DedupByShape(items, ItemId);
    forall i | 0 <= i < |r| ensures r[i].id in Keys(items, ItemId) && r[i] == items[FirstWithKey(items, r[i].id, ItemId)] {
      DedupByKeepsFirst(items, i, ItemId);
    }
    DedupByIdempotent(items, ItemId);
  }

  // ---------------------------------------------------------------------------
  // filterByDate
  // ---------------------------------------------------------------------------

  /** `new Date(publishedAt) >= afterDate`: false when either date is invalid. */
  predicate OnOrAfter(item: Item, after: Option<int>, timeOf: string -> Option<int>) {
    timeOf(item.publishedAt).Some? && after.Some? && timeOf(item.publishedAt).value >= after.value
  }

  /** `filterByDate(items, afterDate)`: the items dated on or after the cut-off, in order. */
  function FilterByDate(items: seq<Item>, after: Option<int>, timeOf: string -> Option<int>): (r: seq<Item>)
    ensures |r| <= |items|
    ensures forall x :: x in r <==> x in items && OnOrAfter(x, after, timeOf)
    ensures IsSubsequence(r, items)
  {
    if |items| == 0 then []
    else
      var init, last := items[..|items| - 1], items[|items| - 1];
      var f := FilterByDate(init, after, timeOf);
      assert items == init + [last];
      if OnOrAfter(last, after, timeOf) then
        assert (f + [last])[..|f|] == f;
        f + [last]
      else
        SubsequenceSkip(f, init, last);
        f
  }

  /** Filtering twice with the same cut-off is filtering once. */
  lemma {:induction false} FilterByDateIdempotent(items: seq<Item>, after: Option<int>, timeOf: string -> Option<int>)
    ensures FilterByDate(FilterByDate(items, after, timeOf), after, timeOf) == FilterByDate(items, after, timeOf)
  {
    if |items| > 0 {
      var init, last := items[..|items| - 1], items[|items| - 1];
      FilterByDateIdempotent(init, after, timeOf);
      var f := FilterByDate(init, after, timeOf);
      if OnOrAfter(last, after, timeOf) {
        assert (f + [last])[..|f|] == f;
      }
    }
  }

  // ---------------------------------------------------------------------------
  // sortByDate
  // ---------------------------------------------------------------------------

  /** The comparator `time(b) - time(a)` is negative: `a` is strictly newer than `b`.
    * With an invalid date the difference is NaN, which the sort treats as 0. */
  predicate Newer(a: Item, b: Item, timeOf: string -> Option<int>) {
    timeOf(a.publishedAt).Some? && timeOf(b.publishedAt).Some? && timeOf(a.publishedAt).value > timeOf(b.publishedAt).value
  }

  /** Insert `x` after every element it is not strictly newer than (stable). */
  function InsertByDate(x: Item, s: seq<Item>, timeOf: string -> Option<int>): (r: seq<Item>)
    ensures multiset(r) == multiset(s) + multiset{x}
  {
    if |s| == 0 then [x]
    else if Newer(x, s[0], timeOf) then [x] + s
    else
      assert s == [s[0]] + s[1..];
      [s[0]] + InsertByDate(x, s[1..], timeOf)
  }

  /** `sortByDate(items)`: a stable sort, newest first. */
  function SortByDate(items: seq<Item>, timeOf: string -> Option<int>): (r: seq<Item>)
    ensures multiset(r) == multiset(items)
  {
    if |items| == 0 then []
    else
      assert items == items[..|items| - 1] + [items[|items| - 1]];
      InsertByDate(items[|items| - 1], SortByDate(items[..|items| - 1], timeOf), timeOf)
  }

  predicate AllDated(items: seq<Item>, timeOf: string -> Option<int>) {
    forall k | 0 <= k < |items| :: timeOf(items[k].publishedAt).Some?
  }

  function TimeOf(x: Item, timeOf: string -> Option<int>): int
    requires timeOf(x.publishedAt).Some?
  {
    timeOf(x.publishedAt).value
  }

  predicate NewestFirst(s: seq<Item>, timeOf: string -> Option<int>)
    requires AllDated(s, timeOf)
  {
    forall i, j | 0 <= i < j < |s| :: TimeOf(s[i], timeOf) >= TimeOf(s[j], timeOf)
  }

  /** Inserting a dated item into a newest-first list keeps it newest first; the
    * new head is the inserted item or the old head. */
  lemma {:induction false} InsertKeepsOrder(x: Item, s: seq<Item>, timeOf: string -> Option<int>)
    requires AllDated(s, timeOf) && timeOf(x.publishedAt).Some? && NewestFirst(s, timeOf)
    ensures var r := InsertByDate(x, s, timeOf);
      AllDated(r, timeOf) && NewestFirst(r, timeOf) && |r| == |s| + 1 && (r[0] == x || r[0] == s[0])
  {
    var r := InsertByDate(x, s, timeOf);
    if |s| == 0 {
    } else if Newer(x, s[0], timeOf) {
      assert r == [x] + s;
      ConsNewestFirst(x, s, timeOf);
    } else {
      var rest := InsertByDate(x, s[1..], timeOf);
      InsertKeepsOrder(x, s[1..], timeOf);
      assert r == [s[0]] + rest;
      assert TimeOf(s[0], timeOf) >= TimeOf(rest[0], timeOf) by {
        if |s| > 1 {
          assert s[1..][0] == s[1];
        }
      }
      ConsNewestFirst(s[0], rest, timeOf);
    }
  }

  /** A dated item no older than the head of a newest-first list can go in front of it. */
  lemma ConsNewestFirst(h: Item, t: seq<Item>, timeOf: string -> Option<int>)
    requires timeOf(h.publishedAt).Some? && AllDated(t, timeOf) && NewestFirst(t, timeOf)
    requires |t| == 0 || TimeOf(h, timeOf) >= TimeOf(t[0], timeOf)
    ensures AllDated([h] + t, timeOf) && NewestFirst([h] + t, timeOf)
  {
    var r := [h] + t;
    assert forall k | 0 < k < |r| :: r[k] == t[k - 1];
    forall i, j | 0 <= i < j < |r| ensures TimeOf(r[i], timeOf) >= TimeOf(r[j], timeOf) {
      if i == 0 && j > 1 {
        assert TimeOf(t[0], timeOf) >= TimeOf(t[j - 1], timeOf);
      }
    }
  }

  /** When every date is valid, the sorted list is newest first. */
  lemma {:induction false} SortByDateNewestFirst(items: seq<Item>, timeOf: string -> Option<int>)
    requires AllDated(items, timeOf)
    ensures AllDated(SortByDate(items, timeOf), timeOf)
    ensures NewestFirst(SortByDate(items, timeOf), timeOf)
  {
    if |items| > 0 {
      var init := items[..|items| - 1];
      assert AllDated(init, timeOf);
      SortByDateNewestFirst(init, timeOf);
      InsertKeepsOrder(items[|items| - 1], SortByDate(init, timeOf), timeOf);
      assert SortByDate(items, timeOf) == InsertByDate(items[|items| - 1], SortByDate(init, timeOf), timeOf);
    }
  }
}
