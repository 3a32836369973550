/**
 * The ranking and the statistics: the rated genres that have a computed score,
 * sorted stably by that score in either direction, the paginated RankView
 * with its order selector, and the counters and top/bottom five of /stats.
 */
module Ranking {
  import opened Wrappers
  import opened Scoring
  import opened RatingStore
  import opened Paging

  /** (score, genre id, genre name), as rank and stats build them. */
  datatype RankItem = RankItem(score: real, genreId: int, name: string)

  /** Every fetched row names a genre of the catalog, as every id the commands
      store does. */
  predicate ValidIds(rows: seq<Row>, genres: seq<string>) {
    forall k :: 0 <= k < |rows| ==> 0 <= rows[k].genreId < |genres|
  }

  function Score(row: Row): Option<real> {
    ComputedScore(row.rating.score1, row.rating.score2, row.rating.flag1, row.rating.flag2)
  }

  /** The item a row contributes, if it has a computed score. */
  function ItemOf(row: Row, genres: seq<string>): Option<RankItem>
    requires 0 <= row.genreId < |genres|
  {
    match Score(row)
    case None => None
    case Some(sc) => Some(RankItem(sc, row.genreId, genres[row.genreId]))
  }

  predicate IsScored(row: Row) {
    Score(row).Some?
  }

  predicate IsSpecial(row: Row) {
    row.rating.flag1 != 0
  }

  predicate IsEligible(row: Row) {
    row.rating.flag1 == 0
  }

  predicate IsEligibleFlou(row: Row) {
    row.rating.flag1 == 0 && row.rating.flag2 != 0
  }

  /** The number of rows satisfying p. */
  function CountWhere(rows: seq<Row>, p: Row -> bool): (n: nat)
    ensures n <= |rows|
  {
    if rows == [] then 0
    else CountWhere(rows[..|rows| - 1], p) + (if p(rows[|rows| - 1]) then 1 else 0)
  }

  /** rank's loop: the items of the rows that have a computed score, in fetch
      order; special rows and rows missing a score are dropped. */
  function RankItems(rows: seq<Row>, genres: seq<string>): (items: seq<RankItem>)
    requires ValidIds(rows, genres)
    ensures |items| == CountWhere(rows, IsScored)
    ensures forall x :: x in items <==> exists j :: 0 <= j < |rows| && ItemOf(rows[j], genres) == Some(x)
  {
    if rows == [] then []
    else
      var front := rows[..|rows| - 1];
      var last := rows[|rows| - 1];
      var items := RankItems(front, genres)
                   + (match ItemOf(last, genres) case None => [] case Some(x) => [x]);
      assert forall j :: 0 <= j < |front| ==> front[j] == rows[j];
      items
  }

  /** The items keep the fetch order: the scored row at position j gives the
      item placed after the items of the scored rows before it. */
  lemma RankItemsInFetchOrder(rows: seq<Row>, genres: seq<string>)
    requires ValidIds(rows, genres)
    ensures var items := RankItems(rows, genres);
            forall j :: 0 <= j < |rows| && IsScored(rows[j]) ==>
              CountWhere(rows[..j], IsScored) < |items|
              && Some(items[CountWhere(rows[..j], IsScored)]) == ItemOf(rows[j], genres)
  {
    forall j | 0 <= j < |rows| && IsScored(rows[j])
      ensures CountWhere(rows[..j], IsScored) < |RankItems(rows, genres)|
              && Some(RankItems(rows, genres)[CountWhere(rows[..j], IsScored)]) == ItemOf(rows[j], genres)
    {
      ItemOfScoredRow(rows, genres, j);
    }
  }

  lemma {:induction false} ItemOfScoredRow(rows: seq<Row>, genres: seq<string>, j: nat)
    requires ValidIds(rows, genres) && j < |rows| && IsScored(rows[j])
    ensures var c := CountWhere(rows[..j], IsScored);
            c < |RankItems(rows, genres)| && Some(RankItems(rows, genres)[c]) == ItemOf(rows[j], genres)
    decreases |rows|
  {
    var front := rows[..|rows| - 1];
    var last := rows[|rows| - 1];
    assert ValidIds(front, genres);
    var head := RankItems(front, genres);
    var items := RankItems(rows, genres);
    assert items == head + (match ItemOf(last, genres) case None => [] case Some(x) => [x]);
    if j < |front| {
      assert rows[..j] == front[..j] && rows[j] == front[j];
      ItemOfScoredRow(front, genres, j);
      var c := CountWhere(front[..j], IsScored);
      assert items[c] == head[c];
    } else {
      assert rows[..j] == front && rows[j] == last;
      assert items[|head|] == ItemOf(last, genres).value;
    }
  }

  /** x comes strictly before y in the chosen direction. */
  predicate Precedes(x: RankItem, y: RankItem, desc: bool) {
    if desc then x.score > y.score else x.score < y.score
  }

  /** No item comes strictly before one placed ahead of it. */
  predicate Ordered(s: seq<RankItem>, desc: bool) {
    forall i, j :: 0 <= i < j < |s| ==> !Precedes(s[j], s[i], desc)
  }

  /** The items of s with score v, in their order in s. */
  function WithScore(s: seq<RankItem>, v: real): seq<RankItem> {
    if s == [] then []
    else (if s[0].score == v then [s[0]] else []) + WithScore(s[1..], v)
  }

  lemma {:induction false} WithScoreAppend(a: seq<RankItem>, b: seq<RankItem>, v: real)
    ensures WithScore(a + b, v) == WithScore(a, v) + WithScore(b, v)
  {
    if a == [] {
      assert a + b == b;
    } else {
      var ab := a + b;
      var here := if a[0].score == v then [a[0]] else [];
      assert ab[0] == a[0] && ab[1..] == a[1..] + b;
      WithScoreAppend(a[1..], b, v);
      assert WithScore(ab, v) == here + WithScore(a[1..] + b, v);
      assert WithScore(a, v) == here + WithScore(a[1..], v);
    }
  }

  /** Places x after the items that strictly precede it and before the rest,
      so that x stays ahead of the items with its own score. */
  function Insert(x: RankItem, s: seq<RankItem>, desc: bool): (r: seq<RankItem>)
    ensures |r| == |s| + 1
  {
    if s == [] || !Precedes(s[0], x, desc) then [x] + s
    else [s[0]] + Insert(x, s[1..], desc)
  }

  lemma {:induction false} InsertPermutes(x: RankItem, s: seq<RankItem>, desc: bool)
    ensures multiset(Insert(x, s, desc)) == multiset(s) + multiset{x}
  {
    if s != [] && Precedes(s[0], x, desc) {
      InsertPermutes(x, s[1..], desc);
      assert s == [s[0]] + s[1..];
    }
  }

  /** Each item of Insert(x, s) is x or an item of s. */
  lemma InsertMembers(x: RankItem, s: seq<RankItem>, desc: bool)
    ensures forall j :: 0 <= j < |Insert(x, s, desc)| ==>
              Insert(x, s, desc)[j] == x || exists m :: 0 <= m < |s| && s[m] == Insert(x, s, desc)[j]
  {
    var r := Insert(x, s, desc);
    InsertPermutes(x, s, desc);
    forall j | 0 <= j < |r| && r[j] != x
      ensures exists m :: 0 <= m < |s| && s[m] == r[j]
    {
      assert r[j] in multiset(r);
      assert r[j] in multiset(s);
    }
  }

  lemma {:induction false} InsertOrdered(x: RankItem, s: seq<RankItem>, desc: bool)
    requires Ordered(s, desc)
    ensures Ordered(Insert(x, s, desc), desc)
  {
    if s != [] && Precedes(s[0], x, desc) {
      var rest := Insert(x, s[1..], desc);
      var r := [s[0]] + rest;
      InsertOrdered(x, s[1..], desc);
      InsertMembers(x, s[1..], desc);
      forall j | 0 <= j < |rest| ensures !Precedes(rest[j], s[0], desc) {
        if rest[j] != x {
          var m :| 0 <= m < |s[1..]| && s[1..][m] == rest[j];
          assert s[m + 1] == rest[j];
        }
      }
      forall i, j | 0 <= i < j < |r| ensures !Precedes(r[j], r[i], desc) {
        assert r[j] == rest[j - 1];
        if i > 0 {
          assert r[i] == rest[i - 1];
        }
      }
    }
  }

  lemma {:induction false} InsertStable(x: RankItem, s: seq<RankItem>, desc: bool, v: real)
    ensures WithScore(Insert(x, s, desc), v) == (if x.score == v then [x] else []) + WithScore(s, v)
  {
    if s == [] || !Precedes(s[0], x, desc) {
      WithScoreAppend([x], s, v);
    } else {
      var rest := Insert(x, s[1..], desc);
      InsertStable(x, s[1..], desc, v);
      WithScoreAppend([s[0]], rest, v);
      WithScoreAppend([s[0]], s[1..], v);
      assert s == [s[0]] + s[1..];
    }
  }

  /** sorted(items, key=score, reverse=desc): Python's sort is stable in both
      directions. */
  function SortByScore(s: seq<RankItem>, desc: bool): (r: seq<RankItem>)
    ensures multiset(r) == multiset(s)
    ensures Ordered(r, desc)
    ensures forall v :: WithScore(r, v) == WithScore(s, v)
  {
    if s == [] then []
    else
      var rest := SortByScore(s[1..], desc);
      InsertPermutes(s[0], rest, desc);
      InsertOrdered(s[0], rest, desc);
      assert s == [s[0]] + s[1..];
      assert forall v :: WithScore(Insert(s[0], rest, desc), v) == WithScore(s, v) by {
        forall v ensures WithScore(Insert(s[0], rest, desc), v) == WithScore(s, v) {
          InsertStable(s[0], rest, desc, v);
          WithScoreAppend([s[0]], s[1..], v);
        }
      }
      Insert(s[0], rest, desc)
  }

  function Reverse(s: seq<RankItem>): (r: seq<RankItem>)
    ensures |r| == |s| && forall i :: 0 <= i < |s| ==> r[i] == s[|s| - 1 - i]
  {
    if s == [] then [] else Reverse(s[1..]) + [s[0]]
  }

  /** scored_items[:k]. */
  function Top(s: seq<RankItem>, k: nat): (r: seq<RankItem>)
    ensures |r| == Min(k, |s|) && forall i :: 0 <= i < |r| ==> r[i] == s[i]
  {
    s[..Min(k, |s|)]
  }

  /** scored_items[-k:][::-1]: the last k items, the last one first. For
      k == 0 Python's s[-0:] is the whole list; /stats only uses k == 5, and
      the model takes k >= 1. */
  function BottomReversed(s: seq<RankItem>, k: nat): (r: seq<RankItem>)
    requires k > 0
    ensures |r| == Min(k, |s|) && forall i :: 0 <= i < |r| ==> r[i] == s[|s| - 1 - i]
  {
    Reverse(s[|s| - Min(k, |s|)..])
  }

  /** On the descending sort, the top k score at least as much as every item
      after them; the bottom k, worst first, come in ascending order and score
      at most as much as every item before them. */
  lemma TopAndBottom(items: seq<RankItem>, k: nat)
    requires k > 0
    ensures var sorted := SortByScore(items, true);
      var top := Top(sorted, k);
      var bottom := BottomReversed(sorted, k);
      && |top| == |bottom| == Min(k, |items|)
      && (forall i, j :: 0 <= i < |top| && |top| <= j < |sorted| ==> top[i].score >= sorted[j].score)
      && Ordered(bottom, false)
      && (forall i, j :: 0 <= i < |bottom| && 0 <= j < |sorted| - |bottom| ==> bottom[i].score <= sorted[j].score)
  {
    var sorted := SortByScore(items, true);
    assert |sorted| == |items| by {
      assert |multiset(sorted)| == |multiset(items)|;
    }
    TopScoresMost(sorted, k);
    BottomAscending(sorted, k);
    BottomScoresLeast(sorted, k);
  }

  lemma TopScoresMost(sorted: seq<RankItem>, k: nat)
    requires Ordered(sorted, true)
    ensures var top := Top(sorted, k);
            |top| == Min(k, |sorted|)
            && forall i, j :: 0 <= i < |top| && |top| <= j < |sorted| ==> top[i].score >= sorted[j].score
  {
    var top := Top(sorted, k);
    forall i, j | 0 <= i < |top| && |top| <= j < |sorted|
      ensures top[i].score >= sorted[j].score
    {
      assert top[i] == sorted[i];
      assert !Precedes(sorted[j], sorted[i], true);
    }
  }

  lemma BottomAscending(sorted: seq<RankItem>, k: nat)
    requires k > 0 && Ordered(sorted, true)
    ensures |BottomReversed(sorted, k)| == Min(k, |sorted|)
    ensures Ordered(BottomReversed(sorted, k), false)
  {
    var bottom := BottomReversed(sorted, k);
    var L := |sorted|;
    var m := Min(k, L);
    forall i, j | 0 <= i < j < |bottom|
      ensures !Precedes(bottom[j], bottom[i], false)
    {
      assert bottom[i] == sorted[L - 1 - i];
      assert bottom[j] == sorted[L - 1 - j];
      assert !Precedes(sorted[L - 1 - i], sorted[L - 1 - j], true);
    }
  }

  lemma BottomScoresLeast(sorted: seq<RankItem>, k: nat)
    requires k > 0 && Ordered(sorted, true)
    ensures var bottom := BottomReversed(sorted, k);
            forall i, j :: 0 <= i < |bottom| && 0 <= j < |sorted| - |bottom| ==> bottom[i].score <= sorted[j].score
  {
    var bottom := BottomReversed(sorted, k);
    var L := |sorted|;
    forall i, j | 0 <= i < |bottom| && 0 <= j < L - |bottom|
      ensures bottom[i].score <= sorted[j].score
    {
      assert bottom[i] == sorted[L - 1 - i];
      assert !Precedes(sorted[L - 1 - i], sorted[j], true);
    }
  }

  /** The counters and extremes /stats shows. The averages are not modelled. */
  datatype Summary = Summary(totalRows: nat, specialCount: nat, eligibleCount: nat,
                             flouCount: nat, scoredCount: nat,
                             top5: seq<RankItem>, bottom5: seq<RankItem>)

  /** stats: counts the special rows and skips them, counts the others as
      eligible (and flou when flagged), collects the scored items, sorts them
      best first and takes the first five and the last five, reversed. */
  method Stats(rows: seq<Row>, genres: seq<string>) returns (s: Summary)
    requires ValidIds(rows, genres)
    ensures s.totalRows == |rows|
    ensures s.specialCount == CountWhere(rows, IsSpecial)
    ensures s.eligibleCount == CountWhere(rows, IsEligible)
    ensures s.flouCount == CountWhere(rows, IsEligibleFlou)
    ensures s.scoredCount == CountWhere(rows, IsScored)
    ensures s.specialCount + s.eligibleCount == s.totalRows
    ensures s.scoredCount <= s.eligibleCount && s.flouCount <= s.eligibleCount
    ensures s.top5 == Top(SortByScore(RankItems(rows, genres), true), 5)
    ensures s.bottom5 == BottomReversed(SortByScore(RankItems(rows, genres), true), 5)
  {
    var specialCount, eligibleCount, flouCount, scoredCount := 0, 0, 0, 0;
    var scoredItems: seq<RankItem> := [];
    var i := 0;
    while i < |rows|
      invariant 0 <= i <= |rows|
      invariant specialCount == CountWhere(rows[..i], IsSpecial)
      invariant eligibleCount == CountWhere(rows[..i], IsEligible)
      invariant flouCount == CountWhere(rows[..i], IsEligibleFlou)
      invariant scoredItems == RankItems(rows[..i], genres)
      invariant scoredCount == |scoredItems|
      invariant specialCount + eligibleCount == i
      invariant scoredCount <= eligibleCount && flouCount <= eligibleCount
    {
      var row := rows[i];
      assert rows[..i + 1][..i] == rows[..i];
      i := i + 1;
      if row.rating.flag1 != 0 {
        specialCount := specialCount + 1;
        continue;
      }
      eligibleCount := eligibleCount + 1;
      if row.rating.flag2 != 0 {
        flouCount := flouCount + 1;
      }
      var sc := ComputedScore(row.rating.score1, row.rating.score2, row.rating.flag1, row.rating.flag2);
      if sc.None? {
        continue;
      }
      scoredCount := scoredCount + 1;
      scoredItems := scoredItems + [RankItem(sc.value, row.genreId, genres[row.genreId])];
    }
    assert rows[..|rows|] == rows;
    var top5, bottom5 := [], [];
    if scoredCount > 0 {
      scoredItems := SortByScore(scoredItems, true);
      top5 := Top(scoredItems, 5);
      bottom5 := BottomReversed(scoredItems, 5);
    }
    s := Summary(|rows|, specialCount, eligibleCount, flouCount, scoredCount, top5, bottom5);
  }

  /** The order chosen in the ranking's select menu ("desc" or "asc"). */
  datatype Order = Desc | Asc

  /** The ranking's paginated view: 15 items a page, best first until another
      order is chosen. */
  class RankView {
    const userId: int
    const items: seq<RankItem>
    const pageSize: nat
    var order: Order
    var page: nat
    var prevDisabled: bool
    var nextDisabled: bool

    ghost predicate Valid()
      reads this
    {
      && pageSize > 0
      && page < TotalPages(|items|, pageSize)
      && prevDisabled == (page == 0)
      && nextDisabled == (page == TotalPages(|items|, pageSize) - 1)
    }

    constructor (userId: int, items: seq<RankItem>)
      ensures this.userId == userId && this.items == items && pageSize == 15
      ensures order == Desc && page == 0 && Valid()
    {
      this.userId := userId;
      this.items := items;
      order := Desc;
      page := 0;
      pageSize := 15;
      new;
      UpdateButtons();
    }

    /** _sorted_items: the items sorted by score in the current order. */
    function SortedItems(): (r: seq<RankItem>)
      reads this
      ensures multiset(r) == multiset(items) && Ordered(r, order == Desc)
      ensures forall v :: WithScore(r, v) == WithScore(items, v)
    {
      SortByScore(items, order == Desc)
    }

    /** _page_slice of RankView: the current page of the sorted items, its
        start and end offsets and the number of items. */
    function CurrentPage(): (r: (seq<RankItem>, nat, nat, nat))
      reads this
      requires Valid()
      ensures r.1 == page * pageSize && r.2 == r.1 + pageSize && r.3 == |items|
      ensures r.1 <= |items| && |r.0| == Min(pageSize, |items| - r.1)
      ensures |items| > 0 ==> 0 < |r.0| <= pageSize
      ensures forall i :: 0 <= i < |r.0| ==> r.1 + i < r.3 && r.0[i] == SortedItems()[r.1 + i]
    {
      var sorted := SortedItems();
      assert |sorted| == |items| by {
        assert |multiset(sorted)| == |multiset(items)|;
      }
      var (slice, start, end) := PageSlice(sorted, page, pageSize);
      ValidPageSlice(sorted, page, pageSize);
      (slice, start, end, |sorted|)
    }

    /** _update_buttons. */
    method UpdateButtons()
      requires pageSize > 0
      modifies this
      ensures page == old(page) && order == old(order)
      ensures prevDisabled == (page <= 0)
      ensures nextDisabled == (page >= TotalPages(|items|, pageSize) - 1)
    {
      var totalPages := TotalPages(|items|, pageSize);
      prevDisabled := page <= 0;
      nextDisabled := page >= totalPages - 1;
    }

    /** prev_button. */
    method Prev()
      requires Valid()
      modifies this
      ensures Valid() && order == old(order)
      ensures page == PrevPage(old(page))
      ensures prevDisabled <==> page == 0
      ensures nextDisabled <==> page == TotalPages(|items|, pageSize) - 1
    {
      page := Max(0, page - 1);
      UpdateButtons();
    }

    /** next_button. */
    method Next()
      requires Valid()
      modifies this
      ensures Valid() && order == old(order)
      ensures page == NextPage(old(page), TotalPages(|items|, pageSize))
      ensures prevDisabled <==> page == 0
      ensures nextDisabled <==> page == TotalPages(|items|, pageSize) - 1
    {
      page := Min(TotalPages(|items|, pageSize) - 1, page + 1);
      UpdateButtons();
    }

    /** RankOrderSelect.callback: the chosen order, back on the first page. */
    method SelectOrder(o: Order)
      requires Valid()
      modifies this
      ensures Valid()
      ensures order == o && page == 0
      ensures prevDisabled && (nextDisabled <==> TotalPages(|items|, pageSize) == 1)
    {
      order := o;
      page := 0;
      UpdateButtons();
    }
  }

  /** The rank shown beside entry idx of a page that starts at offset start. */
  function RankLabel(start: nat, idx: nat): nat {
    start + 1 + idx
  }

  /** Ranks run on across pages: the entry labelled n on any page is the n-th
      item of the sorted list, whichever the order. */
  lemma RankLabelIsPosition(sorted: seq<RankItem>, page: nat, pageSize: nat, idx: nat)
    requires pageSize > 0
    requires idx < |PageSlice(sorted, page, pageSize).0|
    ensures var (slice, start, _) := PageSlice(sorted, page, pageSize);
            1 <= RankLabel(start, idx) <= |sorted| && sorted[RankLabel(start, idx) - 1] == slice[idx]
  {
  }

  /** rank: builds the items and opens the view on them, best first, or
      reports that nothing can be ranked yet. */
  method Rank(rows: seq<Row>, genres: seq<string>, userId: int) returns (view: RankView?)
    requires ValidIds(rows, genres)
    ensures view == null <==> RankItems(rows, genres) == []
    ensures view != null ==>
              fresh(view) && view.Valid() && view.items == RankItems(rows, genres)
              && view.order == Desc && view.page == 0
              && view.pageSize == 15 && view.userId == userId
  {
    var items: seq<RankItem> := [];
    var i := 0;
    while i < |rows|
      invariant 0 <= i <= |rows|
      invariant items == RankItems(rows[..i], genres)
    {
      var row := rows[i];
      assert rows[..i + 1][..i] == rows[..i];
      i := i + 1;
      var sc := ComputedScore(row.rating.score1, row.rating.score2, row.rating.flag1, row.rating.flag2);
      if sc.None? {
        continue;
      }
      items := items + [RankItem(sc.value, row.genreId, genres[row.genreId])];
    }
    assert rows[..|rows|] == rows;
    if items == [] {
      return null;
    }
    view := new RankView(userId, items);
  }
}
