/**
 When a walk with the time cursor is complete, read off the rows before the walk begins: whether some page
 boundary of the sorted rows falls within a millisecond.
*/
module PaginationBoundaries {
  import opened Wrappers
  import opened Pagination
  import opened PaginationWalks

  /** The rows in descending order of their time, ties in any order. */
  ghost predicate Sorts(order: seq<Row>, rows: set<Row>) {
    NoRepeats(order) && InOrder(ColumnCursor, order) && forall r :: r in order <==> r in rows
  }

  /** Wherever `limit` further rows are full and more follow, the two rows at the boundary differ in their millisecond. */
  predicate ClearBoundaries(order: seq<Row>, limit: nat)
    requires limit > 0
    decreases |order|
  {
    |order| <= limit
    || (Shown(order[limit - 1].at) != Shown(order[limit].at) && ClearBoundaries(order[limit..], limit))
  }

  /** What is left to list after `last`. */
  function Remaining(base: set<Row>, f: Row -> bool, last: Option<Row>): set<Row> {
    set r | r in base && f(r) && UnderAny(ColumnCursor, r, last)
  }

  lemma SortedCount(order: seq<Row>, rows: set<Row>)
    requires Sorts(order, rows)
    ensures |order| == |rows|
  {
    DistinctCount(order);
    assert (set r | r in order) == rows;
  }

  function Rows(s: seq<Row>): set<Row> {
    set r | r in s
  }

  lemma PrefixCount(s: seq<Row>, k: nat)
    requires NoRepeats(s) && k <= |s|
    ensures |Rows(s[..k])| == k
  {
    DistinctCount(s[..k]);
  }

  /** Of more rows than a sequence is long, one is missing from it. */
  lemma OneIsMissing(rows: set<Row>, s: seq<Row>) returns (r: Row)
    requires NoRepeats(s) && |rows| > |s|
    ensures r in rows && r !in s
  {
    DistinctCount(s);
    if rows <= Rows(s) {
      SubsetCount(rows, Rows(s));
    }
    r :| r in rows && r !in s;
  }

  lemma IndexOf(s: seq<Row>, r: Row) returns (i: nat)
    requires r in s
    ensures i < |s| && s[i] == r
  {
    i :| 0 <= i < |s| && s[i] == r;
  }

  lemma InPrefix(s: seq<Row>, k: nat, i: nat)
    requires i < |s| && k <= |s|
    ensures i < k ==> s[i] in s[..k]
  {
    if i < k {
      assert s[..k][i] == s[i];
    }
  }

  /** A page's `k`-th row has the same time as the `k`-th of the sorted rows. */
  lemma SameTimes(rows: set<Row>, page: seq<Row>, n: nat, k: nat, order: seq<Row>)
    requires IsPage(ColumnCursor, rows, n, page) && Sorts(order, rows) && 0 < k <= |page| && k <= |order|
    ensures page[k - 1].at == order[k - 1].at
  {
    NoHigher(rows, page, n, k, order);
    NoLower(rows, page, n, k, order);
  }

  lemma NoHigher(rows: set<Row>, page: seq<Row>, n: nat, k: nat, order: seq<Row>)
    requires IsPage(ColumnCursor, rows, n, page) && Sorts(order, rows) && 0 < k <= |page| && k <= |order|
    ensures page[k - 1].at <= order[k - 1].at
  {
    PrefixCount(page, k);
    var r := OneIsMissing(Rows(page[..k]), order[..k - 1]);
    var i := IndexOf(page[..k], r);
    assert page[i] == r && page[i] in rows;
    var j := IndexOf(order, r);
    InPrefix(order, k - 1, j);
  }

  lemma NoLower(rows: set<Row>, page: seq<Row>, n: nat, k: nat, order: seq<Row>)
    requires IsPage(ColumnCursor, rows, n, page) && Sorts(order, rows) && 0 < k <= |page| && k <= |order|
    ensures page[k - 1].at >= order[k - 1].at
  {
    PrefixCount(order, k);
    var r := OneIsMissing(Rows(order[..k]), page[..k - 1]);
    var i := IndexOf(order[..k], r);
    assert order[i] == r && r in order;
    assert r.at <= page[k - 1].at by {
      if r in page {
        var j := IndexOf(page, r);
        InPrefix(page, k - 1, j);
      }
    }
  }

  // ---------------------------------------------------------------- one boundary

  lemma BelowTheMillisecond(a: nat, b: nat)
    requires b <= a && Shown(a) != Shown(b)
    ensures b < Shown(a)
  {
  }

  lemma ItemsAreHigh(p: Pager, page: seq<Row>, r: Row)
    requires HasNext(p, page) && InOrder(ColumnCursor, page) && r in Items(p, page)
    ensures r.at >= LastItem(p, page).at
  {
    var i := IndexOf(Items(p, page), r);
    assert i < p.limit - 1 ==> Above(ColumnCursor, page[i], page[p.limit - 1]);
  }

  lemma SortedHalves(order: seq<Row>, k: nat, r: Row)
    requires NoRepeats(order) && InOrder(ColumnCursor, order) && 0 < k < |order| && r in order
    ensures r in order[..k] <==> r !in order[k..]
    ensures r in order[..k] ==> r.at >= order[k - 1].at
    ensures r in order[k..] ==> r.at <= order[k].at
  {
    var i := IndexOf(order, r);
    if i < k {
      assert order[..k][i] == r;
    } else {
      assert order[k..][i - k] == r;
    }
  }

  /** At a clear boundary the page holds the first `limit` sorted rows. */
  lemma ClearPage(p: Pager, rows: set<Row>, page: seq<Row>, order: seq<Row>)
    requires p.limit > 0 && HasNext(p, page) && IsPage(ColumnCursor, rows, FetchSize(p), page)
    requires Sorts(order, rows) && |order| > p.limit && order[p.limit].at < LastItem(p, page).at
    ensures Rows(Items(p, page)) == Rows(order[..p.limit])
  {
    var k := p.limit;
    forall r | r in Items(p, page)
      ensures r in order[..k]
    {
      ItemsAreHigh(p, page, r);
      var i := IndexOf(page, r);
      assert r in rows && r in order;
      SortedHalves(order, k, r);
    }
    assert Items(p, page) == page[..k];
    PrefixCount(page, k);
    PrefixCount(order, k);
    SameSizeSubset(Rows(Items(p, page)), Rows(order[..k]));
  }

  /** Beyond a clear boundary the next query selects exactly the sorted rows not listed yet. */
  lemma AcrossClearBoundary(p: Pager, rows: set<Row>, page: seq<Row>, order: seq<Row>, r: Row)
    requires p.limit > 0 && HasNext(p, page) && IsPage(ColumnCursor, rows, FetchSize(p), page)
    requires Sorts(order, rows) && |order| > p.limit && r in rows
    requires Shown(order[p.limit - 1].at) != Shown(order[p.limit].at)
    ensures r in order[p.limit..] <==> Under(ColumnCursor, r, LastItem(p, page))
    ensures r in order[p.limit..] <==> r !in Items(p, page)
  {
    var k := p.limit;
    SameTimes(rows, page, FetchSize(p), k, order);
    BelowTheMillisecond(order[k - 1].at, order[k].at);
    ClearPage(p, rows, page, order);
    SortedHalves(order, k, r);
    assert r in Rows(order[..k]) <==> r in Rows(Items(p, page));
  }

  /** At a boundary within a millisecond some row is neither on the page nor selected by the next query. */
  lemma BlurredBoundaryLoses(p: Pager, rows: set<Row>, page: seq<Row>, order: seq<Row>) returns (r: Row)
    requires p.limit > 0 && HasNext(p, page) && IsPage(ColumnCursor, rows, FetchSize(p), page)
    requires Sorts(order, rows) && |order| > p.limit
    requires Shown(order[p.limit - 1].at) == Shown(order[p.limit].at)
    ensures r in rows && r !in Items(p, page) && !Under(ColumnCursor, r, LastItem(p, page))
  {
    var k := p.limit;
    SameTimes(rows, page, FetchSize(p), k, order);
    PrefixCount(order, k + 1);
    assert Items(p, page) == page[..k];
    r := OneIsMissing(Rows(order[..k + 1]), Items(p, page));
    var i := IndexOf(order[..k + 1], r);
    assert order[i] == r && r in order && r.at >= order[k].at;
  }

  // ---------------------------------------------------------------- the whole walk

  /** While only newer rows arrive, a query selects what remained of the rows at the start. */
  lemma SelectsWhatRemains(p: Pager, f: Row -> bool, base: set<Row>, log: set<Row>, last: Option<Row>)
    requires p.scheme == ColumnCursor && UniqueIds(log) && base <= log && NewerThan(ColumnCursor, base, log)
    requires if last.None? then log == base else last.value in base
    ensures Candidates(log, f, CursorOf(p, last)) == Remaining(base, f, last)
  {
    forall r
      ensures r in Candidates(log, f, CursorOf(p, last)) <==> r in Remaining(base, f, last)
    {
      CandidatesAre(p, f, log, last, r);
      if last.Some? && r in log && Under(ColumnCursor, r, last.value) {
        NewerIsNotUnder(ColumnCursor, base, log, r, last.value);
      }
    }
  }

  /** What remains after a page is what the next query keeps of the rows at hand. */
  lemma RemainingShrinks(base: set<Row>, f: Row -> bool, last: Option<Row>, next: Row)
    requires next in Remaining(base, f, last)
    ensures forall r :: r in Remaining(base, f, Some(next)) <==> r in Remaining(base, f, last) && Under(ColumnCursor, r, next)
  {
    if last.Some? {
      forall r | Under(ColumnCursor, r, next)
        ensures Under(ColumnCursor, r, last.value)
      {
      }
    }
  }

  ghost predicate ListsAll(p: Pager, pages: seq<seq<Row>>, rows: set<Row>) {
    forall r | r in rows :: r in Listed(p, pages)
  }

  /** What a walk is about from one page on. */
  ghost predicate WalksFrom(
    p: Pager, f: Row -> bool, base: set<Row>, logs: seq<set<Row>>, last: Option<Row>, pages: seq<seq<Row>>, order: seq<Row>)
  {
    && p.scheme == ColumnCursor && p.limit > 0
    && Grows(logs) && Walk(p, f, logs, last, pages) && Ended(p, pages)
    && OnlyNewer(ColumnCursor, base, logs) && base <= logs[0]
    && (if last.None? then logs[0] == base else last.value in base)
    && Sorts(order, Remaining(base, f, last))
  }

  lemma PageIsOfRemaining(
    p: Pager, f: Row -> bool, base: set<Row>, logs: seq<set<Row>>, last: Option<Row>, pages: seq<seq<Row>>, order: seq<Row>)
    requires WalksFrom(p, f, base, logs, last, pages, order)
    ensures IsPage(ColumnCursor, Remaining(base, f, last), FetchSize(p), pages[0])
    ensures |order| == |Remaining(base, f, last)|
  {
    SelectsWhatRemains(p, f, base, logs[0], last);
    SortedCount(order, Remaining(base, f, last));
  }

  /** Up to `limit` remaining rows are all on the page, whether or not a further, empty page follows. */
  lemma ShortRestIsListed(
    p: Pager, f: Row -> bool, base: set<Row>, logs: seq<set<Row>>, last: Option<Row>, pages: seq<seq<Row>>, order: seq<Row>)
    requires WalksFrom(p, f, base, logs, last, pages, order) && |order| <= p.limit
    ensures ListsAll(p, pages, Remaining(base, f, last))
  {
    var rows := Remaining(base, f, last);
    PageIsOfRemaining(p, f, base, logs, last, pages, order);
    DistinctCount(pages[0]);
    SameSizeSubset(Rows(pages[0]), rows);
    forall r | r in rows
      ensures r in Listed(p, pages)
    {
      assert r in Rows(pages[0]) && r in Items(p, pages[0]);
    }
  }

  lemma RestIsSorted(
    p: Pager, f: Row -> bool, base: set<Row>, last: Option<Row>, page: seq<Row>, order: seq<Row>)
    requires p.limit > 0 && HasNext(p, page) && IsPage(ColumnCursor, Remaining(base, f, last), FetchSize(p), page)
    requires Sorts(order, Remaining(base, f, last)) && |order| > p.limit
    requires Shown(order[p.limit - 1].at) != Shown(order[p.limit].at)
    ensures Sorts(order[p.limit..], Remaining(base, f, Some(LastItem(p, page))))
  {
    var rows := Remaining(base, f, last);
    var next := LastItem(p, page);
    assert next == page[p.limit - 1] && next in rows;
    RemainingShrinks(base, f, last, next);
    forall r
      ensures r in order[p.limit..] <==> r in Remaining(base, f, Some(next))
    {
      if r in rows {
        AcrossClearBoundary(p, rows, page, order, r);
      }
      assert r in order[p.limit..] ==> r in order;
    }
  }

  lemma LaterLogs(base: set<Row>, logs: seq<set<Row>>)
    requires |logs| > 1 && OnlyNewer(ColumnCursor, base, logs) && Grows(logs) && base <= logs[0]
    ensures OnlyNewer(ColumnCursor, base, logs[1..]) && base <= logs[1]
  {
    assert logs[0] <= logs[1];
    forall i | 0 <= i < |logs[1..]|
      ensures NewerThan(ColumnCursor, base, logs[1..][i])
    {
      assert NewerThan(ColumnCursor, base, logs[i + 1]);
    }
  }

  lemma LastItemRemained(p: Pager, rows: set<Row>, page: seq<Row>)
    requires HasNext(p, page) && IsPage(ColumnCursor, rows, FetchSize(p), page)
    ensures LastItem(p, page) in rows
  {
    assert LastItem(p, page) == page[p.limit - 1];
  }

  lemma NextWalksFrom(
    p: Pager, f: Row -> bool, base: set<Row>, logs: seq<set<Row>>, last: Option<Row>, pages: seq<seq<Row>>, order: seq<Row>)
    requires WalksFrom(p, f, base, logs, last, pages, order) && |order| > p.limit
    requires Shown(order[p.limit - 1].at) != Shown(order[p.limit].at)
    ensures |pages| > 1 && HasNext(p, pages[0])
    ensures WalksFrom(p, f, base, logs[1..], Some(LastItem(p, pages[0])), pages[1..], order[p.limit..])
  {
    PageIsOfRemaining(p, f, base, logs, last, pages, order);
    LastItemRemained(p, Remaining(base, f, last), pages[0]);
    StepFacts(p, f, logs, last, pages);
    LaterLogs(base, logs);
    RestIsSorted(p, f, base, last, pages[0], order);
  }

  /**
   A walk with the time cursor, newer rows arriving meanwhile, lists every row present at the start if and
   only if no page boundary of the sorted rows falls within a millisecond.
  */
  lemma {:induction false} CompleteIffClearBoundaries(
    p: Pager, f: Row -> bool, base: set<Row>, logs: seq<set<Row>>, last: Option<Row>, pages: seq<seq<Row>>, order: seq<Row>)
    requires WalksFrom(p, f, base, logs, last, pages, order)
    ensures ListsAll(p, pages, Remaining(base, f, last)) <==> ClearBoundaries(order, p.limit)
    decreases |pages|
  {
    var rows := Remaining(base, f, last);
    if |order| <= p.limit {
      ShortRestIsListed(p, f, base, logs, last, pages, order);
    } else if Shown(order[p.limit - 1].at) != Shown(order[p.limit].at) {
      ClearStep(p, f, base, logs, last, pages, order);
      CompleteIffClearBoundaries(p, f, base, logs[1..], Some(LastItem(p, pages[0])), pages[1..], order[p.limit..]);
    } else {
      BlurredStep(p, f, base, logs, last, pages, order);
    }
  }

  lemma ClearStep(
    p: Pager, f: Row -> bool, base: set<Row>, logs: seq<set<Row>>, last: Option<Row>, pages: seq<seq<Row>>, order: seq<Row>)
    requires WalksFrom(p, f, base, logs, last, pages, order) && |order| > p.limit
    requires Shown(order[p.limit - 1].at) != Shown(order[p.limit].at)
    ensures |pages| > 1 && HasNext(p, pages[0])
    ensures WalksFrom(p, f, base, logs[1..], Some(LastItem(p, pages[0])), pages[1..], order[p.limit..])
    ensures ListsAll(p, pages, Remaining(base, f, last)) <==>
            ListsAll(p, pages[1..], Remaining(base, f, Some(LastItem(p, pages[0]))))
  {
    var rows := Remaining(base, f, last);
    NextWalksFrom(p, f, base, logs, last, pages, order);
    PageIsOfRemaining(p, f, base, logs, last, pages, order);
    forall r | r in rows
      ensures r in Items(p, pages[0]) <==> r !in Remaining(base, f, Some(LastItem(p, pages[0])))
    {
      AcrossClearBoundary(p, rows, pages[0], order, r);
    }
    forall r | r in Remaining(base, f, Some(LastItem(p, pages[0])))
      ensures r in rows
    {
      assert r in order[p.limit..] && r in order;
    }
  }

  lemma BlurredStep(
    p: Pager, f: Row -> bool, base: set<Row>, logs: seq<set<Row>>, last: Option<Row>, pages: seq<seq<Row>>, order: seq<Row>)
    requires WalksFrom(p, f, base, logs, last, pages, order) && |order| > p.limit
    requires Shown(order[p.limit - 1].at) == Shown(order[p.limit].at)
    ensures !ListsAll(p, pages, Remaining(base, f, last))
  {
    var rows := Remaining(base, f, last);
    PageIsOfRemaining(p, f, base, logs, last, pages, order);
    assert HasNext(p, pages[0]) && |pages| > 1;
    var r := BlurredBoundaryLoses(p, rows, pages[0], order);
    StepFacts(p, f, logs, last, pages);
    if r in Listed(p, pages) {
      ListedAreUnder(p, f, logs[1..], Some(LastItem(p, pages[0])), pages[1..], r);
    }
  }

  /** The same for the whole walk: sort the matching rows, and look at each `limit`-th boundary. */
  lemma TimeCursorIsCompleteIff(
    p: Pager, f: Row -> bool, logs: seq<set<Row>>, pages: seq<seq<Row>>, order: seq<Row>)
    requires p.scheme == ColumnCursor && p.limit > 0
    requires Grows(logs) && Walk(p, f, logs, None, pages) && Ended(p, pages) && OnlyNewer(ColumnCursor, logs[0], logs)
    requires Sorts(order, Matching(logs[0], f))
    ensures (forall r | r in Matching(logs[0], f) :: r in Listed(p, pages)) <==> ClearBoundaries(order, p.limit)
  {
    assert Remaining(logs[0], f, None) == Matching(logs[0], f);
    CompleteIffClearBoundaries(p, f, logs[0], logs, None, pages, order);
  }

  /** The matching rows can always be sorted. */
  lemma SortExists(rows: set<Row>) returns (order: seq<Row>)
    ensures Sorts(order, rows)
  {
    order := PageExists(ColumnCursor, rows, |rows|);
    DistinctCount(order);
    SameSizeSubset(Rows(order), rows);
    assert forall r :: r in order <==> r in Rows(order);
  }

  /** Sorted orders exist and agree on the condition: the walk is complete if one is clear, and then all are. */
  lemma CompleteIffAnyOrderIsClear(p: Pager, f: Row -> bool, logs: seq<set<Row>>, pages: seq<seq<Row>>)
    requires p.scheme == ColumnCursor && p.limit > 0
    requires Grows(logs) && Walk(p, f, logs, None, pages) && Ended(p, pages) && OnlyNewer(ColumnCursor, logs[0], logs)
    ensures var complete := forall r | r in Matching(logs[0], f) :: r in Listed(p, pages);
            && (complete <==> exists order :: Sorts(order, Matching(logs[0], f)) && ClearBoundaries(order, p.limit))
            && (complete <==> forall order :: Sorts(order, Matching(logs[0], f)) ==> ClearBoundaries(order, p.limit))
  {
    var some := SortExists(Matching(logs[0], f));
    forall order | Sorts(order, Matching(logs[0], f))
      ensures (forall r | r in Matching(logs[0], f) :: r in Listed(p, pages)) <==> ClearBoundaries(order, p.limit)
    {
      TimeCursorIsCompleteIff(p, f, logs, pages, order);
    }
  }

  // ---------------------------------------------------------------- a row that is lost

  const LATER := Row(1, 1500)
  const EARLIER := Row(0, 1200)

  lemma FirstPageOfTwo(p: Pager, f: Row -> bool)
    requires p == Pager(ColumnCursor, p.style, 1) && f(LATER) && f(EARLIER)
    ensures var log := {LATER, EARLIER};
            && Candidates(log, f, None) == log && Candidates(log, f, Some(ByTime(1000))) == {}
            && IsPage(ColumnCursor, log, FetchSize(p), if p.style == LookAhead then [LATER, EARLIER] else [LATER])
  {
  }

  lemma SecondPageIsEmpty(p: Pager, f: Row -> bool)
    requires p == Pager(ColumnCursor, p.style, 1) && f(LATER) && f(EARLIER)
    ensures var rest: seq<seq<Row>> := [[]];
            Walk(p, f, [{LATER, EARLIER}], Some(LATER), rest) && Listed(p, rest) == []
  {
    FirstPageOfTwo(p, f);
    assert Items(p, []) == [];
  }

  /**
   Two rows 300 microseconds apart, pages of one row: the first page shows the later row, the cursor is its
   millisecond, and the second page is empty and ends the walk. The earlier row is never listed.
  */
  lemma DifferentTimesCanBeLost(style: Style)
    ensures var p, log := Pager(ColumnCursor, style, 1), {LATER, EARLIER};
            var pages := [if style == LookAhead then [LATER, EARLIER] else [LATER], []];
            && LATER.at != EARLIER.at && UniqueIds(log)
            && Walk(p, (r: Row) => true, [log, log], None, pages) && Ended(p, pages)
            && LATER in Listed(p, pages) && EARLIER !in Listed(p, pages)
  {
    var p, log, f := Pager(ColumnCursor, style, 1), {LATER, EARLIER}, (r: Row) => true;
    var first := if style == LookAhead then [LATER, EARLIER] else [LATER];
    FirstPageOfTwo(p, f);
    assert Items(p, first) == [LATER] && Items(p, []) == [];
    var rest: seq<seq<Row>> := [[]];
    assert [first, []][1..] == rest && [log, log][1..] == [log];
    SecondPageIsEmpty(p, f);
  }
}
