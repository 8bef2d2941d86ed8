/** Consequences for whole walks: exactness and length while newer rows arrive, and when a time cursor loses rows. */
module PaginationWalks {
  import opened Wrappers
  import opened Pagination

  // ---------------------------------------------------------------- newer rows arriving

  /** Rows outside `base` are listed before all of its rows. */
  ghost predicate NewerThan(scheme: Scheme, base: set<Row>, log: set<Row>) {
    forall r, q | r in log && r !in base && q in base :: Above(scheme, r, q)
  }

  ghost predicate OnlyNewer(scheme: Scheme, base: set<Row>, logs: seq<set<Row>>) {
    forall i | 0 <= i < |logs| :: NewerThan(scheme, base, logs[i])
  }

  lemma NewerIsNotUnder(scheme: Scheme, base: set<Row>, log: set<Row>, r: Row, last: Row)
    requires NewerThan(scheme, base, log) && last in base && r in log && Under(scheme, r, last)
    ensures r in base
  {
  }

  /** Rows that arrive after the first page and are newer are never listed. */
  lemma {:induction false} ListedWasThere(
    p: Pager, f: Row -> bool, base: set<Row>, logs: seq<set<Row>>, last: Option<Row>, pages: seq<seq<Row>>, r: Row)
    requires Grows(logs) && Walk(p, f, logs, last, pages) && OnlyNewer(p.scheme, base, logs)
    requires if last.None? then logs[0] == base else last.value in base && last.value in logs[0]
    requires r in Listed(p, pages)
    ensures r in base
    decreases |pages|
  {
    var items := Items(p, pages[0]);
    forall i | 0 <= i < |items|
      ensures items[i] in base
    {
      assert pages[0][i] in Candidates(logs[0], f, CursorOf(p, last));
      CandidatesAre(p, f, logs[0], last, items[i]);
      if last.Some? {
        NewerIsNotUnder(p.scheme, base, logs[0], items[i], last.value);
      }
    }
    if r !in items {
      StepFacts(p, f, logs, last, pages);
      ListedWasThere(p, f, base, logs[1..], Some(LastItem(p, pages[0])), pages[1..], r);
    }
  }

  lemma WalkFillsPages(p: Pager, f: Row -> bool, logs: seq<set<Row>>, last: Option<Row>, pages: seq<seq<Row>>)
    requires Walk(p, f, logs, last, pages)
    ensures forall i | 0 <= i < |pages| - 1 :: HasNext(p, pages[i])
    decreases |pages|
  {
  }

  function TotalLength(full: nat, limit: nat, rest: nat): nat {
    if full == 0 then rest else limit + TotalLength(full - 1, limit, rest)
  }

  lemma TotalIsProduct(full: nat, limit: nat, rest: nat)
    ensures TotalLength(full, limit, rest) == full * limit + rest
  {
  }

  lemma {:induction false} ListedLength(p: Pager, pages: seq<seq<Row>>)
    requires |pages| > 0
    requires forall i | 0 <= i < |pages| - 1 :: HasNext(p, pages[i])
    ensures |Listed(p, pages)| == TotalLength(|pages| - 1, p.limit, |Items(p, pages[|pages| - 1])|)
    decreases |pages|
  {
    if |pages| > 1 {
      ListedLength(p, pages[1..]);
      assert HasNext(p, pages[0]);
    } else {
      assert Listed(p, pages) == Items(p, pages[0]);
    }
  }

  lemma WalkLength(p: Pager, f: Row -> bool, logs: seq<set<Row>>, last: Option<Row>, pages: seq<seq<Row>>)
    requires Walk(p, f, logs, last, pages)
    ensures |Listed(p, pages)| == (|pages| - 1) * p.limit + |Items(p, pages[|pages| - 1])|
  {
    WalkFillsPages(p, f, logs, last, pages);
    ListedLength(p, pages);
    TotalIsProduct(|pages| - 1, p.limit, |Items(p, pages[|pages| - 1])|);
  }

  function Matching(log: set<Row>, f: Row -> bool): set<Row> {
    set r | r in log && f(r)
  }

  lemma ListedFits(p: Pager, f: Row -> bool, logs: seq<set<Row>>, pages: seq<seq<Row>>)
    requires Grows(logs) && Walk(p, f, logs, None, pages) && OnlyNewer(p.scheme, logs[0], logs)
    ensures |Listed(p, pages)| <= |Matching(logs[0], f)|
    ensures (forall r | r in Matching(logs[0], f) :: r in Listed(p, pages)) ==>
              |Listed(p, pages)| == |Matching(logs[0], f)|
  {
    var rows := Listed(p, pages);
    var listed := set r | r in rows;
    ListingIsOrdered(p, f, logs, None, pages);
    DistinctCount(rows);
    forall r | r in listed
      ensures r in Matching(logs[0], f)
    {
      ListedWasThere(p, f, logs[0], logs, None, pages, r);
      ListedAreUnder(p, f, logs, None, pages, r);
    }
    SubsetCount(listed, Matching(logs[0], f));
    if forall r | r in Matching(logs[0], f) :: r in rows {
      assert listed == Matching(logs[0], f);
    }
  }

  lemma SubsetCount(a: set<Row>, b: set<Row>)
    requires a <= b
    ensures |a| <= |b|
  {
    if a != {} {
      var x :| x in a;
      SubsetCount(a - {x}, b - {x});
    }
  }

  /** No walk gets past its page count, so it ends, whichever cursor it uses. */
  lemma WalkIsBounded(p: Pager, f: Row -> bool, logs: seq<set<Row>>, pages: seq<seq<Row>>)
    requires p.limit > 0
    requires Grows(logs) && Walk(p, f, logs, None, pages) && OnlyNewer(p.scheme, logs[0], logs)
    ensures |pages| - 1 <= |Matching(logs[0], f)| / p.limit
  {
    WalkLength(p, f, logs, None, pages);
    ListedFits(p, f, logs, pages);
    Quotient(|pages| - 1, p.limit, |Matching(logs[0], f)|);
  }

  lemma TimesMonotone(a: nat, b: nat, limit: nat)
    ensures a <= b ==> a * limit <= b * limit
  {
  }

  lemma QuotientOf(k: nat, limit: nat, rest: nat)
    requires rest < limit
    ensures (k * limit + rest) / limit == k
  {
    Quotient(k, limit, k * limit + rest);
  }

  lemma Quotient(k: nat, limit: nat, n: nat)
    requires limit > 0 && k * limit <= n
    ensures k <= n / limit
    ensures n < k * limit + limit ==> n / limit == k
  {
    var q := n / limit;
    assert n == q * limit + n % limit;
    assert (q + 1) * limit == q * limit + limit;
    TimesMonotone(q + 1, k, limit);
    TimesMonotone(k + 1, q, limit);
  }

  lemma TupleWalkListsExactly(p: Pager, f: Row -> bool, logs: seq<set<Row>>, pages: seq<seq<Row>>, r: Row)
    requires p.scheme == TupleCursor && p.limit > 0
    requires Grows(logs) && Walk(p, f, logs, None, pages) && Ended(p, pages) && OnlyNewer(p.scheme, logs[0], logs)
    ensures r in Listed(p, pages) <==> r in Matching(logs[0], f)
  {
    if r in Listed(p, pages) {
      ListedWasThere(p, f, logs[0], logs, None, pages, r);
      ListedAreUnder(p, f, logs, None, pages, r);
    }
    if r in Matching(logs[0], f) {
      TupleWalkFindsAll(p, f, logs, pages, r);
    }
  }

  lemma PageCount(p: Pager, f: Row -> bool, logs: seq<set<Row>>, pages: seq<seq<Row>>, n: nat)
    requires p.style == ExactFill && p.limit > 0
    requires Walk(p, f, logs, None, pages) && Ended(p, pages) && |Listed(p, pages)| == n
    ensures |pages| == n / p.limit + 1
  {
    WalkLength(p, f, logs, None, pages);
    LastPageSize(p, f, logs, None, pages);
    QuotientOf(|pages| - 1, p.limit, |Items(p, pages[|pages| - 1])|);
  }

  /**
   Walking the audit decisions while newer entries arrive: the listing is the matching entries present at
   the start, each once, in strictly descending (createdAt, id) order, on as many pages as they fill.
  */
  lemma TupleWalkIsExact(p: Pager, f: Row -> bool, logs: seq<set<Row>>, pages: seq<seq<Row>>)
    requires p.scheme == TupleCursor && p.style == ExactFill && p.limit > 0
    requires Grows(logs) && Walk(p, f, logs, None, pages) && Ended(p, pages) && OnlyNewer(p.scheme, logs[0], logs)
    ensures forall r :: r in Listed(p, pages) <==> r in Matching(logs[0], f)
    ensures forall i, j | 0 <= i < j < |Listed(p, pages)| ::
              var a, b := Listed(p, pages)[i], Listed(p, pages)[j]; a.at > b.at || (a.at == b.at && a.id > b.id)
    ensures |pages| == |Matching(logs[0], f)| / p.limit + 1
  {
    forall r
      ensures r in Listed(p, pages) <==> r in Matching(logs[0], f)
    {
      TupleWalkListsExactly(p, f, logs, pages, r);
    }
    ListingIsOrdered(p, f, logs, None, pages);
    ListedFits(p, f, logs, pages);
    PageCount(p, f, logs, pages, |Matching(logs[0], f)|);
  }

  lemma LastPageSize(p: Pager, f: Row -> bool, logs: seq<set<Row>>, last: Option<Row>, pages: seq<seq<Row>>)
    requires p.limit > 0 && p.style == ExactFill && Walk(p, f, logs, last, pages) && Ended(p, pages)
    ensures |pages[|pages| - 1]| < p.limit
    decreases |pages|
  {
  }

  // ---------------------------------------------------------------- the time cursor

  ghost predicate DistinctMilliseconds(rows: set<Row>) {
    forall a, b | a in rows && b in rows && Shown(a.at) == Shown(b.at) :: a == b
  }

  lemma LastItemIsListed(p: Pager, pages: seq<seq<Row>>, i: nat)
    requires i < |pages| && HasNext(p, pages[i])
    ensures LastItem(p, pages[i]) in Listed(p, pages)
  {
    if i > 0 {
      LastItemIsListed(p, pages[1..], i - 1);
      assert pages[1..][i - 1] == pages[i];
    }
  }

  lemma LostSharesItsMillisecond(
    p: Pager, f: Row -> bool, logs: seq<set<Row>>, pages: seq<seq<Row>>, i: nat, r: Row)
    requires Grows(logs) && Walk(p, f, logs, None, pages) && r in logs[0] && f(r) && LostAt(p, pages, i, r)
    ensures !DistinctMilliseconds(Matching(logs[|logs| - 1], f))
  {
    var last, final := LastItem(p, pages[i]), logs[|logs| - 1];
    LastItemIsListed(p, pages, i);
    ListedAreUnder(p, f, logs, None, pages, last);
    assert logs[0] <= final;
    assert last in Matching(final, f) && r in Matching(final, f);
    assert last in Items(p, pages[i]) && r !in Items(p, pages[i]);
  }

  /** Where matching rows differ in their millisecond, the time cursor loses none. */
  lemma ColumnWalkFindsAll(p: Pager, f: Row -> bool, logs: seq<set<Row>>, pages: seq<seq<Row>>, r: Row)
    requires p.scheme == ColumnCursor && p.limit > 0
    requires Grows(logs) && Walk(p, f, logs, None, pages) && Ended(p, pages)
    requires DistinctMilliseconds(Matching(logs[|logs| - 1], f))
    requires r in logs[0] && f(r)
    ensures r in Listed(p, pages)
  {
    var i := FoundOrLost(p, f, logs, None, pages, r);
    if r !in Listed(p, pages) {
      LostSharesItsMillisecond(p, f, logs, pages, i, r);
    }
  }

  /** A row on the first page and one listed later differ in their millisecond. */
  lemma LaterPagesAreEarlier(
    p: Pager, f: Row -> bool, logs: seq<set<Row>>, last: Option<Row>, pages: seq<seq<Row>>, a: Row, b: Row)
    requires p.scheme == ColumnCursor && |pages| > 1
    requires Grows(logs) && Walk(p, f, logs, last, pages) && (last.Some? ==> last.value in logs[0])
    requires a in Items(p, pages[0]) && b in Listed(p, pages[1..])
    ensures Shown(b.at) < Shown(a.at)
  {
    StepFacts(p, f, logs, last, pages);
    ListedAreUnder(p, f, logs[1..], Some(LastItem(p, pages[0])), pages[1..], b);
    ListedAboveLast(p, Candidates(logs[0], f, CursorOf(p, last)), pages[0], a);
  }

  /** Of two rows of one millisecond, both can only be listed on the same page. */
  lemma SameMillisecondSamePage(
    p: Pager, f: Row -> bool, logs: seq<set<Row>>, last: Option<Row>, pages: seq<seq<Row>>, a: Row, b: Row) returns (i: nat)
    requires p.scheme == ColumnCursor
    requires Grows(logs) && Walk(p, f, logs, last, pages) && (last.Some? ==> last.value in logs[0])
    requires a in Listed(p, pages) && b in Listed(p, pages) && Shown(a.at) == Shown(b.at)
    ensures i < |pages| && a in Items(p, pages[i]) && b in Items(p, pages[i])
    decreases |pages|
  {
    var items := Items(p, pages[0]);
    i := 0;
    if a in items && b !in items {
      LaterPagesAreEarlier(p, f, logs, last, pages, a, b);
    } else if b in items && a !in items {
      LaterPagesAreEarlier(p, f, logs, last, pages, b, a);
    } else if a !in items {
      StepFacts(p, f, logs, last, pages);
      i := SameMillisecondSamePage(p, f, logs[1..], Some(LastItem(p, pages[0])), pages[1..], a, b);
      i := i + 1;
    }
  }

  lemma ListedAboveLast(p: Pager, rows: set<Row>, page: seq<Row>, a: Row)
    requires p.scheme == ColumnCursor && IsPage(p.scheme, rows, FetchSize(p), page) && HasNext(p, page)
    requires a in Items(p, page)
    ensures Shown(LastItem(p, page).at) <= Shown(a.at)
  {
  }

  /** One row per page: the walk lists all matching rows exactly when no two of them share a millisecond. */
  lemma SingleRowPagesIff(p: Pager, f: Row -> bool, logs: seq<set<Row>>, pages: seq<seq<Row>>)
    requires p.scheme == ColumnCursor && p.limit == 1
    requires Grows(logs) && Walk(p, f, logs, None, pages) && Ended(p, pages)
    requires forall i | 0 <= i < |logs| :: logs[i] == logs[0]
    ensures (forall r | r in Matching(logs[0], f) :: r in Listed(p, pages)) <==>
            DistinctMilliseconds(Matching(logs[0], f))
  {
    var all := Matching(logs[0], f);
    if DistinctMilliseconds(all) {
      forall r | r in all
        ensures r in Listed(p, pages)
      {
        ColumnWalkFindsAll(p, f, logs, pages, r);
      }
    }
    if forall r | r in all :: r in Listed(p, pages) {
      forall a, b | a in all && b in all && Shown(a.at) == Shown(b.at)
        ensures a == b
      {
        var i := SameMillisecondSamePage(p, f, logs, None, pages, a, b);
      }
    }
  }
}
