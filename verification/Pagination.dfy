/**
 Keyset pagination: walking the pages of a log that grows meanwhile. The audit decisions page by the tuple
 (createdAt, id); notifications and the admin lists page by one timestamp column, whose cursor is a
 millisecond value although the column holds microseconds.
*/
module Pagination {
  import opened Wrappers

  /** A row with its timestamp in microseconds. */
  datatype Row = Row(id: nat, at: nat)

  datatype Scheme = TupleCursor | ColumnCursor

  /** `ExactFill`: a full page has a successor. `LookAhead`: one row more than the page is fetched to tell. */
  datatype Style = ExactFill | LookAhead

  datatype Pager = Pager(scheme: Scheme, style: Style, limit: nat)

  /** What a client sends back: the id of a row, or a time in microseconds cut to the millisecond. */
  datatype Cursor = ById(id: nat) | ByTime(time: nat)

  predicate TupleLess(a: Row, b: Row) {
    a.at < b.at || (a.at == b.at && a.id < b.id)
  }

  /** A timestamp as a JavaScript date shows it. */
  function Shown(at: nat): (t: nat)
    ensures t <= at < t + 1000 && t % 1000 == 0
  {
    at - at % 1000
  }

  function CursorFor(scheme: Scheme, last: Row): Cursor {
    if scheme == TupleCursor then ById(last.id) else ByTime(Shown(last.at))
  }

  /** The rows a query selects before ordering; an id that is not in the log selects nothing. */
  ghost predicate Selected(log: set<Row>, f: Row -> bool, cursor: Option<Cursor>, r: Row) {
    && r in log && f(r)
    && match cursor
       case None => true
       case Some(ById(id)) => exists c :: c in log && c.id == id && TupleLess(r, c)
       case Some(ByTime(t)) => r.at < t
  }

  ghost function Candidates(log: set<Row>, f: Row -> bool, cursor: Option<Cursor>): set<Row> {
    set r | r in log && Selected(log, f, cursor, r)
  }

  /** `a` is listed before `b`; the column order leaves ties open. */
  predicate Above(scheme: Scheme, a: Row, b: Row) {
    if scheme == TupleCursor then TupleLess(b, a) else b.at <= a.at
  }

  /** A result of the ordered query with a limit of `n` rows. */
  ghost predicate IsPage(scheme: Scheme, rows: set<Row>, n: nat, page: seq<Row>) {
    && |page| == (if |rows| < n then |rows| else n)
    && (forall i | 0 <= i < |page| :: page[i] in rows)
    && NoRepeats(page) && InOrder(scheme, page)
    && (forall i, r | 0 <= i < |page| && r in rows && r !in page :: Above(scheme, page[i], r))
  }

  lemma TopExists(scheme: Scheme, rows: set<Row>) returns (top: Row)
    requires rows != {}
    ensures top in rows && forall r | r in rows && r != top :: Above(scheme, top, r)
  {
    var x :| x in rows;
    top := x;
    if rows != {x} {
      var other := TopExists(scheme, rows - {x});
      if Above(scheme, other, x) {
        top := other;
      }
      forall r | r in rows && r != top
        ensures Above(scheme, top, r)
      {
        assert r == x || r == other || (r in rows - {x} && Above(scheme, other, r));
      }
    }
  }

  /** A query always has a result. */
  lemma PageExists(scheme: Scheme, rows: set<Row>, n: nat) returns (page: seq<Row>)
    ensures IsPage(scheme, rows, n, page)
  {
    page := [];
    if n > 0 && rows != {} {
      var top := TopExists(scheme, rows);
      var rest := PageExists(scheme, rows - {top}, n - 1);
      page := [top] + rest;
    }
  }

  lemma RestIsPage(scheme: Scheme, rows: set<Row>, n: nat, page: seq<Row>)
    requires IsPage(scheme, rows, n, page) && |page| > 0
    ensures IsPage(scheme, rows - {page[0]}, n - 1, page[1..])
    ensures forall r | r in rows && r != page[0] :: Above(scheme, page[0], r)
  {
  }

  /** Under the tuple cursor it has only one. */
  lemma TuplePageIsUnique(rows: set<Row>, n: nat, p: seq<Row>, q: seq<Row>)
    requires IsPage(TupleCursor, rows, n, p) && IsPage(TupleCursor, rows, n, q)
    ensures p == q
    decreases n
  {
    if |p| > 0 {
      RestIsPage(TupleCursor, rows, n, p);
      RestIsPage(TupleCursor, rows, n, q);
      assert p[0] == q[0] by {
        assert p[0] in rows && q[0] in rows;
      }
      TuplePageIsUnique(rows - {p[0]}, n - 1, p[1..], q[1..]);
      assert p == [p[0]] + p[1..] && q == [q[0]] + q[1..];
    }
  }

  function FetchSize(p: Pager): nat {
    if p.style == LookAhead then p.limit + 1 else p.limit
  }

  /** The rows of a page as returned to the client. */
  function Items(p: Pager, fetched: seq<Row>): (items: seq<Row>)
    ensures |items| <= p.limit && items <= fetched
  {
    if |fetched| > p.limit then fetched[..p.limit] else fetched
  }

  /** Whether the response carries a next cursor. */
  predicate HasNext(p: Pager, fetched: seq<Row>) {
    p.limit > 0 && if p.style == LookAhead then |fetched| > p.limit else |fetched| == p.limit
  }

  function LastItem(p: Pager, fetched: seq<Row>): Row
    requires HasNext(p, fetched)
  {
    Items(p, fetched)[|Items(p, fetched)| - 1]
  }

  function CursorOf(p: Pager, last: Option<Row>): Option<Cursor> {
    if last.None? then None else Some(CursorFor(p.scheme, last.value))
  }

  /** Pages fetched one after the other, each from the log as it then is, with the cursor the page before returned. */
  ghost predicate Walk(p: Pager, f: Row -> bool, logs: seq<set<Row>>, last: Option<Row>, pages: seq<seq<Row>>)
    decreases |pages|
  {
    && |pages| == |logs| > 0
    && IsPage(p.scheme, Candidates(logs[0], f, CursorOf(p, last)), FetchSize(p), pages[0])
    && (|pages| > 1 ==> HasNext(p, pages[0]) && Walk(p, f, logs[1..], Some(LastItem(p, pages[0])), pages[1..]))
  }

  /** The walk has come to a page without a next cursor. */
  predicate Ended(p: Pager, pages: seq<seq<Row>>) {
    |pages| > 0 && !HasNext(p, pages[|pages| - 1])
  }

  function Listed(p: Pager, pages: seq<seq<Row>>): seq<Row> {
    if pages == [] then [] else Items(p, pages[0]) + Listed(p, pages[1..])
  }

  predicate UniqueIds(log: set<Row>) {
    forall a, b | a in log && b in log && a.id == b.id :: a == b
  }

  /** Rows are only ever added, and ids are unique. */
  predicate Grows(logs: seq<set<Row>>) {
    && (forall i | 0 <= i < |logs| :: UniqueIds(logs[i]))
    && (forall i, j | 0 <= i < j < |logs| :: logs[i] <= logs[j])
  }

  // ---------------------------------------------------------------- one page

  /** What the next query keeps of the rows at hand. */
  predicate Under(scheme: Scheme, r: Row, last: Row) {
    if scheme == TupleCursor then TupleLess(r, last) else r.at < Shown(last.at)
  }

  predicate UnderAny(scheme: Scheme, r: Row, last: Option<Row>) {
    last.None? || Under(scheme, r, last.value)
  }

  lemma CandidatesAre(p: Pager, f: Row -> bool, log: set<Row>, last: Option<Row>, r: Row)
    requires UniqueIds(log) && (last.Some? ==> last.value in log)
    ensures r in Candidates(log, f, CursorOf(p, last)) <==> r in log && f(r) && UnderAny(p.scheme, r, last)
  {
  }

  lemma Across(scheme: Scheme, a: Row, last: Row, b: Row)
    requires a == last || Above(scheme, a, last)
    requires Under(scheme, b, last)
    ensures a != b && Above(scheme, a, b) && !Under(scheme, a, last)
  {
  }

  predicate NoRepeats(s: seq<Row>) {
    forall i, j | 0 <= i < j < |s| :: s[i] != s[j]
  }

  predicate InOrder(scheme: Scheme, s: seq<Row>) {
    forall i, j | 0 <= i < j < |s| :: Above(scheme, s[i], s[j])
  }

  lemma DistinctCount(s: seq<Row>)
    requires NoRepeats(s)
    ensures |(set r | r in s)| == |s|
  {
    if s != [] {
      DistinctCount(s[1..]);
      assert (set r | r in s) == {s[0]} + (set r | r in s[1..]);
      assert s[0] !in s[1..];
    }
  }

  /** A page without successor holds everything the query selects. */
  lemma LastPageHoldsAll(p: Pager, rows: set<Row>, page: seq<Row>, r: Row)
    requires p.limit > 0 && IsPage(p.scheme, rows, FetchSize(p), page) && !HasNext(p, page)
    ensures r in Items(p, page) <==> r in rows
  {
    var held := set x | x in page;
    DistinctCount(page);
    SameSizeSubset(held, rows);
  }

  lemma SameSizeSubset(a: set<Row>, b: set<Row>)
    requires a <= b && |a| == |b|
    ensures a == b
  {
    if a != {} {
      var x :| x in a;
      SameSizeSubset(a - {x}, b - {x});
    }
  }

  // ---------------------------------------------------------------- whole walks

  lemma StepFacts(p: Pager, f: Row -> bool, logs: seq<set<Row>>, last: Option<Row>, pages: seq<seq<Row>>)
    requires Grows(logs) && Walk(p, f, logs, last, pages) && (last.Some? ==> last.value in logs[0]) && |pages| > 1
    ensures Grows(logs[1..]) && LastItem(p, pages[0]) in logs[0] && LastItem(p, pages[0]) in logs[1]
  {
  }

  lemma ListedAreUnder(
    p: Pager, f: Row -> bool, logs: seq<set<Row>>, last: Option<Row>, pages: seq<seq<Row>>, r: Row)
    requires Grows(logs) && Walk(p, f, logs, last, pages) && (last.Some? ==> last.value in logs[0])
    requires r in Listed(p, pages)
    ensures f(r) && UnderAny(p.scheme, r, last) && r in logs[|logs| - 1]
    decreases |pages|
  {
    if r in Items(p, pages[0]) {
      var i :| 0 <= i < |Items(p, pages[0])| && Items(p, pages[0])[i] == r;
      assert pages[0][i] in Candidates(logs[0], f, CursorOf(p, last));
      CandidatesAre(p, f, logs[0], last, r);
      assert |logs| > 1 ==> logs[0] <= logs[|logs| - 1];
    } else {
      StepFacts(p, f, logs, last, pages);
      ListedAreUnder(p, f, logs[1..], Some(LastItem(p, pages[0])), pages[1..], r);
      if last.Some? {
        var first := LastItem(p, pages[0]);
        assert pages[0][|Items(p, pages[0])| - 1] in Candidates(logs[0], f, CursorOf(p, last));
        CandidatesAre(p, f, logs[0], last, first);
      }
    }
  }

  lemma ItemsEndWithLast(p: Pager, rows: set<Row>, page: seq<Row>, i: int)
    requires IsPage(p.scheme, rows, FetchSize(p), page) && HasNext(p, page) && 0 <= i < |Items(p, page)|
    ensures Items(p, page)[i] == LastItem(p, page) || Above(p.scheme, Items(p, page)[i], LastItem(p, page))
  {
  }

  /** Every item of the first page is above every row listed later. */
  lemma FirstPageIsAbove(
    p: Pager, f: Row -> bool, logs: seq<set<Row>>, last: Option<Row>, pages: seq<seq<Row>>, i: int, j: int)
    requires Grows(logs) && Walk(p, f, logs, last, pages) && (last.Some? ==> last.value in logs[0]) && |pages| > 1
    requires 0 <= i < |Items(p, pages[0])| && 0 <= j < |Listed(p, pages[1..])|
    ensures Items(p, pages[0])[i] != Listed(p, pages[1..])[j]
    ensures Above(p.scheme, Items(p, pages[0])[i], Listed(p, pages[1..])[j])
  {
    var items, rest := Items(p, pages[0]), Listed(p, pages[1..]);
    StepFacts(p, f, logs, last, pages);
    ItemsEndWithLast(p, Candidates(logs[0], f, CursorOf(p, last)), pages[0], i);
    ListedAreUnder(p, f, logs[1..], Some(LastItem(p, pages[0])), pages[1..], rest[j]);
    Across(p.scheme, items[i], LastItem(p, pages[0]), rest[j]);
  }

  lemma OrderedConcat(scheme: Scheme, a: seq<Row>, b: seq<Row>)
    requires NoRepeats(a) && InOrder(scheme, a) && NoRepeats(b) && InOrder(scheme, b)
    requires forall i, j | 0 <= i < |a| && 0 <= j < |b| :: a[i] != b[j] && Above(scheme, a[i], b[j])
    ensures NoRepeats(a + b) && InOrder(scheme, a + b)
  {
  }

  /** Whatever is added meanwhile, no row is listed twice and the listing is in order. */
  lemma {:induction false} ListingIsOrdered(
    p: Pager, f: Row -> bool, logs: seq<set<Row>>, last: Option<Row>, pages: seq<seq<Row>>)
    requires Grows(logs) && Walk(p, f, logs, last, pages) && (last.Some? ==> last.value in logs[0])
    ensures NoRepeats(Listed(p, pages)) && InOrder(p.scheme, Listed(p, pages))
    decreases |pages|
  {
    var items := Items(p, pages[0]);
    if |pages| > 1 {
      var rest := Listed(p, pages[1..]);
      StepFacts(p, f, logs, last, pages);
      ListingIsOrdered(p, f, logs[1..], Some(LastItem(p, pages[0])), pages[1..]);
      forall i, j | 0 <= i < |items| && 0 <= j < |rest|
        ensures items[i] != rest[j] && Above(p.scheme, items[i], rest[j])
      {
        FirstPageIsAbove(p, f, logs, last, pages, i, j);
      }
      OrderedConcat(p.scheme, items, rest);
    } else {
      assert Listed(p, pages) == items;
    }
  }

  /** Under the time cursor too the listing goes back in time, and no row is on it twice. */
  lemma ListedBackwards(p: Pager, f: Row -> bool, logs: seq<set<Row>>, pages: seq<seq<Row>>)
    requires p.scheme == ColumnCursor && Grows(logs) && Walk(p, f, logs, None, pages)
    ensures forall i, j | 0 <= i < j < |Listed(p, pages)| ::
              Listed(p, pages)[i] != Listed(p, pages)[j] && Listed(p, pages)[i].at >= Listed(p, pages)[j].at
  {
    ListingIsOrdered(p, f, logs, None, pages);
  }

  /**
   What a query selects: the matching rows, all of them without a cursor, those below the named row in time and
   id with a tuple cursor, and those before its millisecond with a time cursor. There is a next page if the
   selection has at least as many rows as a page, or more than that where one more is fetched.
  */
  lemma PageShape(p: Pager, f: Row -> bool, log: set<Row>, last: Option<Row>, page: seq<Row>, r: Row)
    requires UniqueIds(log) && (last.Some? ==> last.value in log)
    requires IsPage(p.scheme, Candidates(log, f, CursorOf(p, last)), FetchSize(p), page)
    ensures
      r in Candidates(log, f, CursorOf(p, last)) <==>
      && r in log && f(r)
      && (last.Some? ==>
            match p.scheme
            case TupleCursor => r.at < last.value.at || (r.at == last.value.at && r.id < last.value.id)
            case ColumnCursor => r.at < last.value.at - last.value.at % 1000)
    ensures
      var n := |Candidates(log, f, CursorOf(p, last))|;
      && |Items(p, page)| == (if n < p.limit then n else p.limit)
      && (HasNext(p, page) <==> p.limit > 0 && if p.style == LookAhead then n > p.limit else n >= p.limit)
  {
    CandidatesAre(p, f, log, last, r);
  }

  /** The row is on none of the pages up to `i`, although its time falls within the time cursor page `i` returned. */
  ghost predicate LostAt(p: Pager, pages: seq<seq<Row>>, i: nat, r: Row) {
    && i + 1 < |pages| && HasNext(p, pages[i])
    && (forall j | 0 <= j <= i :: r !in Items(p, pages[j]))
    && Shown(r.at) == Shown(LastItem(p, pages[i]).at)
  }

  lemma PassedOverOrLost(p: Pager, rows: set<Row>, pages: seq<seq<Row>>, r: Row)
    requires |pages| > 1 && HasNext(p, pages[0]) && IsPage(p.scheme, rows, FetchSize(p), pages[0])
    requires r in rows && r !in Items(p, pages[0])
    ensures Under(p.scheme, r, LastItem(p, pages[0])) || (p.scheme == ColumnCursor && LostAt(p, pages, 0, r))
  {
  }

  lemma FoundOrLost(
    p: Pager, f: Row -> bool, logs: seq<set<Row>>, last: Option<Row>, pages: seq<seq<Row>>, r: Row) returns (i: nat)
    requires p.limit > 0 && Grows(logs) && Walk(p, f, logs, last, pages) && (last.Some? ==> last.value in logs[0])
    requires Ended(p, pages) && r in logs[0] && f(r) && UnderAny(p.scheme, r, last)
    ensures r in Listed(p, pages) || (p.scheme == ColumnCursor && LostAt(p, pages, i, r))
    decreases |pages|
  {
    i := 0;
    CandidatesAre(p, f, logs[0], last, r);
    var rows := Candidates(logs[0], f, CursorOf(p, last));
    if |pages| == 1 {
      LastPageHoldsAll(p, rows, pages[0], r);
    } else if r !in Items(p, pages[0]) {
      PassedOverOrLost(p, rows, pages, r);
      if Under(p.scheme, r, LastItem(p, pages[0])) {
        i := FoundOrLostLater(p, f, logs, last, pages, r);
      }
    }
  }

  lemma FoundOrLostLater(
    p: Pager, f: Row -> bool, logs: seq<set<Row>>, last: Option<Row>, pages: seq<seq<Row>>, r: Row) returns (i: nat)
    requires p.limit > 0 && Grows(logs) && Walk(p, f, logs, last, pages) && (last.Some? ==> last.value in logs[0])
    requires |pages| > 1 && Ended(p, pages) && r in logs[0] && f(r)
    requires r !in Items(p, pages[0]) && Under(p.scheme, r, LastItem(p, pages[0]))
    ensures r in Listed(p, pages) || (p.scheme == ColumnCursor && LostAt(p, pages, i, r))
    decreases |pages|, 0
  {
    StepFacts(p, f, logs, last, pages);
    assert r in logs[1];
    i := FoundOrLost(p, f, logs[1..], Some(LastItem(p, pages[0])), pages[1..], r);
    if r !in Listed(p, pages[1..]) {
      LostLater(p, pages, i, r);
      i := i + 1;
    }
  }

  lemma LostLater(p: Pager, pages: seq<seq<Row>>, i: nat, r: Row)
    requires |pages| > 1 && r !in Items(p, pages[0]) && LostAt(p, pages[1..], i, r)
    ensures LostAt(p, pages, i + 1, r)
  {
  }

  /** The tuple cursor: every row there at the start that matches is listed, whatever is added meanwhile. */
  lemma TupleWalkFindsAll(p: Pager, f: Row -> bool, logs: seq<set<Row>>, pages: seq<seq<Row>>, r: Row)
    requires p.scheme == TupleCursor && p.limit > 0
    requires Grows(logs) && Walk(p, f, logs, None, pages) && Ended(p, pages)
    requires r in logs[0] && f(r)
    ensures r in Listed(p, pages)
  {
    var i := FoundOrLost(p, f, logs, None, pages, r);
  }

  lemma LostIsUnlisted(
    p: Pager, f: Row -> bool, logs: seq<set<Row>>, last: Option<Row>, pages: seq<seq<Row>>, i: nat, r: Row)
    requires p.scheme == ColumnCursor
    requires Grows(logs) && Walk(p, f, logs, last, pages) && (last.Some? ==> last.value in logs[0])
    requires LostAt(p, pages, i, r)
    ensures r !in Listed(p, pages)
    decreases |pages|
  {
    StepFacts(p, f, logs, last, pages);
    var first := Some(LastItem(p, pages[0]));
    assert r !in Items(p, pages[0]);
    if r in Listed(p, pages[1..]) {
      ListedAreUnder(p, f, logs[1..], first, pages[1..], r);
      if i > 0 {
        forall j | 0 <= j <= i - 1
          ensures r !in Items(p, pages[1..][j])
        {
          assert pages[1..][j] == pages[j + 1];
        }
        assert LostAt(p, pages[1..], i - 1, r);
        LostIsUnlisted(p, f, logs[1..], first, pages[1..], i - 1, r);
      }
    }
  }

  /**
   The time cursor: a row there at the start that matches is listed if and only if it is on the page when
   the walk leaves its millisecond, that is, unless some page ended within that millisecond without it.
  */
  lemma ColumnWalkFindsIff(p: Pager, f: Row -> bool, logs: seq<set<Row>>, pages: seq<seq<Row>>, r: Row)
    requires p.scheme == ColumnCursor && p.limit > 0
    requires Grows(logs) && Walk(p, f, logs, None, pages) && Ended(p, pages)
    requires r in logs[0] && f(r)
    ensures r in Listed(p, pages) <==> forall i: nat :: !LostAt(p, pages, i, r)
  {
    var i := FoundOrLost(p, f, logs, None, pages, r);
    forall j: nat | LostAt(p, pages, j, r)
      ensures r !in Listed(p, pages)
    {
      LostIsUnlisted(p, f, logs, None, pages, j, r);
    }
  }
}
