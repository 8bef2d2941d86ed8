/** What holds of every run of the cache protocol. */
module CacheSafety {
  import opened CacheCoordination
  import opened CacheProtocol

  /** At most one loader per key, exact bookkeeping, and nothing left behind when all calls ended. */
  lemma BookkeepingIsExact(init: State, es: seq<Event>)
    requires Init(init) && AllEnabled(init, es)
    ensures
      var s := Run(init, es);
      && (forall c, d | c in s.calls && d in s.calls && s.calls[c].phase.Leading() && s.calls[d].phase.Leading()
                        && s.calls[c].key == s.calls[d].key :: c == d)
      && (forall k :: k in s.coord.inFlight <==>
                      exists c :: c in s.calls && s.calls[c].key == k && s.calls[c].phase.Leading())
      && (forall k :: LoadCount(s.coord, k) == |CallsOn(s.calls, k)|)
      && (forall k :: k in s.coord.marks ==> CallsOn(s.calls, k) != {})
      && (s.calls == map[] ==> s.coord == EMPTY_COORD)
  {
    InitInv(init);
    RunKeepsInv(init, es);
    var s := Run(init, es);
    forall k | k in s.coord.loading ensures CallsOn(s.calls, k) != {} {
      assert LoadCount(s.coord, k) > 0;
    }
    if s.calls == map[] {
      assert forall k :: CallsOn(s.calls, k) == {};
      assert s.coord.loading == map[] && s.coord.inFlight == map[];
    }
  }

  // ---------------------------------------------------------------- no version below `w` any more

  /** Nothing older than `w` is stored for `k`, queued for `k`, or about to be queued for `k`. */
  ghost predicate Fresh(s: State, k: Key, w: nat) {
    && w <= Version(s, k)
    && (k in s.store ==> w <= s.store[k])
    && (forall i | 0 <= i < |s.queue| && s.queue[i].OpSet? && s.queue[i].key == k :: w <= s.queue[i].version)
    && (forall c | c in s.calls && s.calls[c].key == k && s.calls[c].phase.SourceRead? && k !in s.coord.marks ::
          w <= s.calls[c].phase.version)
  }

  lemma CloseKeepsFresh(s: State, t: State, c: CallId, k: Key, w: nat)
    requires Inv(s) && Fresh(s, k, w) && c in s.calls && t.calls == s.calls - {c}
    requires t.coord.loading == EndLoad(s.coord, s.calls[c].key).loading
    requires t.coord.marks == EndLoad(s.coord, s.calls[c].key).marks
    requires t.nextCall == s.nextCall && t.store == s.store && t.source == s.source
    requires t.queue == s.queue || t.queue == s.queue + [OpDrop(s.calls[c].key)]
    ensures Fresh(t, k, w)
  {
    CloseCounts(s, t, c);
    forall d | d in t.calls && t.calls[d].key == k && t.calls[d].phase.SourceRead? && k !in t.coord.marks
      ensures w <= t.calls[d].phase.version
    {
      assert d in CallsOn(t.calls, k);
    }
  }

  lemma ResumeKeepsFresh(s: State, c: CallId, decodes: bool, k: Key, w: nat)
    requires Inv(s) && Fresh(s, k, w) && c in s.calls && s.calls[c].phase.GotGet?
    ensures Fresh(AfterGet(s, c, decodes), k, w)
  {
    var q := s.calls[c].key;
    if (s.calls[c].phase.hit && decodes) || q in s.coord.inFlight {
      CloseKeepsFresh(s, AfterGet(s, c, decodes), c, k, w);
    }
  }

  lemma ExecKeepsFresh(s: State, ok: bool, k: Key, w: nat)
    requires Inv(s) && Fresh(s, k, w) && |s.queue| > 0
    ensures Fresh(Exec(s, ok), k, w)
  {
    var t := Exec(s, ok);
    assert forall i :: 0 <= i < |t.queue| ==> t.queue[i] == s.queue[i + 1];
  }

  lemma OtherStepKeepsFresh(s: State, e: Event, k: Key, w: nat)
    requires Enabled(s, e) && Fresh(s, k, w) && !e.ExecHead? && !e.Resume? && !e.Finish?
    requires s.coord.marks <= s.coord.loading.Keys
    ensures Fresh(Apply(s, e), k, w)
  {
  }

  lemma StepKeepsFresh(s: State, e: Event, k: Key, w: nat)
    requires Inv(s) && Enabled(s, e) && Fresh(s, k, w)
    ensures Fresh(Apply(s, e), k, w)
  {
    if e.ExecHead? {
      ExecKeepsFresh(s, e.ok, k, w);
    } else if e.Resume? {
      ResumeKeepsFresh(s, e.call, e.decodes, k, w);
    } else if e.Finish? {
      CloseKeepsFresh(s, Apply(s, e), e.call, k, w);
    } else {
      OtherStepKeepsFresh(s, e, k, w);
    }
  }

  lemma {:induction false} RunKeepsFresh(s: State, es: seq<Event>, k: Key, w: nat)
    requires Inv(s) && AllEnabled(s, es) && Fresh(s, k, w)
    ensures Fresh(Run(s, es), k, w)
    decreases |es|
  {
    if es != [] {
      StepKeepsInv(s, es[0]);
      StepKeepsFresh(s, es[0], k, w);
      RunKeepsFresh(Apply(s, es[0]), es[1..], k, w);
    }
  }

  /** A delete that takes effect leaves nothing older than its issue behind it. */
  lemma DeleteEstablishesFresh(s: State, k: Key)
    requires Inv(s) && |s.queue| > 0 && s.queue[0].OpDelete? && k in s.queue[0].floor
    ensures Fresh(Exec(s, true), k, s.queue[0].floor[k])
  {
    var t := Exec(s, true);
    assert NotAhead(s.source, s.queue[0]);
    forall i | 0 <= i < |t.queue| && t.queue[i].OpSet? && t.queue[i].key == k
      ensures s.queue[0].floor[k] <= t.queue[i].version
    {
      assert t.queue[i] == s.queue[i + 1] && InOrder(s.queue[0], s.queue[i + 1]);
    }
  }

  // ---------------------------------------------------------------- following one delete through a run

  ghost predicate Tracked(s: State, ticket: Ticket, floor: map<Key, nat>) {
    && ticket < s.nextTicket
    && forall i | 0 <= i < |s.queue| && s.queue[i].OpDelete? && s.queue[i].ticket == ticket :: s.queue[i].floor == floor
  }

  /** Each step takes at most one command off the queue or adds one; a delete carries a new ticket. */
  lemma QueueMoves(s: State, e: Event)
    requires Enabled(s, e)
    ensures var t := Apply(s, e);
            && s.nextTicket <= t.nextTicket
            && (|| t.queue == s.queue
                || (|s.queue| > 0 && t.queue == s.queue[1..])
                || exists op ::
                     && t.queue == s.queue + [op]
                     && (op.OpDelete? ==> op.ticket == s.nextTicket && s.nextTicket < t.nextTicket))
  {
  }

  lemma StepKeepsTracked(s: State, e: Event, ticket: Ticket, floor: map<Key, nat>)
    requires Enabled(s, e) && Tracked(s, ticket, floor)
    ensures Tracked(Apply(s, e), ticket, floor)
  {
    QueueMoves(s, e);
  }

  lemma {:induction false} RunKeepsTracked(s: State, es: seq<Event>, ticket: Ticket, floor: map<Key, nat>)
    requires AllEnabled(s, es) && Tracked(s, ticket, floor)
    ensures Tracked(Run(s, es), ticket, floor)
    decreases |es|
  {
    if es != [] {
      StepKeepsTracked(s, es[0], ticket, floor);
      RunKeepsTracked(Apply(s, es[0]), es[1..], ticket, floor);
    }
  }

  lemma ExecutedDeleteIsFinal(s: State, k: Key, after: seq<Event>)
    requires Inv(s) && |s.queue| > 0 && s.queue[0].OpDelete? && k in s.queue[0].floor
    requires AllEnabled(Apply(s, ExecHead(true)), after)
    ensures
      var end := Run(Apply(s, ExecHead(true)), after);
      k in end.store ==> s.queue[0].floor[k] <= end.store[k]
  {
    DeleteEstablishesFresh(s, k);
    StepKeepsInv(s, ExecHead(true));
    RunKeepsFresh(Apply(s, ExecHead(true)), after, k, s.queue[0].floor[k]);
  }

  lemma SentDeleteKeepsItsStamp(issued: State, keys: set<Key>, between: seq<Event>)
    requires Inv(issued) && AllEnabled(Apply(issued, Delete(keys)), between)
    ensures Inv(Run(Apply(issued, Delete(keys)), between))
    ensures Tracked(Run(Apply(issued, Delete(keys)), between), issued.nextTicket, Stamps(issued, keys))
  {
    StepKeepsInv(issued, Delete(keys));
    RunKeepsInv(Apply(issued, Delete(keys)), between);
    RunKeepsTracked(Apply(issued, Delete(keys)), between, issued.nextTicket, Stamps(issued, keys));
  }

  /**
   Invalidation is final. A delete of `keys` is issued in any reachable state; whatever then
   interleaves, once the store has executed it, no later state holds for any of the keys a value
   loaded from a source version older than the one at the moment of the call.
  */
  lemma DeleteIsFinal(init: State, before: seq<Event>, keys: set<Key>, between: seq<Event>, after: seq<Event>)
    requires Init(init) && AllEnabled(init, before)
    requires AllEnabled(Apply(Run(init, before), Delete(keys)), between)
    requires
      var issued := Run(init, before);
      var s := Run(Apply(issued, Delete(keys)), between);
      && |s.queue| > 0 && s.queue[0].OpDelete? && s.queue[0].ticket == issued.nextTicket
      && AllEnabled(Apply(s, ExecHead(true)), after)
    ensures
      var issued := Run(init, before);
      var s := Run(Apply(issued, Delete(keys)), between);
      var end := Run(Apply(s, ExecHead(true)), after);
      forall k :: k in keys && k in end.store ==> Version(issued, k) <= end.store[k]
  {
    var issued := Run(init, before);
    InitInv(init);
    RunKeepsInv(init, before);
    SentDeleteKeepsItsStamp(issued, keys, between);
    var s := Run(Apply(issued, Delete(keys)), between);
    forall k | k in keys
      ensures k in Run(Apply(s, ExecHead(true)), after).store ==>
                Version(issued, k) <= Run(Apply(s, ExecHead(true)), after).store[k]
    {
      assert s.queue[0].floor == Stamps(issued, keys);
      ExecutedDeleteIsFinal(s, k, after);
    }
  }

  // ---------------------------------------------------------------- the store never goes back

  /** Nothing older than `v` is queued for `k` or being loaded for `k`. */
  ghost predicate Above(s: State, k: Key, v: nat) {
    && v <= Version(s, k)
    && (k in s.store ==> v <= s.store[k])
    && (forall i | 0 <= i < |s.queue| && s.queue[i].OpSet? && s.queue[i].key == k :: v <= s.queue[i].version)
    && (forall c | c in s.calls && s.calls[c].key == k && s.calls[c].phase.SourceRead? :: v <= s.calls[c].phase.version)
  }

  lemma ExecKeepsAbove(s: State, ok: bool, k: Key, v: nat)
    requires |s.queue| > 0 && Above(s, k, v)
    ensures Above(Exec(s, ok), k, v)
  {
    var t := Exec(s, ok);
    assert forall i :: 0 <= i < |t.queue| ==> t.queue[i] == s.queue[i + 1];
  }

  lemma LoadStepKeepsAbove(s: State, e: Event, k: Key, v: nat)
    requires Enabled(s, e) && (e.Resume? || e.LoaderReturns? || e.Finish?) && Above(s, k, v)
    ensures Above(Apply(s, e), k, v)
  {
  }

  lemma StepKeepsAbove(s: State, e: Event, k: Key, v: nat)
    requires Enabled(s, e) && Above(s, k, v)
    ensures Above(Apply(s, e), k, v)
  {
    if e.ExecHead? {
      ExecKeepsAbove(s, e.ok, k, v);
    } else if e.Resume? || e.LoaderReturns? || e.Finish? {
      LoadStepKeepsAbove(s, e, k, v);
    }
  }

  lemma {:induction false} RunKeepsAbove(s: State, es: seq<Event>, k: Key, v: nat)
    requires AllEnabled(s, es) && Above(s, k, v)
    ensures Above(Run(s, es), k, v)
    decreases |es|
  {
    if es != [] {
      StepKeepsAbove(s, es[0], k, v);
      RunKeepsAbove(Apply(s, es[0]), es[1..], k, v);
    }
  }

  /** Once a load wrote version `v` of `k`, every later entry and every later write of `k` is at least `v`. */
  lemma StoreNeverGoesBack(init: State, before: seq<Event>, after: seq<Event>)
    requires Init(init) && AllEnabled(init, before)
    requires
      var s := Run(init, before);
      |s.queue| > 0 && s.queue[0].OpSet? && AllEnabled(Apply(s, ExecHead(true)), after)
    ensures
      var s := Run(init, before);
      var end := Run(Apply(s, ExecHead(true)), after);
      && (s.queue[0].key in end.store ==> s.queue[0].version <= end.store[s.queue[0].key])
      && (|end.queue| > 0 && end.queue[0].OpSet? && end.queue[0].key == s.queue[0].key ==>
            s.queue[0].version <= end.queue[0].version)
  {
    InitInv(init);
    RunKeepsInv(init, before);
    var s := Run(init, before);
    WriteEstablishesAbove(s);
    RunKeepsAbove(Apply(s, ExecHead(true)), after, s.queue[0].key, s.queue[0].version);
  }

  /** A write that takes effect has only newer versions of its key behind it. */
  lemma WriteEstablishesAbove(s: State)
    requires Inv(s) && |s.queue| > 0 && s.queue[0].OpSet?
    ensures Above(Exec(s, true), s.queue[0].key, s.queue[0].version)
  {
    var t := Exec(s, true);
    var k, v := s.queue[0].key, s.queue[0].version;
    assert NotAhead(s.source, s.queue[0]);
    forall i | 0 <= i < |t.queue| && t.queue[i].OpSet? && t.queue[i].key == k ensures v <= t.queue[i].version {
      assert t.queue[i] == s.queue[i + 1] && InOrder(s.queue[0], s.queue[i + 1]);
    }
    forall c | c in t.calls && t.calls[c].key == k && t.calls[c].phase.SourceRead? ensures v <= t.calls[c].phase.version {
      assert Newest(s, k, s.calls[c].phase.version);
    }
  }

  // ---------------------------------------------------------------- when a loaded value is written

  lemma {:induction false} RunExtends(s: State, es: seq<Event>, e: Event)
    requires AllEnabled(s, es) && Enabled(Run(s, es), e)
    ensures AllEnabled(s, es + [e]) && Run(s, es + [e]) == Apply(Run(s, es), e)
    decreases |es|
  {
    if es == [] {
      assert [] + [e] == [e];
      assert [e][1..] == [];
    } else {
      RunExtends(Apply(s, es[0]), es[1..], e);
      assert (es + [e])[1..] == es[1..] + [e];
    }
  }

  lemma {:induction false} RunConcat(s: State, a: seq<Event>, b: seq<Event>)
    requires AllEnabled(s, a)
    ensures AllEnabled(s, a + b) <==> AllEnabled(Run(s, a), b)
    ensures AllEnabled(s, a + b) ==> Run(s, a + b) == Run(Run(s, a), b)
    decreases |a|
  {
    if a == [] {
      assert a + b == b;
    } else {
      assert (a + b)[1..] == a[1..] + b;
      RunConcat(Apply(s, a[0]), a[1..], b);
    }
  }

  lemma PrefixEnabled(s: State, es: seq<Event>, n: nat)
    requires AllEnabled(s, es) && n <= |es|
    ensures AllEnabled(s, es[..n])
    ensures n < |es| ==> Enabled(Run(s, es[..n]), es[n]) && AllEnabled(s, es[..n + 1])
                         && Run(s, es[..n + 1]) == Apply(Run(s, es[..n]), es[n])
    decreases |es|
  {
    if n > 0 {
      PrefixEnabled(Apply(s, es[0]), es[1..], n - 1);
      assert es[..n][1..] == es[1..][..n - 1];
    }
    if n < |es| {
      assert es[..n + 1] == es[..n] + [es[n]];
      RunExtends(s, es[..n], es[n]);
    }
  }

  /** Every event but a delete only opens or closes calls, which keeps the marks of the keys still open. */
  lemma OtherMarks(s: State, e: Event, k: Key)
    requires CountInv(s) && Enabled(s, e) && !e.Delete?
    ensures k in Apply(s, e).coord.marks <==> k in Apply(s, e).coord.loading && k in s.coord.marks
  {
    if !e.ExecHead? && !e.Resume? && !e.Finish? && !e.Begin? && !e.LoaderReturns? {
      assert Apply(s, e).coord == s.coord;
    }
  }

  /** A mark is set by a delete of an open key, and is gone once no call on the key is open. */
  lemma StepMarks(s: State, e: Event, k: Key)
    requires CountInv(s) && Enabled(s, e)
    ensures k in Apply(s, e).coord.marks <==>
            k in Apply(s, e).coord.loading && (k in s.coord.marks || (e.Delete? && k in e.keys && k in s.coord.loading))
  {
    if !e.Delete? {
      OtherMarks(s, e, k);
    }
  }

  ghost predicate OpenAt(init: State, es: seq<Event>, k: Key, n: nat)
    requires AllEnabled(init, es) && n <= |es|
  {
    PrefixEnabled(init, es, n);
    k in Run(init, es[..n]).coord.loading
  }

  /** The `i`-th event deletes `k`, and up to event `n` there has always been an open call on `k` since. */
  ghost predicate InvalidatedSince(init: State, es: seq<Event>, k: Key, i: nat, n: nat)
    requires AllEnabled(init, es) && n <= |es|
  {
    i < n && es[i].Delete? && k in es[i].keys && forall j: nat | i <= j <= n :: OpenAt(init, es, k, j)
  }

  ghost predicate IsInvalidated(init: State, es: seq<Event>, k: Key, n: nat)
    requires AllEnabled(init, es) && n <= |es|
  {
    exists i: nat :: InvalidatedSince(init, es, k, i, n)
  }

  lemma {:induction false} MarkedIff(init: State, es: seq<Event>, k: Key, n: nat)
    requires Init(init) && AllEnabled(init, es) && n <= |es|
    ensures AllEnabled(init, es[..n])
    ensures k in Run(init, es[..n]).coord.marks <==> IsInvalidated(init, es, k, n)
  {
    PrefixEnabled(init, es, n);
    if n > 0 {
      MarkedIff(init, es, k, n - 1);
      PrefixEnabled(init, es, n - 1);
      InitInv(init);
      RunKeepsInv(init, es[..n - 1]);
      StepMarks(Run(init, es[..n - 1]), es[n - 1], k);
      LongerInvalidation(init, es, k, n);
    }
  }

  lemma LongerInvalidation(init: State, es: seq<Event>, k: Key, n: nat)
    requires AllEnabled(init, es) && 0 < n <= |es|
    ensures IsInvalidated(init, es, k, n) <==>
            OpenAt(init, es, k, n)
            && (IsInvalidated(init, es, k, n - 1)
                || (es[n - 1].Delete? && k in es[n - 1].keys && OpenAt(init, es, k, n - 1)))
  {
    var m := n - 1;
    if i: nat :| InvalidatedSince(init, es, k, i, n) {
      assert i < m ==> InvalidatedSince(init, es, k, i, m);
      assert OpenAt(init, es, k, n) && OpenAt(init, es, k, i);
    }
    if OpenAt(init, es, k, n) {
      if i: nat :| InvalidatedSince(init, es, k, i, m) {
        assert InvalidatedSince(init, es, k, i, n);
      }
      if es[m].Delete? && k in es[m].keys && OpenAt(init, es, k, m) {
        assert InvalidatedSince(init, es, k, m, n);
      }
    }
  }

  /**
   A cacheable value is written if and only if its key was not invalidated: no delete of the key was issued
   with calls on the key open from then until the loader returned.
  */
  lemma WrittenUnlessInvalidated(init: State, es: seq<Event>, c: CallId)
    requires Init(init) && AllEnabled(init, es) && Enabled(Run(init, es), LoaderReturns(c, true))
    ensures var s := Run(init, es);
            var k := s.calls[c].key;
            var queue := Apply(s, LoaderReturns(c, true)).queue;
            && (!IsInvalidated(init, es, k, |es|) ==> queue == s.queue + [OpSet(c, k, s.calls[c].phase.version)])
            && (IsInvalidated(init, es, k, |es|) ==> queue == s.queue)
  {
    var s := Run(init, es);
    var k := s.calls[c].key;
    MarkedIff(init, es, k, |es|);
    assert es[..|es|] == es;
  }

  // ---------------------------------------------------------------- what is not promised

  const IDLE := State(EMPTY_COORD, map[], map[], [], map[], 0, 0)

  ghost predicate Reached(es: seq<Event>, s: State) {
    AllEnabled(IDLE, es) && Run(IDLE, es) == s
  }

  lemma Next(es: seq<Event>, s: State, e: Event) returns (longer: seq<Event>, t: State)
    requires Reached(es, s) && Enabled(s, e)
    ensures longer == es + [e] && t == Apply(s, e) && Reached(longer, t)
  {
    RunExtends(IDLE, es, e);
    longer, t := es + [e], Apply(s, e);
  }

  /** A load of `k` that has read version 0. */
  function OlderLoad(k: Key): State {
    State(Coord(map[k := 0], map[k := 1], {}), map[0 := Call(k, SourceRead(0))], map[], [], map[], 1, 0)
  }

  lemma OlderLoadIsReached(k: Key) returns (es: seq<Event>)
    ensures Reached(es, OlderLoad(k))
  {
    var s;
    es, s := Next([], IDLE, Begin(k));
    es, s := Next(es, s, ExecHead(true));
    assert s.calls == map[0 := Call(k, GotGet(false))] && s.queue == [];
    es, s := Next(es, s, Resume(0, true));
    assert s.coord == Coord(map[k := 0], map[k := 1], {});
    es, s := Next(es, s, ReadSource(0));
    assert s == OlderLoad(k);
  }

  /** The same load after a write and an executed delete of `k`. */
  function OutdatedLoad(k: Key): State {
    State(Coord(map[k := 0], map[k := 1], {k}), map[0 := Call(k, SourceRead(0))], map[], [], map[k := 1], 1, 1)
  }

  lemma OutdatedLoadIsReached(k: Key) returns (es: seq<Event>)
    ensures Reached(es, OutdatedLoad(k))
  {
    es := OlderLoadIsReached(k);
    var s;
    es, s := Next(es, OlderLoad(k), Write({k}));
    assert s.source == map[k := 1];
    es, s := Next(es, s, Delete({k}));
    assert s.coord.marks == {k};
    es, s := Next(es, s, ExecHead(true));
    assert s == OutdatedLoad(k);
  }

  /**
   The guarantee is about the store, not about every reader: a call begun after a delete has taken effect
   can still find an older load in flight, join it, and so return a value older than the delete.
  */
  lemma LateReaderMayJoinOlderLoad(k: Key) returns (es: seq<Event>, s: State)
    ensures Reached(es, s) && Version(s, k) == 1
    ensures s.calls == map[0 := Call(k, SourceRead(0)), 1 := Call(k, GotGet(false))] && s.coord.inFlight == map[k := 0]
    ensures forall decodes :: Enabled(s, Resume(1, decodes)) && AfterGet(s, 1, decodes).calls == map[0 := Call(k, SourceRead(0))]
  {
    es := OutdatedLoadIsReached(k);
    es, s := Next(es, OutdatedLoad(k), Begin(k));
    assert s.queue == [OpGet(1)];
    es, s := Next(es, s, ExecHead(true));
    assert s.calls == map[0 := Call(k, SourceRead(0)), 1 := Call(k, GotGet(false))];
  }
}
