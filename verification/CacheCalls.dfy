/** What becomes of a single call of `getOrSet`, and what each store command does, step by step and over runs. */
module CacheCalls {
  import opened CacheCoordination
  import opened CacheProtocol
  import opened CacheSafety

  // ---------------------------------------------------------------- after the read

  /** The call is over; the loads in flight, and all other calls, are as before. */
  ghost predicate OnlyCloses(s: State, t: State, c: CallId)
    requires c in s.calls
  {
    && t.calls == s.calls - {c} && t.coord.inFlight == s.coord.inFlight
    && (forall k :: LoadCount(t.coord, k) == LoadCount(s.coord, k) - if k == s.calls[c].key then 1 else 0)
    && t.store == s.store && t.source == s.source && t.nextCall == s.nextCall && t.nextTicket == s.nextTicket
  }

  /** The call is now the leader for its key, with the loader yet to read the source. */
  ghost predicate OnlyLeads(s: State, t: State, c: CallId)
    requires c in s.calls
  {
    && t.calls == s.calls[c := Call(s.calls[c].key, Loading)] && t.coord == s.coord.(inFlight := s.coord.inFlight[s.calls[c].key := c])
    && t.store == s.store && t.source == s.source && t.nextCall == s.nextCall && t.nextTicket == s.nextTicket
  }

  /**
   A call that found a decodable entry ends with it and issues no command. A call that found an undecodable
   one has it removed, and then, like one that found none, joins the load in flight or leads a new one.
  */
  lemma AfterTheRead(s: State, c: CallId, decodes: bool)
    requires Inv(s) && c in s.calls && s.calls[c].phase.GotGet?
    ensures
      var t, k, found := Apply(s, Resume(c, decodes)), s.calls[c].key, s.calls[c].phase.hit;
      && (found && decodes ==> OnlyCloses(s, t, c) && t.queue == s.queue)
      && (!(found && decodes) ==>
            && t.queue == (if found then s.queue + [OpDrop(k)] else s.queue)
            && (if k in s.coord.inFlight then OnlyCloses(s, t, c) else OnlyLeads(s, t, c)))
  {
    assert c in CallsOn(s.calls, s.calls[c].key);
    assert LoadCount(s.coord, s.calls[c].key) > 0;
  }

  /** The store's answer says whether the key is there; a failed or lost one counts as a miss. */
  lemma ReadIsAnswered(s: State, c: CallId, ok: bool)
    requires c in s.calls && s.calls[c].phase == AwaitGet
    ensures |s.queue| > 0 && s.queue[0] == OpGet(c) ==>
              Apply(s, ExecHead(ok)) ==
              s.(queue := s.queue[1..], calls := s.calls[c := Call(s.calls[c].key, GotGet(ok && s.calls[c].key in s.store))])
    ensures Apply(s, LoseReply(c)) == s.(calls := s.calls[c := Call(s.calls[c].key, GotGet(false))])
  {
  }

  // ---------------------------------------------------------------- calls over runs

  predicate IsReading(p: Phase) {
    p.AwaitGet? || p.GotGet?
  }

  /** Whoever is still at its read after a step was so before, or has just begun. */
  lemma StepBackwards(s: State, e: Event, c: CallId)
    requires Enabled(s, e) && c in s.calls && c < s.nextCall
    requires c in Apply(s, e).calls && IsReading(Apply(s, e).calls[c].phase)
    ensures IsReading(s.calls[c].phase)
  {
  }

  /** Ids of calls are not used again. */
  lemma StepForwards(s: State, e: Event, c: CallId)
    requires Enabled(s, e) && c < s.nextCall
    ensures c < Apply(s, e).nextCall
    ensures c !in s.calls ==> c !in Apply(s, e).calls
  {
  }

  lemma {:induction false} StaysClosed(s: State, es: seq<Event>, c: CallId)
    requires AllEnabled(s, es) && c < s.nextCall && c !in s.calls
    ensures c !in Run(s, es).calls
    decreases |es|
  {
    if es != [] {
      StepForwards(s, es[0], c);
      StaysClosed(Apply(s, es[0]), es[1..], c);
    }
  }

  lemma {:induction false} WasReading(s: State, es: seq<Event>, c: CallId)
    requires AllEnabled(s, es) && c in s.calls && c < s.nextCall
    requires c in Run(s, es).calls && IsReading(Run(s, es).calls[c].phase)
    ensures IsReading(s.calls[c].phase)
    decreases |es|
  {
    if es != [] {
      var t := Apply(s, es[0]);
      StepForwards(s, es[0], c);
      if c in t.calls {
        WasReading(t, es[1..], c);
        StepBackwards(s, es[0], c);
      } else {
        StaysClosed(t, es[1..], c);
      }
    }
  }

  lemma PrefixSplits(s: State, es: seq<Event>, m: nat, n: nat)
    requires AllEnabled(s, es) && m <= n <= |es|
    ensures AllEnabled(s, es[..m]) && AllEnabled(Run(s, es[..m]), es[m..n]) && AllEnabled(s, es[..n])
    ensures Run(s, es[..n]) == Run(Run(s, es[..m]), es[m..n])
  {
    PrefixEnabled(s, es, m);
    PrefixEnabled(s, es, n);
    assert es[..n] == es[..m] + es[m..n];
    RunConcat(s, es[..m], es[m..n]);
  }

  /**
   A call whose read found a decodable entry never leads and never runs the loader: before its next step it is
   at its read, and from then on it is closed.
  */
  lemma HitIsServed(init: State, es: seq<Event>, n: nat, m: nat, c: CallId)
    requires Init(init) && AllEnabled(init, es) && n < |es| && es[n] == Resume(c, true) && m <= |es|
    requires AllEnabled(init, es[..n]) && c in Run(init, es[..n]).calls && Run(init, es[..n]).calls[c].phase == GotGet(true)
    ensures AllEnabled(init, es[..m])
    ensures
      var s := Run(init, es[..m]);
      && (m <= n && c in s.calls ==> s.calls[c].phase.AwaitGet? || s.calls[c].phase.GotGet?)
      && (m > n ==> c !in s.calls)
      && (forall k | k in s.coord.inFlight :: s.coord.inFlight[k] != c)
  {
    PrefixInv(init, es, m);
    PrefixInv(init, es, n);
    if m > n {
      ClosedAfter(init, es, n, m, c);
    } else if c in Run(init, es[..m]).calls {
      PrefixSplits(init, es, m, n);
      WasReading(Run(init, es[..m]), es[m..n], c);
    }
  }

  lemma PrefixInv(init: State, es: seq<Event>, n: nat)
    requires Init(init) && AllEnabled(init, es) && n <= |es|
    ensures AllEnabled(init, es[..n]) && Inv(Run(init, es[..n]))
  {
    PrefixEnabled(init, es, n);
    InitInv(init);
    RunKeepsInv(init, es[..n]);
  }

  lemma ClosedAfter(init: State, es: seq<Event>, n: nat, m: nat, c: CallId)
    requires Init(init) && AllEnabled(init, es) && n < m <= |es| && es[n] == Resume(c, true)
    requires AllEnabled(init, es[..n]) && c in Run(init, es[..n]).calls && Run(init, es[..n]).calls[c].phase == GotGet(true)
    ensures AllEnabled(init, es[..m]) && c !in Run(init, es[..m]).calls
  {
    PrefixInv(init, es, n);
    PrefixEnabled(init, es, n);
    AfterTheRead(Run(init, es[..n]), c, true);
    PrefixSplits(init, es, n + 1, m);
    StaysClosed(Run(init, es[..n + 1]), es[n + 1..m], c);
  }

  // ---------------------------------------------------------------- the loader's result

  /** What was read is queued for the store, unless it is not to be cached or the key was invalidated meanwhile. */
  lemma AfterTheLoader(s: State, c: CallId, cacheable: bool)
    requires c in s.calls && s.calls[c].phase.SourceRead?
    ensures
      var t, k, v := Apply(s, LoaderReturns(c, cacheable)), s.calls[c].key, s.calls[c].phase.version;
      var queued := cacheable && k !in s.coord.marks;
      t == s.(queue := if queued then s.queue + [OpSet(c, k, v)] else s.queue,
              calls := s.calls[c := Call(k, if queued then AwaitSet else Settled)])
  {
  }

  /** The loader reads what the source then holds; a load that throws or has lost its write's reply is settled; then it ends. */
  lemma LeaderSteps(s: State, c: CallId)
    requires Inv(s) && c in s.calls
    ensures
      var k, p := s.calls[c].key, s.calls[c].phase;
      && (p == Loading ==>
            Apply(s, ReadSource(c)) ==
            s.(calls := s.calls[c := Call(k, SourceRead(if k in s.source then s.source[k] else 0))]))
      && (p == Loading || p.SourceRead? ==> Apply(s, LoaderThrows(c)) == s.(calls := s.calls[c := Call(k, Settled)]))
      && (p == AwaitSet ==> Apply(s, LoseReply(c)) == s.(calls := s.calls[c := Call(k, Settled)]))
      && (p == Settled ==>
            var t := Apply(s, Finish(c));
            && t == s.(calls := s.calls - {c}, coord := t.coord) && t.coord.inFlight == s.coord.inFlight - {k}
            && forall q :: LoadCount(t.coord, q) == LoadCount(s.coord, q) - if q == k then 1 else 0)
  {
    assert c in CallsOn(s.calls, s.calls[c].key);
    assert LoadCount(s.coord, s.calls[c].key) > 0;
  }

  // ---------------------------------------------------------------- other steps

  /** A call begins by counting itself and issuing its read. */
  lemma CallBegins(s: State, k: Key)
    ensures
      var t := Apply(s, Begin(k));
      && t == s.(coord := t.coord, calls := s.calls[s.nextCall := Call(k, AwaitGet)],
                 queue := s.queue + [OpGet(s.nextCall)], nextCall := s.nextCall + 1)
      && t.coord == s.coord.(loading := t.coord.loading)
      && forall q :: LoadCount(t.coord, q) == LoadCount(s.coord, q) + if q == k then 1 else 0
  {
  }

  /** A writer of the source raises the version of each of its keys; any entry may expire at any time. */
  lemma OutsideSteps(s: State, keys: set<Key>, k: Key)
    ensures
      var t := Apply(s, Write(keys));
      && t == s.(source := t.source)
      && forall q :: (if q in t.source then t.source[q] else 0) ==
                     (if q in s.source then s.source[q] else 0) + if q in keys then 1 else 0
    ensures Enabled(s, Expire(k)) && Apply(s, Expire(k)) == s.(store := s.store - {k})
  {
  }

  /** A delete marks the keys being loaded, and issues one command for all its keys with what the source then holds. */
  lemma DeleteIssues(s: State, keys: set<Key>)
    ensures
      var t := Apply(s, Delete(keys));
      && t == s.(coord := t.coord, queue := t.queue, nextTicket := s.nextTicket + 1)
      && t.coord == s.coord.(marks := t.coord.marks)
      && (forall k :: k in t.coord.marks <==> k in s.coord.marks || (k in keys && k in s.coord.loading))
      && |t.queue| == |s.queue| + 1 && t.queue[..|s.queue|] == s.queue
      && t.queue[|s.queue|] == OpDelete(s.nextTicket, map k | k in keys :: if k in s.source then s.source[k] else 0)
  {
  }

  /** A write or delete that takes effect changes just its keys; one that fails, nothing; the waiting writer is settled. */
  lemma CommandDoes(s: State, ok: bool)
    requires |s.queue| > 0
    ensures
      var t := Apply(s, ExecHead(ok));
      && t == s.(queue := s.queue[1..], store := t.store, calls := t.calls)
      && match s.queue[0]
         case OpGet(_) => t.store == s.store
         case OpSet(c, k, v) =>
           && t.store == (if ok then s.store[k := v] else s.store)
           && t.calls == if c in s.calls && s.calls[c].phase == AwaitSet then s.calls[c := Call(s.calls[c].key, Settled)] else s.calls
         case OpDelete(_, floor) =>
           && t.calls == s.calls && (!ok ==> t.store == s.store)
           && (ok ==> forall k :: k in t.store <==> k in s.store && k !in floor)
           && forall k | k in t.store :: k in s.store && t.store[k] == s.store[k]
         case OpDrop(k) => t.calls == s.calls && t.store == if ok then s.store - {k} else s.store
  {
  }
}
