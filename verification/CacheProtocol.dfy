/**
 `getOrSet` and `delete` as a step protocol. Any number of calls interleave with writers of the
 source. Store commands sit in one FIFO queue; a reply may be lost (the caller then sees a failure)
 while the command stays queued, a command may fail, and an entry may expire at any time.

 A cached value is represented by the version of the source it was loaded from.
*/
module CacheProtocol {
  import opened CacheCoordination

  type Ticket = nat

  /** Where a call stands between two awaits. A call that joined another load is closed already. */
  datatype Phase =
    | AwaitGet                    // store.get is issued
    | GotGet(hit: bool)           // its reply (or failure) arrived
    | Loading                     // leader: the loader runs, the source is not read yet
    | SourceRead(version: nat)    // leader: the source was read
    | AwaitSet                    // leader: store.set is issued
    | Settled                     // leader: the promise is resolved or rejected
  {
    predicate Leading() {
      Loading? || SourceRead? || AwaitSet? || Settled?
    }
  }

  datatype Call = Call(key: Key, phase: Phase)

  datatype StoreOp =
    | OpGet(call: CallId)
    | OpSet(writer: CallId, key: Key, version: nat)
    | OpDelete(ticket: Ticket, floor: map<Key, nat>)   // floor: source versions when issued
    | OpDrop(corrupt: Key)                             // best-effort removal of an undecodable entry

  datatype State = State(
    coord: Coord,
    calls: map<CallId, Call>,
    store: map<Key, nat>,
    queue: seq<StoreOp>,
    source: map<Key, nat>,
    nextCall: CallId,
    nextTicket: Ticket)

  datatype Event =
    | Begin(key: Key)
    | ExecHead(ok: bool)
    | LoseReply(call: CallId)
    | Resume(call: CallId, decodes: bool)
    | ReadSource(call: CallId)
    | LoaderThrows(call: CallId)
    | LoaderReturns(call: CallId, cacheable: bool)
    | Finish(call: CallId)
    | Write(keys: set<Key>)
    | Delete(keys: set<Key>)
    | Expire(key: Key)

  function VersionIn(source: map<Key, nat>, k: Key): nat {
    if k in source then source[k] else 0
  }

  function Version(s: State, k: Key): nat {
    VersionIn(s.source, k)
  }

  predicate InPhase(s: State, c: CallId, p: Phase) {
    c in s.calls && s.calls[c].phase == p
  }

  predicate Enabled(s: State, e: Event) {
    match e
    case Begin(_) => true
    case ExecHead(_) => |s.queue| > 0
    case LoseReply(c) => InPhase(s, c, AwaitGet) || InPhase(s, c, AwaitSet)
    case Resume(c, _) => c in s.calls && s.calls[c].phase.GotGet?
    case ReadSource(c) => InPhase(s, c, Loading)
    case LoaderThrows(c) => c in s.calls && (s.calls[c].phase.Loading? || s.calls[c].phase.SourceRead?)
    case LoaderReturns(c, _) => c in s.calls && s.calls[c].phase.SourceRead?
    case Finish(c) => InPhase(s, c, Settled)
    case Write(_) => true
    case Delete(_) => true
    case Expire(_) => true
  }

  function SetPhase(s: State, c: CallId, p: Phase): State
    requires c in s.calls
  {
    s.(calls := s.calls[c := s.calls[c].(phase := p)])
  }

  /** The store executes the oldest command and its issuer, if it still waits, is answered. */
  function Exec(s: State, ok: bool): State
    requires |s.queue| > 0
  {
    var t := s.(queue := s.queue[1..]);
    match s.queue[0]
    case OpGet(c) =>
      if InPhase(s, c, AwaitGet) then SetPhase(t, c, GotGet(ok && s.calls[c].key in s.store)) else t
    case OpSet(c, k, v) =>
      var u := if ok then t.(store := t.store[k := v]) else t;
      if InPhase(s, c, AwaitSet) then SetPhase(u, c, Settled) else u
    case OpDelete(_, floor) =>
      if ok then t.(store := t.store - floor.Keys) else t
    case OpDrop(k) =>
      if ok then t.(store := t.store - {k}) else t
  }

  /** After the read: return the hit, or join the load in flight, or lead a new one. */
  function AfterGet(s: State, c: CallId, decodes: bool): State
    requires c in s.calls && s.calls[c].phase.GotGet?
  {
    var k := s.calls[c].key;
    var hit := s.calls[c].phase.hit;
    if hit && decodes then
      s.(coord := EndLoad(s.coord, k), calls := s.calls - {c})
    else
      var t := if hit then s.(queue := s.queue + [OpDrop(k)]) else s;
      if k in t.coord.inFlight
      then t.(coord := EndLoad(t.coord, k), calls := t.calls - {c})
      else SetPhase(t, c, Loading).(coord := Install(t.coord, k, c))
  }

  /** After the loader: write the value unless it must not be cached or was invalidated meanwhile. */
  function AfterLoader(s: State, c: CallId, cacheable: bool): State
    requires c in s.calls && s.calls[c].phase.SourceRead?
  {
    var k := s.calls[c].key;
    if cacheable && k !in s.coord.marks
    then SetPhase(s, c, AwaitSet).(queue := s.queue + [OpSet(c, k, s.calls[c].phase.version)])
    else SetPhase(s, c, Settled)
  }

  function Stamps(s: State, keys: set<Key>): map<Key, nat> {
    map k | k in keys :: Version(s, k)
  }

  function Apply(s: State, e: Event): State
    requires Enabled(s, e)
  {
    match e
    case Begin(k) =>
      s.(coord := BeginLoad(s.coord, k),
         calls := s.calls[s.nextCall := Call(k, AwaitGet)],
         queue := s.queue + [OpGet(s.nextCall)],
         nextCall := s.nextCall + 1)
    case ExecHead(ok) => Exec(s, ok)
    case LoseReply(c) => SetPhase(s, c, if s.calls[c].phase.AwaitGet? then GotGet(false) else Settled)
    case Resume(c, decodes) => AfterGet(s, c, decodes)
    case ReadSource(c) => SetPhase(s, c, SourceRead(Version(s, s.calls[c].key)))
    case LoaderThrows(c) => SetPhase(s, c, Settled)
    case LoaderReturns(c, cacheable) => AfterLoader(s, c, cacheable)
    case Finish(c) =>
      var k := s.calls[c].key;
      s.(coord := EndLoad(Uninstall(s.coord, k), k), calls := s.calls - {c})
    case Write(keys) =>
      s.(source := map k | k in s.source.Keys + keys :: if k in keys then Version(s, k) + 1 else Version(s, k))
    case Delete(keys) =>
      s.(coord := MarkInvalidated(s.coord, keys),
         queue := s.queue + [OpDelete(s.nextTicket, Stamps(s, keys))],
         nextTicket := s.nextTicket + 1)
    case Expire(k) => s.(store := s.store - {k})
  }

  predicate AllEnabled(s: State, es: seq<Event>)
    decreases |es|
  {
    es != [] ==> Enabled(s, es[0]) && AllEnabled(Apply(s, es[0]), es[1..])
  }

  function Run(s: State, es: seq<Event>): State
    requires AllEnabled(s, es)
    decreases |es|
  {
    if es == [] then s else Run(Apply(s, es[0]), es[1..])
  }

  /** A process starts with nothing open; the store may hold older values of the source. */
  predicate Init(s: State) {
    && s.coord == EMPTY_COORD && s.calls == map[] && s.queue == []
    && forall k :: k in s.store ==> s.store[k] <= Version(s, k)
  }

  // ---------------------------------------------------------------- the invariant

  function CallsOn(calls: map<CallId, Call>, k: Key): set<CallId> {
    set c | c in calls && calls[c].key == k
  }

  /** The counters count open calls, and marks exist only for keys being loaded. */
  ghost predicate CountInv(s: State) {
    && (forall c :: c in s.calls ==> c < s.nextCall)
    && (forall k :: LoadCount(s.coord, k) == |CallsOn(s.calls, k)|)
    && (forall k :: k in s.coord.loading ==> s.coord.loading[k] > 0)
    && s.coord.marks <= s.coord.loading.Keys
  }

  /** `inFlight` holds exactly the leaders. */
  ghost predicate FlightInv(s: State) {
    && (forall k :: k in s.coord.inFlight ==>
          var c := s.coord.inFlight[k];
          c in s.calls && s.calls[c].key == k && s.calls[c].phase.Leading())
    && (forall c :: c in s.calls && s.calls[c].phase.Leading() ==>
          s.calls[c].key in s.coord.inFlight && s.coord.inFlight[s.calls[c].key] == c)
  }

  /** `v` is at least every version known or queued for `k`. */
  ghost predicate Newest(s: State, k: Key, v: nat) {
    && (k in s.store ==> s.store[k] <= v)
    && (forall i :: 0 <= i < |s.queue| && s.queue[i].OpSet? && s.queue[i].key == k ==> s.queue[i].version <= v)
  }

  ghost predicate AboveQueuedDeletes(q: seq<StoreOp>, k: Key, v: nat) {
    forall i :: 0 <= i < |q| && q[i].OpDelete? && k in q[i].floor ==> q[i].floor[k] <= v
  }

  predicate InOrder(a: StoreOp, b: StoreOp) {
    b.OpSet? ==>
      && (a.OpSet? && a.key == b.key ==> a.version <= b.version)
      && (a.OpDelete? && b.key in a.floor ==> a.floor[b.key] <= b.version)
  }

  /** Queued writes are ordered, and none was loaded before a delete queued ahead of it. */
  ghost predicate QueueInv(s: State) {
    && (forall i | 0 <= i < |s.queue| && s.queue[i].OpSet? && s.queue[i].key in s.store ::
          s.store[s.queue[i].key] <= s.queue[i].version)
    && (forall i, j | 0 <= i < j < |s.queue| :: InOrder(s.queue[i], s.queue[j]))
    && (forall i | 0 <= i < |s.queue| && s.queue[i].OpDelete? :: s.queue[i].ticket < s.nextTicket)
  }

  /** A queued command mentions only versions the source already had. */
  ghost predicate NotAhead(source: map<Key, nat>, op: StoreOp) {
    && (op.OpSet? ==> op.version <= VersionIn(source, op.key))
    && (op.OpDelete? ==> forall k :: k in op.floor ==> op.floor[k] <= VersionIn(source, k))
  }

  ghost predicate SourceInv(s: State) {
    && (forall k :: k in s.store ==> s.store[k] <= Version(s, k))
    && (forall i | 0 <= i < |s.queue| :: NotAhead(s.source, s.queue[i]))
  }

  /** What a load that has read the source knows. */
  ghost predicate LoadInv(s: State) {
    forall c :: c in s.calls && s.calls[c].phase.SourceRead? ==>
      var k, v := s.calls[c].key, s.calls[c].phase.version;
      && v <= Version(s, k)
      && Newest(s, k, v)
      && (k !in s.coord.marks ==> AboveQueuedDeletes(s.queue, k, v))
  }

  ghost predicate Inv(s: State) {
    CountInv(s) && FlightInv(s) && QueueInv(s) && SourceInv(s) && LoadInv(s)
  }

  lemma InitInv(s: State)
    requires Init(s)
    ensures Inv(s)
  {
  }

  // ---------------------------------------------------------------- how events move the counters

  lemma OpenedCallsOn(calls: map<CallId, Call>, c: CallId, call: Call, q: Key)
    requires c !in calls
    ensures CallsOn(calls[c := call], q) == CallsOn(calls, q) + if q == call.key then {c} else {}
  {
  }

  lemma OpenCounts(s: State, t: State, c: CallId, k: Key)
    requires CountInv(s) && c !in s.calls
    requires t.calls == s.calls[c := Call(k, AwaitGet)] && t.coord == BeginLoad(s.coord, k)
    requires t.nextCall > c && t.nextCall >= s.nextCall
    ensures CountInv(t)
  {
    forall q ensures LoadCount(t.coord, q) == |CallsOn(t.calls, q)| {
      OpenedCallsOn(s.calls, c, Call(k, AwaitGet), q);
    }
  }

  lemma ClosedCallsOn(calls: map<CallId, Call>, c: CallId, q: Key)
    requires c in calls
    ensures CallsOn(calls - {c}, q) == CallsOn(calls, q) - if q == calls[c].key then {c} else {}
  {
  }

  lemma CloseCounts(s: State, t: State, c: CallId)
    requires CountInv(s) && c in s.calls && t.calls == s.calls - {c}
    requires t.coord.loading == EndLoad(s.coord, s.calls[c].key).loading
    requires t.coord.marks == EndLoad(s.coord, s.calls[c].key).marks
    requires t.nextCall >= s.nextCall
    ensures CountInv(t)
    ensures forall q :: q in s.coord.marks && q !in t.coord.marks ==> CallsOn(t.calls, q) == {}
  {
    var k := s.calls[c].key;
    assert c in CallsOn(s.calls, k);
    forall q ensures LoadCount(t.coord, q) == |CallsOn(t.calls, q)| {
      ClosedCallsOn(s.calls, c, q);
    }
    forall q | q in s.coord.marks && q !in t.coord.marks ensures CallsOn(t.calls, q) == {} {
      assert LoadCount(t.coord, q) == 0;
    }
  }

  lemma PhaseCounts(s: State, t: State, c: CallId, p: Phase)
    requires CountInv(s) && c in s.calls && t.calls == s.calls[c := s.calls[c].(phase := p)]
    requires t.coord.loading == s.coord.loading
    requires s.coord.marks <= t.coord.marks <= s.coord.loading.Keys
    requires t.nextCall == s.nextCall
    ensures CountInv(t)
  {
    forall q ensures LoadCount(t.coord, q) == |CallsOn(t.calls, q)| {
      assert CallsOn(t.calls, q) == CallsOn(s.calls, q);
    }
  }

  // ---------------------------------------------------------------- preservation, event by event

  /** Reads and best-effort removals may be queued at any time. */
  lemma QueueOtherKeepsInv(s: State, op: StoreOp)
    requires Inv(s) && (op.OpGet? || op.OpDrop?)
    ensures Inv(s.(queue := s.queue + [op]))
  {
  }

  lemma OpenKeepsInv(s: State, t: State, k: Key)
    requires Inv(s) && t == s.(coord := BeginLoad(s.coord, k), calls := s.calls[s.nextCall := Call(k, AwaitGet)],
                               nextCall := s.nextCall + 1)
    ensures Inv(t)
  {
    OpenCounts(s, t, s.nextCall, k);
    assert t.queue == s.queue && t.store == s.store && t.source == s.source;
  }

  lemma BeginKeepsInv(s: State, k: Key)
    requires Inv(s)
    ensures Inv(Apply(s, Begin(k)))
  {
    var t := s.(queue := s.queue + [OpGet(s.nextCall)]);
    QueueOtherKeepsInv(s, OpGet(s.nextCall));
    OpenKeepsInv(t, Apply(s, Begin(k)), k);
  }

  /** Moving a call on keeps the invariant, unless it starts or stops leading. */
  lemma SetPhaseKeepsInv(s: State, c: CallId, p: Phase)
    requires Inv(s) && c in s.calls && p.Leading() == s.calls[c].phase.Leading()
    requires p.SourceRead? ==> p.version == Version(s, s.calls[c].key)
    ensures Inv(SetPhase(s, c, p))
  {
    PhaseCounts(s, SetPhase(s, c, p), c, p);
  }

  /** Taking the oldest command off the queue, whatever part of it took effect in the store. */
  lemma PopKeepsInv(s: State, store: map<Key, nat>)
    requires Inv(s) && |s.queue| > 0
    requires forall k | k in store ::
               || (k in s.store && store[k] == s.store[k])
               || (s.queue[0].OpSet? && s.queue[0].key == k && s.queue[0].version == store[k])
    ensures Inv(s.(queue := s.queue[1..], store := store))
  {
    var t := s.(queue := s.queue[1..], store := store);
    assert QueueInv(t) by {
      forall i | 0 <= i < |t.queue| && t.queue[i].OpSet? && t.queue[i].key in t.store
        ensures t.store[t.queue[i].key] <= t.queue[i].version
      {
        assert t.queue[i] == s.queue[i + 1] && InOrder(s.queue[0], s.queue[i + 1]);
      }
    }
    assert NotAhead(s.source, s.queue[0]);
    forall c | c in t.calls && t.calls[c].phase.SourceRead?
      ensures Newest(t, t.calls[c].key, t.calls[c].phase.version)
      ensures t.calls[c].key !in t.coord.marks ==> AboveQueuedDeletes(t.queue, t.calls[c].key, t.calls[c].phase.version)
    {
      assert Newest(s, t.calls[c].key, t.calls[c].phase.version);
    }
  }

  lemma ExecKeepsInv(s: State, ok: bool)
    requires Inv(s) && |s.queue| > 0
    ensures Inv(Exec(s, ok))
  {
    var t := s.(queue := s.queue[1..]);
    match s.queue[0]
    case OpGet(c) =>
      PopKeepsInv(s, s.store);
      if InPhase(s, c, AwaitGet) {
        SetPhaseKeepsInv(t, c, GotGet(ok && s.calls[c].key in s.store));
      }
    case OpSet(c, k, v) =>
      var store := if ok then s.store[k := v] else s.store;
      PopKeepsInv(s, store);
      if InPhase(s, c, AwaitSet) {
        SetPhaseKeepsInv(t.(store := store), c, Settled);
      }
    case OpDelete(_, floor) => PopKeepsInv(s, if ok then s.store - floor.Keys else s.store);
    case OpDrop(k) => PopKeepsInv(s, if ok then s.store - {k} else s.store);
  }

  lemma CloseKeepsInv(s: State, t: State, c: CallId)
    requires Inv(s) && c in s.calls
    requires
      var k := s.calls[c].key;
      t == s.(calls := s.calls - {c},
              coord := EndLoad(if s.calls[c].phase.Leading() then Uninstall(s.coord, k) else s.coord, k))
    ensures Inv(t)
  {
    CloseCounts(s, t, c);
    forall d | d in t.calls && t.calls[d].phase.SourceRead? && t.calls[d].key !in t.coord.marks
      ensures AboveQueuedDeletes(t.queue, t.calls[d].key, t.calls[d].phase.version)
    {
      assert d in CallsOn(t.calls, t.calls[d].key);
    }
  }

  /** A call that finds no load in flight becomes the leader. */
  lemma LeadKeepsInv(s: State, c: CallId)
    requires Inv(s) && c in s.calls && s.calls[c].phase.GotGet? && s.calls[c].key !in s.coord.inFlight
    ensures Inv(SetPhase(s, c, Loading).(coord := Install(s.coord, s.calls[c].key, c)))
  {
    PhaseCounts(s, SetPhase(s, c, Loading).(coord := Install(s.coord, s.calls[c].key, c)), c, Loading);
  }

  lemma AfterGetKeepsInv(s: State, c: CallId, decodes: bool)
    requires Inv(s) && c in s.calls && s.calls[c].phase.GotGet?
    ensures Inv(AfterGet(s, c, decodes))
  {
    var k := s.calls[c].key;
    var u := AfterGet(s, c, decodes);
    if s.calls[c].phase.hit && decodes {
      CloseKeepsInv(s, u, c);
    } else {
      var t := if s.calls[c].phase.hit then s.(queue := s.queue + [OpDrop(k)]) else s;
      QueueOtherKeepsInv(s, OpDrop(k));
      if k in t.coord.inFlight {
        CloseKeepsInv(t, u, c);
      } else {
        LeadKeepsInv(t, c);
      }
    }
  }

  /** A load that was not invalidated may queue its value. */
  lemma QueueSetKeepsInv(s: State, c: CallId)
    requires Inv(s) && c in s.calls && s.calls[c].phase.SourceRead? && s.calls[c].key !in s.coord.marks
    ensures Inv(s.(queue := s.queue + [OpSet(c, s.calls[c].key, s.calls[c].phase.version)]))
  {
    var k, v := s.calls[c].key, s.calls[c].phase.version;
    var t := s.(queue := s.queue + [OpSet(c, k, v)]);
    assert Newest(s, k, v) && AboveQueuedDeletes(s.queue, k, v);
    // Another load of the same key that has read the source would have to be the same leader.
    forall d | d in t.calls && t.calls[d].phase.SourceRead?
      ensures Newest(t, t.calls[d].key, t.calls[d].phase.version)
      ensures t.calls[d].key !in t.coord.marks ==> AboveQueuedDeletes(t.queue, t.calls[d].key, t.calls[d].phase.version)
    {
      assert Newest(s, t.calls[d].key, t.calls[d].phase.version);
    }
  }

  lemma AfterLoaderKeepsInv(s: State, c: CallId, cacheable: bool)
    requires Inv(s) && c in s.calls && s.calls[c].phase.SourceRead?
    ensures Inv(AfterLoader(s, c, cacheable))
  {
    var k := s.calls[c].key;
    if cacheable && k !in s.coord.marks {
      var t := s.(queue := s.queue + [OpSet(c, k, s.calls[c].phase.version)]);
      QueueSetKeepsInv(s, c);
      SetPhaseKeepsInv(t, c, AwaitSet);
    } else {
      SetPhaseKeepsInv(s, c, Settled);
    }
  }

  /** Marking counts nothing and queues nothing; afterwards every load of these keys is marked. */
  lemma MarkKeepsInv(s: State, keys: set<Key>)
    requires Inv(s)
    ensures var t := s.(coord := MarkInvalidated(s.coord, keys));
            Inv(t) && forall c | c in t.calls && t.calls[c].key in keys :: t.calls[c].key in t.coord.marks
  {
    forall c | c in s.calls && s.calls[c].key in keys
      ensures s.calls[c].key in s.coord.loading
    {
      assert c in CallsOn(s.calls, s.calls[c].key);
    }
  }

  lemma QueueDeleteKeepsInv(s: State, keys: set<Key>)
    requires Inv(s) && forall c | c in s.calls && s.calls[c].key in keys :: s.calls[c].key in s.coord.marks
    ensures Inv(s.(queue := s.queue + [OpDelete(s.nextTicket, Stamps(s, keys))], nextTicket := s.nextTicket + 1))
  {
  }

  lemma DeleteKeepsInv(s: State, keys: set<Key>)
    requires Inv(s)
    ensures Inv(Apply(s, Delete(keys)))
  {
    var t := s.(coord := MarkInvalidated(s.coord, keys));
    MarkKeepsInv(s, keys);
    QueueDeleteKeepsInv(t, keys);
    assert Stamps(t, keys) == Stamps(s, keys);
  }

  lemma WriteKeepsInv(s: State, keys: set<Key>)
    requires Inv(s)
    ensures Inv(Apply(s, Write(keys)))
  {
    var t := Apply(s, Write(keys));
    assert forall k :: Version(s, k) <= Version(t, k);
    assert forall i :: 0 <= i < |s.queue| ==> NotAhead(s.source, s.queue[i]);
  }

  lemma StepKeepsInv(s: State, e: Event)
    requires Inv(s) && Enabled(s, e)
    ensures Inv(Apply(s, e))
  {
    match e
    case Begin(k) => BeginKeepsInv(s, k);
    case ExecHead(ok) => ExecKeepsInv(s, ok);
    case LoseReply(c) => SetPhaseKeepsInv(s, c, if s.calls[c].phase.AwaitGet? then GotGet(false) else Settled);
    case Resume(c, decodes) => AfterGetKeepsInv(s, c, decodes);
    case ReadSource(c) => SetPhaseKeepsInv(s, c, SourceRead(Version(s, s.calls[c].key)));
    case LoaderThrows(c) => SetPhaseKeepsInv(s, c, Settled);
    case LoaderReturns(c, cacheable) => AfterLoaderKeepsInv(s, c, cacheable);
    case Finish(c) => CloseKeepsInv(s, Apply(s, e), c);
    case Write(keys) => WriteKeepsInv(s, keys);
    case Delete(keys) => DeleteKeepsInv(s, keys);
    case Expire(k) =>
  }

  lemma {:induction false} RunKeepsInv(s: State, es: seq<Event>)
    requires Inv(s) && AllEnabled(s, es)
    ensures Inv(Run(s, es))
    decreases |es|
  {
    if es != [] {
      StepKeepsInv(s, es[0]);
      RunKeepsInv(Apply(s, es[0]), es[1..]);
    }
  }
}
