/** Effects over a keyspace: which cache entries a business event drops, and that they are dropped. */
module Keyspace {
  import opened CacheCoordination
  import opened CacheProtocol
  import CacheSafety

  /** A bound entry: its key, relative to the namespaced cache it lives in. */
  datatype Entry = Entry(name: string, key: string, cache: Cache)

  /** One `delete` call: the keys dropped in one cache. */
  datatype Drop = Drop(cache: Cache, keys: seq<string>)

  ghost predicate Distinct<T>(s: seq<T>) {
    forall i, j :: 0 <= i < j < |s| ==> s[i] != s[j]
  }

  function CachesOf(drops: seq<Drop>): (r: seq<Cache>)
    ensures |r| == |drops| && forall i :: 0 <= i < |r| ==> r[i] == drops[i].cache
  {
    seq(|drops|, i requires 0 <= i < |drops| => drops[i].cache)
  }

  /** The keys an effect declares in one cache. */
  ghost function DeclaredIn(entries: seq<Entry>, c: Cache): set<string> {
    set e | e in entries && e.cache == c :: e.key
  }

  /** `drops` is exactly `entries`: one call per cache, and in it every declared key once. */
  ghost predicate Groups(drops: seq<Drop>, entries: seq<Entry>) {
    && Distinct(CachesOf(drops))
    && (forall i :: 0 <= i < |drops| ==> Distinct(drops[i].keys))
    && (forall i :: 0 <= i < |drops| ==> Elements(drops[i].keys) == DeclaredIn(entries, drops[i].cache))
    && (forall e :: e in entries ==> e.cache in CachesOf(drops))
    && (forall c :: c in CachesOf(drops) ==> DeclaredIn(entries, c) != {})
  }

  lemma DeclareOneMore(entries: seq<Entry>, e: Entry, c: Cache)
    ensures DeclaredIn(entries + [e], c) == DeclaredIn(entries, c) + if e.cache == c then {e.key} else {}
  {
  }

  /** Adding one entry to the groups built so far. */
  lemma AddToGroup(drops: seq<Drop>, entries: seq<Entry>, e: Entry, at: nat, keys: seq<string>)
    requires Groups(drops, entries) && at < |drops| && drops[at].cache == e.cache
    requires keys == if e.key in drops[at].keys then drops[at].keys else drops[at].keys + [e.key]
    ensures Groups(drops[at := Drop(e.cache, keys)], entries + [e])
  {
    var next := drops[at := Drop(e.cache, keys)];
    assert CachesOf(next) == CachesOf(drops);
    forall c { DeclareOneMore(entries, e, c); }
    assert Elements(keys) == Elements(drops[at].keys) + {e.key};
    assert CachesOf(drops)[at] == e.cache;
  }

  lemma AddGroup(drops: seq<Drop>, entries: seq<Entry>, e: Entry)
    requires Groups(drops, entries) && e.cache !in CachesOf(drops)
    ensures Groups(drops + [Drop(e.cache, [e.key])], entries + [e])
  {
    var next := drops + [Drop(e.cache, [e.key])];
    assert CachesOf(next) == CachesOf(drops) + [e.cache];
    forall c { DeclareOneMore(entries, e, c); }
    assert DeclaredIn(entries, e.cache) == {};
    assert Elements([e.key]) == {e.key};
  }

  /** Where each cache's call is kept. */
  ghost predicate Positions(position: map<Cache, nat>, drops: seq<Drop>) {
    && (forall c :: c in position ==> position[c] < |drops| && drops[position[c]].cache == c)
    && (forall i :: 0 <= i < |drops| ==> drops[i].cache in position)
  }

  lemma PositionsKept(position: map<Cache, nat>, drops: seq<Drop>, at: nat, keys: seq<string>)
    requires Positions(position, drops) && at < |drops|
    ensures Positions(position, drops[at := Drop(drops[at].cache, keys)])
  {
  }

  lemma PositionAdded(position: map<Cache, nat>, drops: seq<Drop>, d: Drop)
    requires Positions(position, drops)
    ensures Positions(position[d.cache := |drops|], drops + [d])
  {
  }

  lemma AbsentCache(position: map<Cache, nat>, drops: seq<Drop>, c: Cache)
    requires Positions(position, drops) && c !in position
    ensures c !in CachesOf(drops)
  {
  }

  /** The loop of `dropEntries`: the deletes it issues, in the order of the map it fills. */
  method DropEntries(entries: seq<Entry>) returns (drops: seq<Drop>)
    ensures Groups(drops, entries)
    ensures entries == [] ==> drops == []
  {
    drops := [];
    if |entries| == 0 {
      return;
    }
    var position: map<Cache, nat> := map[];
    for n := 0 to |entries|
      invariant Groups(drops, entries[..n])
      invariant Positions(position, drops)
    {
      var item := entries[n];
      assert entries[..n + 1] == entries[..n] + [item];
      if item.cache in position {
        var at := position[item.cache];
        var keys := if item.key in drops[at].keys then drops[at].keys else drops[at].keys + [item.key];
        AddToGroup(drops, entries[..n], item, at, keys);
        PositionsKept(position, drops, at, keys);
        drops := drops[at := Drop(item.cache, keys)];
      } else {
        AbsentCache(position, drops, item.cache);
        AddGroup(drops, entries[..n], item);
        PositionAdded(position, drops, Drop(item.cache, [item.key]));
        position := position[item.cache := |drops|];
        drops := drops + [Drop(item.cache, [item.key])];
      }
    }
    assert entries[..|entries|] == entries;
  }

  // ---------------------------------------------------------------- full keys

  function FullKeys(drop: Drop): (r: seq<Key>)
    ensures |r| == |drop.keys|
    ensures forall i :: 0 <= i < |r| ==> r[i] == Join(drop.cache.prefix, drop.keys[i])
  {
    seq(|drop.keys|, i requires 0 <= i < |drop.keys| => Join(drop.cache.prefix, drop.keys[i]))
  }

  /** The full keys an effect declares. */
  ghost function EntryKeys(entries: seq<Entry>): set<Key> {
    set e | e in entries :: Join(e.cache.prefix, e.key)
  }

  /** The full keys the issued deletes carry. */
  ghost function DroppedKeys(drops: seq<Drop>): set<Key> {
    set d, k | d in drops && k in d.keys :: Join(d.cache.prefix, k)
  }

  /** The full keys deleted are exactly those of the effect's entries. */
  lemma DeletesExactlyTheEntries(drops: seq<Drop>, entries: seq<Entry>)
    requires Groups(drops, entries)
    ensures DroppedKeys(drops) == EntryKeys(entries)
  {
    forall f | f in DroppedKeys(drops) ensures f in EntryKeys(entries) {
      var d, k :| d in drops && k in d.keys && Join(d.cache.prefix, k) == f;
      assert k in Elements(d.keys);
    }
    forall f | f in EntryKeys(entries) ensures f in DroppedKeys(drops) {
      var e :| e in entries && Join(e.cache.prefix, e.key) == f;
      var i :| 0 <= i < |drops| && CachesOf(drops)[i] == e.cache;
      assert e.key in Elements(drops[i].keys);
      assert drops[i] in drops;
    }
  }

  /** Within one delete no full key is repeated. */
  lemma EachFullKeyOnce(drop: Drop)
    requires Distinct(drop.keys)
    ensures Distinct(FullKeys(drop))
  {
    forall m, n | 0 <= m < n < |drop.keys| ensures FullKeys(drop)[m] != FullKeys(drop)[n] {
      if FullKeys(drop)[m] == FullKeys(drop)[n] {
        PrefixIsInjective(drop.cache.prefix, drop.keys[m], drop.keys[n]);
      }
    }
  }

  // ---------------------------------------------------------------- an effect in the cache protocol

  /** Emitting issues the deletes one after another, in one synchronous section. */
  function EmitEvents(groups: seq<set<Key>>): (es: seq<Event>)
    ensures |es| == |groups| && forall i :: 0 <= i < |es| ==> es[i] == Delete(groups[i])
  {
    seq(|groups|, i requires 0 <= i < |groups| => Delete(groups[i]))
  }

  lemma {:induction false} EmitRuns(s: State, groups: seq<set<Key>>)
    ensures AllEnabled(s, EmitEvents(groups))
    ensures Run(s, EmitEvents(groups)).source == s.source
    ensures Run(s, EmitEvents(groups)).nextTicket == s.nextTicket + |groups|
    decreases |groups|
  {
    if groups != [] {
      assert EmitEvents(groups)[1..] == EmitEvents(groups[1..]);
      EmitRuns(Apply(s, Delete(groups[0])), groups[1..]);
    }
  }

  /**
   An emitted effect is final for each of its keys: once the store has executed the delete that
   carries key `k`, no later state holds for `k` a value older than the source was at the emit.
  */
  lemma EmitIsFinal(init: State, before: seq<Event>, groups: seq<set<Key>>, n: nat, between: seq<Event>, after: seq<Event>)
    requires Init(init) && AllEnabled(init, before) && n < |groups|
    requires AllEnabled(Run(init, before), EmitEvents(groups))
    requires AllEnabled(Run(Run(init, before), EmitEvents(groups)), between)
    requires
      var emitted := Run(init, before);
      var s := Run(Run(emitted, EmitEvents(groups)), between);
      && |s.queue| > 0 && s.queue[0].OpDelete? && s.queue[0].ticket == emitted.nextTicket + n
      && AllEnabled(Apply(s, ExecHead(true)), after)
    ensures
      var emitted := Run(init, before);
      var end := Run(Apply(Run(Run(emitted, EmitEvents(groups)), between), ExecHead(true)), after);
      forall k :: k in groups[n] && k in end.store ==> Version(emitted, k) <= end.store[k]
  {
    var emitted := Run(init, before);
    var head, tail := EmitEvents(groups[..n]), EmitEvents(groups[n + 1..]);
    var issue := [Delete(groups[n])];
    assert EmitEvents(groups) == head + (issue + tail);
    EmitRuns(emitted, groups[..n]);
    CacheSafety.RunConcat(emitted, head, issue + tail);
    CacheSafety.RunConcat(init, before, head);
    var issued := Run(init, before + head);
    var sent := Apply(issued, Delete(groups[n]));
    assert (issue + tail)[1..] == tail;
    assert Run(issued, issue + tail) == Run(sent, tail);
    CacheSafety.RunConcat(sent, tail, between);
    CacheSafety.DeleteIsFinal(init, before + head, groups[n], tail + between, after);
  }

  /** The full keys of each issued delete. */
  function KeyGroups(drops: seq<Drop>): (groups: seq<set<Key>>)
    ensures |groups| == |drops| && forall i :: 0 <= i < |drops| ==> groups[i] == Elements(FullKeys(drops[i]))
  {
    seq(|drops|, i requires 0 <= i < |drops| => Elements(FullKeys(drops[i])))
  }

  /** The delete that carries an entry. */
  lemma CarryingDelete(drops: seq<Drop>, entries: seq<Entry>, e: Entry) returns (n: nat)
    requires Groups(drops, entries) && e in entries
    ensures n < |drops| && drops[n].cache == e.cache && Join(e.cache.prefix, e.key) in KeyGroups(drops)[n]
  {
    n :| 0 <= n < |drops| && CachesOf(drops)[n] == e.cache;
    assert e.key in Elements(drops[n].keys);
    var i :| 0 <= i < |drops[n].keys| && drops[n].keys[i] == e.key;
    assert FullKeys(drops[n])[i] == Join(e.cache.prefix, e.key);
  }

  /**
   Emitting an effect is final for every one of its entries: `n` is the one delete in the entry's cache, and
   once the store has executed it, the entry's key never again holds a value older than the emit.
  */
  lemma EntryIsFinal(
    init: State, before: seq<Event>, drops: seq<Drop>, entries: seq<Entry>, e: Entry, n: nat,
    between: seq<Event>, after: seq<Event>)
    requires Init(init) && AllEnabled(init, before)
    requires Groups(drops, entries) && e in entries && n < |drops| && drops[n].cache == e.cache
    requires AllEnabled(Run(init, before), EmitEvents(KeyGroups(drops)))
    requires AllEnabled(Run(Run(init, before), EmitEvents(KeyGroups(drops))), between)
    requires
      var emitted := Run(init, before);
      var s := Run(Run(emitted, EmitEvents(KeyGroups(drops))), between);
      && |s.queue| > 0 && s.queue[0].OpDelete? && s.queue[0].ticket == emitted.nextTicket + n
      && AllEnabled(Apply(s, ExecHead(true)), after)
    ensures
      var emitted := Run(init, before);
      var end := Run(Apply(Run(Run(emitted, EmitEvents(KeyGroups(drops))), between), ExecHead(true)), after);
      var k := Join(e.cache.prefix, e.key);
      k in end.store ==> Version(emitted, k) <= end.store[k]
  {
    var m := CarryingDelete(drops, entries, e);
    assert m == n by {
      assert CachesOf(drops)[m] == CachesOf(drops)[n];
    }
    EmitIsFinal(init, before, KeyGroups(drops), n, between, after);
  }
}
