/**
 The process-local bookkeeping of the cache facade: which keys are being loaded, which load is
 in flight, and which keys were invalidated while a load was open.

 `Coord` is the value of that bookkeeping; the functions below say what each synchronous section of
 `getOrSet` and `delete` makes of it. The classes hold the mutable maps.
*/
module CacheCoordination {

  type Key = string
  type CallId = nat

  datatype Coord = Coord(inFlight: map<Key, CallId>, loading: map<Key, nat>, marks: set<Key>)

  const EMPTY_COORD := Coord(map[], map[], {})

  function LoadCount(c: Coord, k: Key): nat {
    if k in c.loading then c.loading[k] else 0
  }

  /** One more open call on `k`. */
  function BeginLoad(c: Coord, k: Key): Coord {
    c.(loading := c.loading[k := LoadCount(c, k) + 1])
  }

  /** One open call less; the last one also clears the invalidation mark. */
  function EndLoad(c: Coord, k: Key): Coord {
    if LoadCount(c, k) > 1
    then c.(loading := c.loading[k := c.loading[k] - 1])
    else c.(loading := c.loading - {k}, marks := c.marks - {k})
  }

  /** An invalidation marks exactly those keys that are being loaded. */
  function MarkInvalidated(c: Coord, keys: set<Key>): Coord {
    c.(marks := c.marks + set k | k in keys && k in c.loading)
  }

  function Install(c: Coord, k: Key, call: CallId): Coord {
    c.(inFlight := c.inFlight[k := call])
  }

  function Uninstall(c: Coord, k: Key): Coord {
    c.(inFlight := c.inFlight - {k})
  }

  lemma MarkOneMore(c: Coord, fulls: seq<Key>, i: nat)
    requires i < |fulls|
    ensures MarkInvalidated(c, Elements(fulls[..i + 1])).marks
         == MarkInvalidated(c, Elements(fulls[..i])).marks + if fulls[i] in c.loading then {fulls[i]} else {}
  {
    assert fulls[..i + 1] == fulls[..i] + [fulls[i]];
  }

  // ---------------------------------------------------------------- key prefixes

  function Join(prefix: string, key: string): string {
    if prefix != "" then prefix + ":" + key else key
  }

  function Elements<T>(s: seq<T>): set<T> {
    set x | x in s
  }

  lemma FullKeyIs(prefix: string, key: string)
    ensures Join("", key) == key && (prefix != "" ==> Join(prefix, key) == prefix + ":" + key)
  {
  }

  /** Resolving a key in a child namespace is resolving the joined key in the parent. */
  lemma NamespacesCompose(outer: string, inner: string, key: string)
    requires inner != ""
    ensures Join(Join(outer, inner), key) == Join(outer, Join(inner, key))
  {
  }

  /** Inside one namespace two different keys never share a full key. */
  lemma PrefixIsInjective(prefix: string, a: string, b: string)
    requires Join(prefix, a) == Join(prefix, b)
    ensures a == b
  {
    if prefix != "" {
      var p := prefix + ":";
      assert p + a == Join(prefix, a) && p + b == Join(prefix, b);
      assert (p + a)[|p|..] == a && (p + b)[|p|..] == b;
    }
  }

  // ---------------------------------------------------------------- the mutable objects

  /** The three maps a root cache shares with all its children. */
  class Shared {
    var inFlight: map<Key, CallId>
    var loading: map<Key, nat>
    var invalidatedWhileLoading: set<Key>

    ghost function Value(): Coord
      reads this
    {
      Coord(inFlight, loading, invalidatedWhileLoading)
    }

    constructor ()
      ensures Value() == EMPTY_COORD
    {
      inFlight, loading, invalidatedWhileLoading := map[], map[], {};
    }
  }

  /** A namespaced cache facade; `prefix` isolates its keys. */
  class Cache {
    const prefix: string
    const shared: Shared

    constructor Root(prefix: string)
      ensures this.prefix == prefix
      ensures fresh(shared) && shared.Value() == EMPTY_COORD
    {
      this.prefix := prefix;
      shared := new Shared();
    }

    constructor Child(prefix: string, shared: Shared)
      ensures this.prefix == prefix && this.shared == shared
    {
      this.prefix := prefix;
      this.shared := shared;
    }

    /** A child keeps the parent's bookkeeping, so a full key is loaded once whoever asks for it. */
    method Namespace(name: string) returns (child: Cache)
      ensures fresh(child)
      ensures child.shared == shared
      ensures child.prefix == Join(prefix, name)
    {
      child := new Cache.Child(if prefix != "" then prefix + ":" + name else name, shared);
    }

    method FullKey(key: string) returns (full: Key)
      ensures full == Join(prefix, key)
    {
      full := if prefix != "" then prefix + ":" + key else key;
    }

    method BeginLoadOf(full: Key)
      modifies shared
      ensures shared.Value() == BeginLoad(old(shared.Value()), full)
    {
      var open := if full in shared.loading then shared.loading[full] else 0;
      shared.loading := shared.loading[full := open + 1];
    }

    method EndLoadOf(full: Key)
      modifies shared
      ensures shared.Value() == EndLoad(old(shared.Value()), full)
    {
      var open: int := if full in shared.loading then shared.loading[full] else 1;
      var remaining := open - 1;
      if remaining > 0 {
        shared.loading := shared.loading[full := remaining];
        return;
      }
      shared.loading := shared.loading - {full};
      shared.invalidatedWhileLoading := shared.invalidatedWhileLoading - {full};
    }

    /** Section one of `getOrSet`: announce the load before the first await. */
    method Enter(key: string) returns (full: Key)
      modifies shared
      ensures full == Join(prefix, key)
      ensures shared.Value() == BeginLoad(old(shared.Value()), full)
    {
      full := FullKey(key);
      BeginLoadOf(full);
    }

    /**
     Section after a miss: bind to the load in flight or become its leader. Returning the pending
     promise runs the `finally` block at once, so a joining call is closed here.
    */
    method JoinOrLead(full: Key, call: CallId) returns (joined: bool)
      modifies shared
      ensures joined <==> full in old(shared.inFlight)
      ensures joined ==> shared.Value() == EndLoad(old(shared.Value()), full)
      ensures !joined ==> shared.Value() == Install(old(shared.Value()), full, call)
    {
      if full in shared.inFlight {
        EndLoadOf(full);
        return true;
      }
      shared.inFlight := shared.inFlight[full := call];
      return false;
    }

    /** Last section of a leader: the promise is settled, whether it succeeded or threw. */
    method Leave(full: Key)
      modifies shared
      ensures shared.Value() == EndLoad(Uninstall(old(shared.Value()), full), full)
    {
      shared.inFlight := shared.inFlight - {full};
      EndLoadOf(full);
    }

    /** The synchronous half of `delete`: mark what is being loaded, then name the keys to drop. */
    method Invalidate(keys: seq<string>) returns (fulls: seq<Key>)
      modifies shared
      ensures |fulls| == |keys|
      ensures forall i :: 0 <= i < |keys| ==> fulls[i] == Join(prefix, keys[i])
      ensures shared.Value() == MarkInvalidated(old(shared.Value()), Elements(fulls))
    {
      fulls := [];
      for i := 0 to |keys|
        invariant |fulls| == i
        invariant forall j :: 0 <= j < i ==> fulls[j] == Join(prefix, keys[j])
        invariant shared.Value() == old(shared.Value())
      {
        var full := FullKey(keys[i]);
        fulls := fulls + [full];
      }
      ghost var before := shared.Value();
      for i := 0 to |fulls|
        invariant shared.inFlight == before.inFlight && shared.loading == before.loading
        invariant shared.Value() == MarkInvalidated(before, Elements(fulls[..i]))
      {
        MarkOneMore(before, fulls, i);
        if fulls[i] in shared.loading {
          shared.invalidatedWhileLoading := shared.invalidatedWhileLoading + {fulls[i]};
        }
      }
      assert fulls[..|fulls|] == fulls;
    }
  }
}
