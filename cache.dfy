/**
 * The suggestion cache of rasa_complete.py, in memory: a map from command-line
 * string to the suggestions found for it and the time they were stored. Reading
 * and writing the cache file (JSON) are not part of this model; the clock and
 * the caching-off environment variable are parameters.
 */
module SuggestionCache {
  import opened Wrappers

  /** How long, in seconds, a cached entry is used: 345600 s, which is four days. */
  const MaxCachingTime: int := 345_600

  /** A value stored under a command line: an entry, or a value Python treats as
      false (such as an empty JSON object), which counts as no entry. */
  datatype Value = Entry(args: seq<string>, timestamp: int) | Falsy

  /** The main flow's test: recompute when there is no entry, when the stored
      value is falsy, or when it is strictly older than `MaxCachingTime`. */
  predicate MustRecompute(cached: Option<Value>, now: int) {
    match cached
    case None => true
    case Some(Falsy) => true
    case Some(Entry(_, stamp)) => now - stamp > MaxCachingTime
  }

  /** An entry is used up to and including `MaxCachingTime` seconds after it was
      stored, and recomputed from one second later on. */
  lemma FreshUntilMaxCachingTime(args: seq<string>, stamp: int, now: int)
    ensures !MustRecompute(Some(Entry(args, stamp)), now) <==> now <= stamp + MaxCachingTime
    ensures !MustRecompute(Some(Entry(args, stamp)), stamp + MaxCachingTime)
    ensures MustRecompute(Some(Entry(args, stamp)), stamp + MaxCachingTime + 1)
  {
  }

  /** Once an entry must be recomputed, it must be at every later time. */
  lemma RecomputeIsMonotonic(cached: Option<Value>, now: int, later: int)
    requires now <= later && MustRecompute(cached, now)
    ensures MustRecompute(cached, later)
  {
  }

  /** The map after store_cache: unchanged when caching is off; otherwise
      `command` maps to the new entry stamped `now`, and every other key keeps
      its value. */
  function Stored(entries: map<string, Value>, command: string, arguments: seq<string>,
                  now: int, cachingOff: bool): (m: map<string, Value>)
    ensures cachingOff ==> m == entries
    ensures !cachingOff ==> m.Keys == entries.Keys + {command}
    ensures !cachingOff ==> m[command] == Entry(arguments, now)
    ensures forall k :: k in entries && k != command ==> k in m && m[k] == entries[k]
  {
    if cachingOff then entries else entries[command := Entry(arguments, now)]
  }

  /** Storing and then looking up the same key gives back the stored suggestions,
      fresh at the time of storing. */
  lemma StoredThenFresh(entries: map<string, Value>, command: string, arguments: seq<string>, now: int)
    ensures var m := Stored(entries, command, arguments, now, false);
      command in m && m[command].Entry? && m[command].args == arguments
      && !MustRecompute(Some(m[command]), now)
  {
  }

  /** The cache dictionary, which the main flow and store_cache change in place. */
  class Cache {
    var entries: map<string, Value>

    constructor (entries: map<string, Value>)
      ensures this.entries == entries
    {
      this.entries := entries;
    }

    /** `dict.pop(key, None)`: removes the key and returns its value, if any. */
    method Pop(key: string) returns (v: Option<Value>)
      modifies this
      ensures v == if key in old(entries) then Some(old(entries)[key]) else None
      ensures entries == old(entries) - {key}
    {
      v := if key in entries then Some(entries[key]) else None;
      entries := entries - {key};
    }
  }

  /** store_cache: unless caching is off, puts `arguments` under `command` with
      the current time, leaving every other key alone. */
  method StoreCache(command: string, arguments: seq<string>, currentCache: Cache, now: int, cachingOff: bool)
    modifies currentCache
    ensures currentCache.entries == Stored(old(currentCache.entries), command, arguments, now, cachingOff)
  {
    if cachingOff {
      return;
    }
    currentCache.entries := currentCache.entries[command := Entry(arguments, now)];
  }
}
