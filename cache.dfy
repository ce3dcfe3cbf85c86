/**
 * The server's analysis cache: a map from a key derived from the file name
 * and the source text to the stored report and the time it was stored.
 * A lookup is a hit only while the entry is younger than the cache
 * duration; a periodic sweep deletes the entries older than it.
 */
module Cache {
  import opened Common
  import opened Report

  /** `CACHE_DURATION`: ten minutes, in milliseconds. */
  const CacheDuration: int := 10 * 60 * 1000

  /** What `analysisCache.set` stores. */
  datatype CacheEntry = CacheEntry(result: AnalysisResult, timestamp: int, language: string, filename: string)

  /** The lookup test: the entry is strictly younger than the cache duration at `now`. */
  predicate Fresh(e: CacheEntry, now: int)
  {
    now - e.timestamp < CacheDuration
  }

  /** The sweep test: the entry is strictly older than the cache duration at `now`. */
  predicate Expired(e: CacheEntry, now: int)
  {
    now - e.timestamp > CacheDuration
  }

  /** An entry exactly as old as the cache duration is a miss, yet the sweep keeps it. */
  lemma BoundaryEntry(e: CacheEntry, now: int)
    requires now - e.timestamp == CacheDuration
    ensures !Fresh(e, now) && !Expired(e, now)
  {
  }

  /** The entries a sweep at `now` keeps. */
  function Survivors(entries: map<string, CacheEntry>, now: int): (m: map<string, CacheEntry>)
    ensures m.Keys <= entries.Keys
    ensures forall k :: k in m ==> m[k] == entries[k] && !Expired(m[k], now)
    ensures forall k :: k in entries && !Expired(entries[k], now) ==> k in m
  {
    map k | k in entries && !Expired(entries[k], now) :: entries[k]
  }

  /** The keys a sweep at `now` deletes. */
  function ExpiredKeys(entries: map<string, CacheEntry>, now: int): (ks: set<string>)
    ensures ks <= entries.Keys
    ensures forall k :: k in entries ==> (k in ks <==> Expired(entries[k], now))
  {
    set k | k in entries && Expired(entries[k], now)
  }

  /** Every key is either kept or deleted by a sweep, never both. */
  lemma SweepPartition(entries: map<string, CacheEntry>, now: int)
    ensures Survivors(entries, now).Keys + ExpiredKeys(entries, now) == entries.Keys
    ensures Survivors(entries, now).Keys * ExpiredKeys(entries, now) == {}
    ensures |Survivors(entries, now).Keys| + |ExpiredKeys(entries, now)| == |entries.Keys|
  {
    var s, x := Survivors(entries, now).Keys, ExpiredKeys(entries, now);
    assert s + x == entries.Keys;
    assert s * x == {};
    assert |s + x| == |s| + |x| - |s * x|;
  }

  /** A cache key's content as written: the file name, a colon, the source. */
  function KeyContentAsWritten(filename: string, code: string): string
  {
    filename + ":" + code
  }

  /** Two different requests share one cache key when the file name holds a colon. */
  lemma KeyContentCollision()
    ensures ("a:b", "c") != ("a", "b:c")
    ensures KeyContentAsWritten("a:b", "c") == KeyContentAsWritten("a", "b:c")
  {
  }

  /** A cache key's content with the file name's length in front, so the colon split is unambiguous. */
  function KeyContent(filename: string, code: string): string
  {
    NatToString(|filename|) + ":" + filename + ":" + code
  }

  /** Different requests have different key contents. */
  lemma KeyContentInjective(f1: string, c1: string, f2: string, c2: string)
    requires KeyContent(f1, c1) == KeyContent(f2, c2)
    ensures f1 == f2 && c1 == c2
  {
    var n1, n2 := NatToString(|f1|), NatToString(|f2|);
    var r1, r2 := ":" + (f1 + (":" + c1)), ":" + (f2 + (":" + c2));
    assert KeyContent(f1, c1) == n1 + r1;
    assert KeyContent(f2, c2) == n2 + r2;
    DigitRunUnique(n1, r1, n2, r2);
    NatToStringInjective(|f1|, |f2|);
    PrefixCancel(":", f1 + (":" + c1), f2 + (":" + c2));
    assert f1 == (f1 + (":" + c1))[..|f1|];
    assert f2 == (f2 + (":" + c2))[..|f2|];
    PrefixCancel(f1, ":" + c1, ":" + c2);
    PrefixCancel(":", c1, c2);
  }

  /** The key content a program derives from a request. */
  function KeyIn(p: Program, filename: string, code: string): (k: string)
    ensures p.AsWritten? ==> k == KeyContentAsWritten(filename, code)
    ensures p.Corrected? ==> k == KeyContent(filename, code)
  {
    if p.AsWritten? then KeyContentAsWritten(filename, code) else KeyContent(filename, code)
  }

  /** The module-level `analysisCache` map. */
  class AnalysisCache {
    var entries: map<string, CacheEntry>

    constructor()
      ensures entries == map[]
    {
      entries := map[];
    }

    /**
     * `analysisCache.get(key)` followed by the age test: the stored report
     * when the entry exists and is fresh at `now`.
     */
    function Lookup(key: string, now: int): (r: Option<AnalysisResult>)
      reads this
      ensures r.Some? <==> key in entries && Fresh(entries[key], now)
      ensures r.Some? ==> r.value == entries[key].result
    {
      if key in entries && Fresh(entries[key], now) then Some(entries[key].result) else None
    }

    /** `analysisCache.set(key, entry)`. */
    method Set(key: string, entry: CacheEntry)
      modifies this
      ensures entries == old(entries)[key := entry]
    {
      entries := entries[key := entry];
    }

    /**
     * The periodic sweep: one pass over the entries, deleting each one
     * older than the cache duration at `now` and counting the deletions.
     */
    method Sweep(now: int) returns (cleaned: nat)
      modifies this
      ensures entries == Survivors(old(entries), now)
      ensures cleaned == |ExpiredKeys(old(entries), now)|
    {
      var start := entries;
      var remaining := entries.Keys;
      ghost var deleted: set<string> := {};
      cleaned := 0;
      while remaining != {}
        invariant remaining <= start.Keys
        invariant entries == map k | k in start && (k in remaining || !Expired(start[k], now)) :: start[k]
        invariant deleted == set k | k in start && k !in remaining && Expired(start[k], now)
        invariant cleaned == |deleted|
        decreases |remaining|
      {
        var key :| key in remaining;
        if Expired(start[key], now) {
          entries := map k | k in entries && k != key :: entries[k];
          deleted := deleted + {key};
          cleaned := cleaned + 1;
        }
        remaining := remaining - {key};
      }
      assert deleted == ExpiredKeys(start, now);
    }
  }

  /** A lookup that misses keeps missing as time goes on, while the entries stay the same. */
  lemma MissStaysMiss(c: AnalysisCache, key: string, t: int, t': int)
    requires t <= t'
    requires c.Lookup(key, t).None?
    ensures c.Lookup(key, t').None?
  {
  }

  /** Right after storing a report, looking its key up at the store time finds it. */
  lemma StoredIsFound(entries: map<string, CacheEntry>, key: string, e: CacheEntry)
    ensures var m := entries[key := e];
            key in m && (Fresh(m[key], e.timestamp) && m[key].result == e.result)
  {
  }

  /** A sweep never takes away a hit: every fresh entry survives it. */
  lemma SweepKeepsHits(entries: map<string, CacheEntry>, now: int, later: int, key: string)
    requires now <= later
    requires key in entries && Fresh(entries[key], later)
    ensures key in Survivors(entries, now) && Survivors(entries, now)[key] == entries[key]
  {
  }
}
