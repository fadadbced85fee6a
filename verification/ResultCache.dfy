/** The in-memory result cache: least recently used entries go first
    (src/comfyng/core/cache.py:63-254). */
module ResultCache {
  import opened Graphs

  datatype Entry = Entry(
    key: string,
    value: Json,
    size: nat,
    createdAt: real,
    lastAccessedAt: real,
    expiresAt: Option<real>,
    hits: nat)

  datatype Stored = Stored(entry: Entry, order: nat)

  type Entries = map<string, Stored>

  predicate Expired(e: Entry, now: real)
  {
    e.expiresAt.Some? && now >= e.expiresAt.value
  }

  // ----- Adding up sizes -----

  ghost function Bytes(entries: Entries): nat
  {
    if entries == map[] then 0
    else
      var k :| k in entries;
      entries[k].entry.size + Bytes(entries - {k})
  }

  lemma {:induction false} BytesWithout(entries: Entries, k: string)
    requires k in entries
    ensures Bytes(entries) == entries[k].entry.size + Bytes(entries - {k})
    decreases entries
  {
    var first :| first in entries && Bytes(entries) == entries[first].entry.size + Bytes(entries - {first});
    if first != k {
      BytesWithout(entries - {first}, k);
      BytesWithout(entries - {k}, first);
      assert entries - {first} - {k} == entries - {k} - {first};
    }
  }

  lemma BytesWith(entries: Entries, k: string, s: Stored)
    requires k !in entries
    ensures Bytes(entries[k := s]) == Bytes(entries) + s.entry.size
  {
    BytesWithout(entries[k := s], k);
    assert entries[k := s] - {k} == entries;
  }

  lemma {:induction false} BytesMonotone(some: Entries, all: Entries)
    requires some.Keys <= all.Keys && forall k :: k in some ==> some[k] == all[k]
    ensures Bytes(some) <= Bytes(all)
    decreases some
  {
    if some != map[] {
      var k :| k in some;
      BytesWithout(some, k);
      BytesWithout(all, k);
      BytesMonotone(some - {k}, all - {k});
    }
  }

  // ----- The longest most recently used run -----

  ghost predicate WithinLimits(entries: Entries, maxEntries: nat, maxBytes: nat)
  {
    |entries| <= maxEntries && Bytes(entries) <= maxBytes
  }

  /** `kept` is the longest run of most recently used candidates within both limits: nothing
      newer than a kept entry is missing, and the newest missing entry does not fit. */
  ghost predicate LongestRun(kept: Entries, candidates: Entries, maxEntries: nat, maxBytes: nat)
  {
    && Part(kept, candidates) && UpClosed(kept, candidates)
    && WithinLimits(kept, maxEntries, maxBytes) && Full(kept, candidates, maxEntries, maxBytes)
  }

  ghost predicate UpClosed(kept: Entries, candidates: Entries)
  {
    forall k, c :: k in kept && c in candidates && k in candidates && candidates[c].order >= candidates[k].order ==> c in kept
  }

  ghost predicate Full(kept: Entries, candidates: Entries, maxEntries: nat, maxBytes: nat)
  {
    forall c :: NewestMissing(kept, candidates, c) ==> !WithinLimits(kept[c := candidates[c]], maxEntries, maxBytes)
  }

  ghost predicate Part(kept: Entries, candidates: Entries)
  {
    kept.Keys <= candidates.Keys && forall k :: k in kept ==> kept[k] == candidates[k]
  }

  ghost predicate NewestMissing(kept: Entries, candidates: Entries, c: string)
  {
    && c in candidates && c !in kept
    && forall o :: o in candidates && o !in kept ==> candidates[o].order <= candidates[c].order
  }

  /** Some entry is the newest of those missing. */
  lemma {:induction false} HasNewest(kept: Entries, candidates: Entries, missing: set<string>) returns (c: string)
    requires missing != {} && forall k :: k in missing ==> k in candidates && k !in kept
    ensures c in missing && forall o :: o in missing ==> candidates[o].order <= candidates[c].order
    decreases missing
  {
    c :| c in missing;
    if missing != {c} {
      var d := HasNewest(kept, candidates, missing - {c});
      if candidates[d].order > candidates[c].order { c := d; }
    }
  }

  /** There is only one such run. */
  lemma RunIsUnique(kept: Entries, other: Entries, candidates: Entries, maxEntries: nat, maxBytes: nat)
    requires LongestRun(kept, candidates, maxEntries, maxBytes) && LongestRun(other, candidates, maxEntries, maxBytes)
    ensures kept == other
  {
    RunContains(kept, other, candidates, maxEntries, maxBytes);
    RunContains(other, kept, candidates, maxEntries, maxBytes);
  }

  lemma RunContains(kept: Entries, other: Entries, candidates: Entries, maxEntries: nat, maxBytes: nat)
    requires LongestRun(kept, candidates, maxEntries, maxBytes) && LongestRun(other, candidates, maxEntries, maxBytes)
    ensures other.Keys <= kept.Keys
  {
    forall x | x in other
      ensures x in kept
    {
      RunHolds(kept, other, candidates, maxEntries, maxBytes, x);
    }
  }

  lemma RunHolds(kept: Entries, other: Entries, candidates: Entries, maxEntries: nat, maxBytes: nat, x: string)
    requires Part(kept, candidates) && UpClosed(kept, candidates) && Full(kept, candidates, maxEntries, maxBytes)
    requires Part(other, candidates) && UpClosed(other, candidates) && WithinLimits(other, maxEntries, maxBytes)
    requires x in other
    ensures x in kept
  {
    if x !in kept {
      var c := NewestInOther(kept, other, candidates, x);
      OneMoreFits(kept, other, candidates, c, maxEntries, maxBytes);
    }
  }

  lemma NewestInOther(kept: Entries, other: Entries, candidates: Entries, x: string) returns (c: string)
    requires Part(kept, candidates) && UpClosed(kept, candidates) && Part(other, candidates) && UpClosed(other, candidates)
    requires x in other && x !in kept
    ensures NewestMissing(kept, candidates, c) && c in other && kept.Keys <= other.Keys
  {
    assert x in candidates.Keys - kept.Keys;
    c := HasNewest(kept, candidates, candidates.Keys - kept.Keys);
    assert NewestMissing(kept, candidates, c);
    RunsNest(kept, other, candidates, x);
  }

  /** Two runs are nested. */
  lemma RunsNest(kept: Entries, other: Entries, candidates: Entries, x: string)
    requires Part(kept, candidates) && UpClosed(kept, candidates) && Part(other, candidates) && UpClosed(other, candidates)
    requires x in other && x !in kept
    ensures kept.Keys <= other.Keys
    ensures forall c :: NewestMissing(kept, candidates, c) ==> c in other
  {
    forall k | k in kept
      ensures k in other
    {
      assert candidates[k].order > candidates[x].order;
    }
  }

  lemma OneMoreFits(kept: Entries, other: Entries, candidates: Entries, c: string, maxEntries: nat, maxBytes: nat)
    requires Part(kept, candidates) && Part(other, candidates) && WithinLimits(other, maxEntries, maxBytes)
    requires kept.Keys <= other.Keys && c in other
    ensures WithinLimits(kept[c := candidates[c]], maxEntries, maxBytes)
  {
    var more := kept[c := candidates[c]];
    BytesMonotone(more, other);
    SizeMonotone(more.Keys, other.Keys);
    assert |more| == |more.Keys| && |other| == |other.Keys|;
  }

  lemma {:induction false} SizeMonotone(a: set<string>, b: set<string>)
    requires a <= b
    ensures |a| <= |b|
    decreases a
  {
    if a != {} {
      var x :| x in a;
      SizeMonotone(a - {x}, b - {x});
    }
  }

  // ----- The cache -----

  /** What the fields agree on: the byte count, unique access orders, the last values put. */
  ghost predicate Consistent(entries: Entries, bytes: nat, order: nat, puts: map<string, Json>)
  {
    && bytes == Bytes(entries)
    && (forall k :: k in entries ==> entries[k].order <= order && entries[k].entry.key == k)
    && (forall a, b :: a in entries && b in entries && entries[a].order == entries[b].order ==> a == b)
    && (forall k :: k in entries ==> k in puts && entries[k].entry.value == puts[k])
  }

  lemma DropConsistent(entries: Entries, bytes: nat, order: nat, puts: map<string, Json>, key: string)
    requires Consistent(entries, bytes, order, puts) && key in entries
    ensures entries[key].entry.size <= bytes
    ensures Consistent(entries - {key}, bytes - entries[key].entry.size, order, puts)
    ensures |entries - {key}| == |entries| - 1
  {
    BytesWithout(entries, key);
    assert (entries - {key}).Keys == entries.Keys - {key};
  }

  lemma StoreConsistent(entries: Entries, bytes: nat, order: nat, puts: map<string, Json>, e: Entry)
    requires Consistent(entries, bytes, order, puts) && e.key !in entries
    ensures Consistent(entries[e.key := Stored(e, order + 1)], bytes + e.size, order + 1, puts[e.key := e.value])
  {
    BytesWith(entries, e.key, Stored(e, order + 1));
  }

  lemma TouchConsistent(entries: Entries, bytes: nat, order: nat, puts: map<string, Json>, hit: Entry)
    requires Consistent(entries, bytes, order, puts) && hit.key in entries
    requires hit.value == entries[hit.key].entry.value && hit.size == entries[hit.key].entry.size
    ensures Consistent(entries[hit.key := Stored(hit, order + 1)], bytes, order + 1, puts)
    ensures |entries[hit.key := Stored(hit, order + 1)]| == |entries|
  {
    BytesTouch(entries, hit.key, Stored(hit, order + 1));
  }

  lemma PutsHold(entries: Entries, bytes: nat, order: nat, puts: map<string, Json>, key: string)
    requires Consistent(entries, bytes, order, puts) && key in entries
    ensures key in puts && entries[key].entry.value == puts[key] && entries[key].entry.key == key
  {
  }

  lemma DropFits(entries: Entries, key: string, maxEntries: nat, maxBytes: nat)
    requires WithinLimits(entries, maxEntries, maxBytes) && key in entries
    ensures WithinLimits(entries - {key}, maxEntries, maxBytes)
  {
    BytesWithout(entries, key);
    assert (entries - {key}).Keys == entries.Keys - {key};
  }

  lemma TouchFits(entries: Entries, key: string, s: Stored, maxEntries: nat, maxBytes: nat)
    requires WithinLimits(entries, maxEntries, maxBytes) && key in entries && s.entry.size == entries[key].entry.size
    ensures WithinLimits(entries[key := s], maxEntries, maxBytes)
  {
    BytesTouch(entries, key, s);
  }

  lemma BytesTouch(entries: Entries, k: string, s: Stored)
    requires k in entries && s.entry.size == entries[k].entry.size
    ensures Bytes(entries[k := s]) == Bytes(entries) && |entries[k := s]| == |entries|
  {
    BytesWithout(entries, k);
    BytesWith(entries - {k}, k, s);
    assert (entries - {k})[k := s] == entries[k := s];
    assert entries[k := s].Keys == entries.Keys;
    assert |entries| == |entries.Keys| && |entries[k := s]| == |entries[k := s].Keys|;
  }

  /** What competes for room in a put: every other live entry, and the new one. */
  ghost function Candidates(entries: Entries, key: string, now: real, s: Stored): Entries
  {
    (map k | k in entries && k != key && !Expired(entries[k].entry, now) :: entries[k])[key := s]
  }

  function LiveOnes(entries: Entries, now: real): Entries
  {
    map k | k in entries && !Expired(entries[k].entry, now) :: entries[k]
  }

  lemma CandidatesAre(entries: Entries, key: string, now: real, s: Stored)
    ensures (LiveOnes(entries, now) - {key})[key := s] == Candidates(entries, key, now, s)
  {
  }

  lemma DropMore(entries: Entries, gone: set<string>, k: string, expired: set<string>)
    requires k in expired && expired <= gone
    ensures entries - (gone - expired) - {k} == entries - (gone - (expired - {k}))
  {
  }

  lemma AllExpiredDropped(entries: Entries, now: real, gone: set<string>)
    requires forall k :: k in gone <==> k in entries && Expired(entries[k].entry, now)
    ensures entries - gone == LiveOnes(entries, now)
  {
  }

  lemma NoKey(entries: Entries, k: string)
    ensures k !in entries ==> entries - {k} == entries
  {
  }

  function NewEntry(key: string, value: Json, size: nat, ttl: Option<real>, now: real): Entry
  {
    Entry(key, value, size, now, now, if ttl.Some? then Some(now + ttl.value) else None, 0)
  }

  /** An entry lives from the time it is put until its time to live has passed, and for ever
      without one. */
  lemma LivesFor(key: string, value: Json, size: nat, ttl: Option<real>, put: real, now: real)
    ensures Expired(NewEntry(key, value, size, ttl, put), now) <==> ttl.Some? && now - put >= ttl.value
    ensures NewEntry(key, value, size, ttl, put).value == value && NewEntry(key, value, size, ttl, put).size == size
  {
  }

  /** The eviction loop: only a run of the newest is left, and the newest evicted one did not
      fit beside it. */
  ghost predicate Evicting(left: Entries, all: Entries, key: string, maxEntries: nat, maxBytes: nat)
  {
    Part(left, all) && UpClosed(left, all) && key in left && Full(left, all, maxEntries, maxBytes)
  }

  lemma EvictOldest(left: Entries, all: Entries, key: string, k: string, maxEntries: nat, maxBytes: nat)
    requires Evicting(left, all, key, maxEntries, maxBytes) && !WithinLimits(left, maxEntries, maxBytes)
    requires k in left && k != key && forall o :: o in left ==> left[k].order <= left[o].order
    requires forall a, b :: a in all && b in all && all[a].order == all[b].order ==> a == b
    ensures Evicting(left - {k}, all, key, maxEntries, maxBytes)
  {
    var less := left - {k};
    forall c | NewestMissing(less, all, c)
      ensures !WithinLimits(less[c := all[c]], maxEntries, maxBytes)
    {
      assert k in all && k !in less;
      assert c == k;
      assert less[k := all[k]] == left;
    }
  }

  /** When the newest entry is also the oldest, it is alone and fits. */
  lemma OnlyOneLeft(left: Entries, key: string, maxEntries: nat, maxBytes: nat)
    requires key in left && left[key].entry.size <= maxBytes && maxEntries >= 1
    requires forall o :: o in left ==> o == key
    ensures WithinLimits(left, maxEntries, maxBytes)
  {
    assert left.Keys == {key};
    assert |left| == |left.Keys| == 1;
    BytesWithout(left, key);
    assert left - {key} == map[];
  }

  datatype PutResult = Put(entry: Entry) | TooLarge

  class InMemoryNodeResultCache {
    const maxEntries: nat
    const maxBytes: nat
    var entries: Entries
    var bytes: nat
    var order: nat
    /** The value most recently put under each key. */
    ghost var puts: map<string, Json>

    ghost predicate Valid()
      reads this
    {
      maxEntries >= 1 && Consistent(entries, bytes, order, puts) && WithinLimits(entries, maxEntries, maxBytes)
    }

    constructor (maxEntries: nat, maxBytes: nat)
      requires maxEntries >= 1
      ensures Valid() && entries == map[] && puts == map[] && this.maxEntries == maxEntries && this.maxBytes == maxBytes
    {
      this.maxEntries, this.maxBytes := maxEntries, maxBytes;
      entries, bytes, order, puts := map[], 0, 0, map[];
    }

    /** Taking one entry out. */
    method Discard(key: string)
      requires Consistent(entries, bytes, order, puts) && key in entries
      modifies this
      ensures Consistent(entries, bytes, order, puts) && entries == old(entries) - {key}
      ensures |entries| == |old(entries)| - 1 && bytes <= old(bytes) && order == old(order) && puts == old(puts)
    {
      DropConsistent(entries, bytes, order, puts, key);
      bytes := bytes - entries[key].entry.size;
      entries := entries - {key};
    }

    /** `get`: a hit is live, returns the last value put and becomes the most recent entry;
        an expired entry is dropped. */
    method Get(key: string, now: real) returns (r: Option<Entry>)
      requires Valid()
      modifies this
      ensures Valid() && puts == old(puts)
      ensures r.Some? <==> key in old(entries) && !Expired(old(entries)[key].entry, now)
      ensures r.Some? <==> key in old(entries) && (match old(entries)[key].entry.expiresAt case Some(at) => now < at case None => true)
      ensures r.Some? ==> key in puts && r.value.value == puts[key]
      ensures r.Some? ==> r.value == old(entries)[key].entry.(lastAccessedAt := now, hits := old(entries)[key].entry.hits + 1)
      ensures r.Some? ==> entries == old(entries)[key := Stored(r.value, order)] && order == old(order) + 1
      ensures r.None? ==> entries == old(entries) - {key}
    {
      hide WithinLimits, Consistent, Bytes;
      NoKey(entries, key);
      if key !in entries { return None; }
      var entry := entries[key].entry;
      DropFits(entries, key, maxEntries, maxBytes);
      if Expired(entry, now) {
        Discard(key);
        return None;
      }
      PutsHold(entries, bytes, order, puts, key);
      var hit := entry.(lastAccessedAt := now, hits := entry.hits + 1);
      TouchConsistent(entries, bytes, order, puts, hit);
      TouchFits(entries, key, Stored(hit, order + 1), maxEntries, maxBytes);
      order := order + 1;
      entries := entries[key := Stored(hit, order)];
      r := Some(hit);
    }

    /** `put`: afterwards the cache holds the longest most recently used run of live entries
        within both limits, and the new entry is part of it. */
    method Put(key: string, value: Json, size: nat, ttl: Option<real>, now: real) returns (r: PutResult)
      requires Valid()
      modifies this
      ensures Valid()
      ensures r.TooLarge? <==> size > maxBytes
      ensures r.TooLarge? ==> entries == old(entries) && puts == old(puts) && order == old(order)
      ensures r.Put? ==> r.entry == NewEntry(key, value, size, ttl, now) && puts == old(puts)[key := value]
      ensures r.Put? ==> key in entries && entries[key].entry == r.entry && order == old(order) + 1
      ensures r.Put? ==> r.entry.key == key && r.entry.value == value && r.entry.size == size && r.entry.hits == 0
      ensures r.Put? ==> r.entry.createdAt == now && r.entry.expiresAt == (match ttl case Some(t) => Some(now + t) case None => None)
      ensures r.Put? ==> LongestRun(entries, Candidates(old(entries), key, now, Stored(r.entry, order)), maxEntries, maxBytes)
    {
      if size > maxBytes { return TooLarge; }
      var entry := NewEntry(key, value, size, ttl, now);
      Store(entry, now);
      ghost var stored := entries;
      EvictToLimits(key);
      assert stored[key] == Stored(entry, order);
      r := PutResult.Put(entry);
    }

    /** Expired entries and a previous value go, the new entry comes. */
    method Store(entry: Entry, now: real)
      requires Consistent(entries, bytes, order, puts)
      modifies this
      ensures Consistent(entries, bytes, order, puts)
      ensures entries == Candidates(old(entries), entry.key, now, Stored(entry, order))
      ensures order == old(order) + 1 && puts == old(puts)[entry.key := entry.value]
    {
      hide Consistent, Candidates, LiveOnes, WithinLimits;
      PurgeExpired(now);
      DropKey(entry.key);
      CandidatesAre(old(entries), entry.key, now, Stored(entry, order + 1));
      StoreConsistent(entries, bytes, order, puts, entry);
      order := order + 1;
      entries := entries[entry.key := Stored(entry, order)];
      bytes := bytes + entry.size;
      puts := puts[entry.key := entry.value];
    }

    method DropKey(key: string)
      requires Consistent(entries, bytes, order, puts)
      modifies this
      ensures Consistent(entries, bytes, order, puts) && entries == old(entries) - {key} && key !in entries
      ensures order == old(order) && puts == old(puts)
    {
      hide Consistent;
      NoKey(entries, key);
      if key in entries { Discard(key); }
    }

    method PurgeExpired(now: real)
      requires Consistent(entries, bytes, order, puts)
      modifies this
      ensures entries == LiveOnes(old(entries), now)
      ensures Consistent(entries, bytes, order, puts) && order == old(order) && puts == old(puts)
    {
      var expired := set k | k in entries && Expired(entries[k].entry, now);
      ghost var gone := expired;
      while expired != {}
        invariant Consistent(entries, bytes, order, puts) && order == old(order) && puts == old(puts)
        invariant expired <= gone && entries == old(entries) - (gone - expired)
        decreases expired
      {
        var k :| k in expired;
        DropMore(old(entries), gone, k, expired);
        Discard(k);
        expired := expired - {k};
      }
      assert gone - expired == gone;
      AllExpiredDropped(old(entries), now, gone);
    }

    /** The least recently used entry. */
    method Oldest() returns (k: string)
      requires entries != map[]
      ensures k in entries && forall o :: o in entries ==> entries[k].order <= entries[o].order
    {
      k :| k in entries;
      var rest := entries.Keys - {k};
      while rest != {}
        invariant k in entries && rest <= entries.Keys
        invariant forall o :: o in entries && o !in rest ==> entries[k].order <= entries[o].order
      {
        var o :| o in rest;
        rest := rest - {o};
        if entries[o].order < entries[k].order { k := o; }
      }
    }

    /** `_evict_to_limits`, right after the entry `key` was stored as the most recent one. */
    method EvictToLimits(key: string)
      requires maxEntries >= 1 && Consistent(entries, bytes, order, puts)
      requires key in entries && entries[key].order == order && entries[key].entry.size <= maxBytes
      modifies this
      ensures LongestRun(entries, old(entries), maxEntries, maxBytes) && key in entries
      ensures Consistent(entries, bytes, order, puts) && order == old(order) && puts == old(puts)
    {
      ghost var all := entries;
      while |entries| > maxEntries || bytes > maxBytes
        invariant Consistent(entries, bytes, order, puts) && order == old(order) && puts == old(puts)
        invariant Evicting(entries, all, key, maxEntries, maxBytes)
        decreases |entries|
      {
        var k := Oldest();
        NewestIsNotOldest(entries, all, key, k);
        EvictOldest(entries, all, key, k, maxEntries, maxBytes);
        Discard(k);
      }
    }

    lemma NewestIsNotOldest(left: Entries, all: Entries, key: string, k: string)
      requires Part(left, all) && key in left && left[key].entry.size <= maxBytes && maxEntries >= 1
      requires !WithinLimits(left, maxEntries, maxBytes)
      requires k in left && forall o :: o in left ==> left[k].order <= left[o].order
      requires forall o :: o in all ==> all[o].order <= all[key].order
      requires forall a, b :: a in all && b in all && all[a].order == all[b].order ==> a == b
      ensures k != key
    {
      if k == key {
        OnlyOneLeft(left, key, maxEntries, maxBytes);
      }
    }

    method Delete(key: string) returns (deleted: bool)
      requires Valid()
      modifies this
      ensures Valid() && deleted == (key in old(entries)) && entries == old(entries) - {key} && puts == old(puts)
    {
      deleted := key in entries;
      if deleted {
        Discard(key);
      } else {
        assert entries - {key} == entries;
      }
    }
  }
}
